/** engine/slicer.py: packing a shard's subjects into slices of near-equal record count. */
module Slicer {
  import opened Ordering
  import opened Sums

  /** A subject's sort key: churn first, then the identifier's code points. */
  type SortKey = (real, seq<int>)

  predicate KeyLess(a: SortKey, b: SortKey) {
    a.0 < b.0 || (a.0 == b.0 && Less(a.1, b.1))
  }

  predicate KeyLe(a: SortKey, b: SortKey) {
    a == b || KeyLess(a, b)
  }

  lemma KeyOrder()
    ensures TotalPreorder(KeyLe)
  {
    forall a: SortKey, b: SortKey ensures KeyLe(a, b) || KeyLe(b, a) { LessTotal(a.1, b.1); }
    forall a: SortKey, b: SortKey, c: SortKey | KeyLe(a, b) && KeyLe(b, c) ensures KeyLe(a, c) {
      if a.0 == b.0 == c.0 && a != b && b != c { LessTransitive(a.1, b.1, c.1); }
    }
  }

  function Keys(ids: seq<seq<int>>, churn: seq<real>): (keys: seq<SortKey>)
    requires |ids| == |churn|
    ensures |keys| == |ids| && forall i | 0 <= i < |keys| :: keys[i] == (churn[i], ids[i])
  {
    seq(|ids|, i requires 0 <= i < |ids| => (churn[i], ids[i]))
  }

  /** Positive record counts, as `np.bincount` over occurring subjects returns them. */
  ghost predicate Positive(c: seq<int>) {
    forall i | 0 <= i < |c| :: c[i] >= 1
  }

  /** The slice of the subject at position p of the order, from the running record count. */
  function SliceAt(c: seq<int>, n: int, p: nat): int
    requires p < |c| && Positive(c) && n >= 1
  {
    SumPositive(c);
    var raw := ((Sum(c[..p + 1]) - 1) * n) / Sum(c);
    if raw < n - 1 then raw else n - 1
  }

  lemma {:induction false} SumPositive(c: seq<int>)
    requires Positive(c)
    ensures Sum(c) >= |c|
  {
    if c != [] { SumPositive(c[..|c| - 1]); }
  }

  /** `out` is what `assign_slices` returns: position p of the order gets SliceAt, scattered back. */
  ghost predicate Assigned(ids: seq<seq<int>>, churn: seq<real>, counts: seq<int>, n: int, out: seq<int>)
    requires |ids| == |churn| == |counts| && Positive(counts) && n >= 1
  {
    var order := ArgSort(Keys(ids, churn), KeyLe);
    var c := Pick(counts, order);
    |out| == |ids| && forall p | 0 <= p < |order| :: out[order[p]] == SliceAt(c, n, p)
  }

  /** `np.lexsort((subject_ids, churn))` */
  lemma OrderSpec(ids: seq<seq<int>>, churn: seq<real>)
    requires |ids| == |churn|
    ensures var order := ArgSort(Keys(ids, churn), KeyLe);
            IsPermutation(order, |ids|) && SortedBy(Keys(ids, churn), KeyLe, order)
  {
    KeyOrder();
    ArgSortSpec(Keys(ids, churn), KeyLe);
  }

  datatype Result<+T> = Ok(value: T) | ValueError

  /** `assign_slices` */
  method AssignSlices(ids: seq<seq<int>>, churn: seq<real>, counts: seq<int>, n: int) returns (r: Result<array<int>>)
    requires |ids| == |churn| == |counts| && Positive(counts)
    ensures r.ValueError? <==> n < 1
    ensures r.Ok? ==> fresh(r.value) && Assigned(ids, churn, counts, n, r.value[..])
  {
    if n < 1 { return ValueError; }
    var m := |ids|;
    var out := new int[m](i => 0);
    if m == 0 { return Ok(out); }

    var keys := Keys(ids, churn);
    var order := ArgSort(keys, KeyLe);
    OrderSpec(ids, churn);
    ghost var c := Pick(counts, order);

    var cumulative := CumulativeCounts(counts, order);
    Scatter(out, order, cumulative, n, c);
    r := Ok(out);
  }

  /** `out[order] = np.minimum(((cumulative - 1) * num_slices) // total, num_slices - 1)` */
  method Scatter(out: array<int>, order: seq<nat>, cumulative: array<int>, n: int, ghost c: seq<int>)
    requires IsPermutation(order, out.Length) && out.Length == cumulative.Length == |c| > 0 && out != cumulative
    requires Positive(c) && n >= 1 && forall p | 0 <= p < |c| :: cumulative[p] == Sum(c[..p + 1])
    modifies out
    ensures forall p | 0 <= p < |order| :: out[order[p]] == SliceAt(c, n, p)
  {
    SumPositive(c);
    assert c[..|c|] == c;
    var total := cumulative[cumulative.Length - 1];
    for p := 0 to |order|
      invariant forall q | 0 <= q < p :: out[order[q]] == SliceAt(c, n, q)
    {
      var raw := ((cumulative[p] - 1) * n) / total;
      out[order[p]] := if raw < n - 1 then raw else n - 1;
    }
  }

  /** `np.cumsum(record_counts[order])` */
  method CumulativeCounts(counts: seq<int>, order: seq<nat>) returns (cumulative: array<int>)
    requires forall p | 0 <= p < |order| :: order[p] < |counts|
    ensures fresh(cumulative) && cumulative.Length == |order|
    ensures forall p | 0 <= p < |order| :: cumulative[p] == Sum(Pick(counts, order)[..p + 1])
  {
    ghost var c := Pick(counts, order);
    cumulative := new int[|order|](i => 0);
    var running := 0;
    for p := 0 to |order|
      invariant running == Sum(c[..p])
      invariant forall q | 0 <= q < p :: cumulative[q] == Sum(c[..q + 1])
    {
      running := running + counts[order[p]];
      assert c[..p + 1][..p] == c[..p];
      cumulative[p] := running;
    }
  }

  // -------------------------------------------------------------- arithmetic

  lemma DivLess(a: int, t: int, j: int)
    requires t > 0
    ensures a / t < j <==> a < j * t
  {
    assert a == (a / t) * t + a % t;
    if a / t < j {
      assert (a / t + 1) * t <= j * t;
    } else {
      assert (a / t) * t >= j * t;
    }
  }

  lemma {:induction false} PrefixGrows(c: seq<int>, p: nat, q: nat)
    requires Positive(c) && p <= q <= |c|
    ensures Sum(c[..q]) >= Sum(c[..p]) + (q - p)
  {
    if p < q {
      PrefixGrows(c, p, q - 1);
      assert c[..q][..q - 1] == c[..q - 1];
    }
  }

  /** A position lies before slice j exactly when its running count, less one, is under j/n of the total. */
  lemma SliceBelow(c: seq<int>, n: int, p: nat, j: int)
    requires p < |c| && Positive(c) && n >= 1 && 0 <= j <= n
    ensures SliceAt(c, n, p) < j <==> (Sum(c[..p + 1]) - 1) * n < j * Sum(c)
    ensures 0 <= SliceAt(c, n, p) < n
  {
    SumPositive(c);
    PrefixGrows(c, 0, p + 1);
    PrefixGrows(c, p + 1, |c|);
    assert c[..|c|] == c && Sum(c[..0]) == 0;
    SliceArithmetic(Sum(c[..p + 1]) - 1, Sum(c), n, j);
  }

  lemma SliceArithmetic(x: int, t: int, n: int, j: int)
    requires 0 <= x < t && n >= 1
    ensures 0 <= (x * n) / t < n
    ensures (x * n) / t < j <==> x * n < j * t
  {
    assert x * n >= 0;
    MulLess(x, t, n);
    DivLess(x * n, t, j);
    DivLess(x * n, t, n);
    DivLess(x * n, t, 0);
  }

  lemma MulLess(x: int, y: int, k: int)
    requires x < y && k >= 1
    ensures x * k < k * y
  {}

  lemma MulMono(x: int, y: int, k: int)
    requires x <= y && k >= 1
    ensures x * k <= y * k
  {}

  /** Slices never decrease along the order. */
  lemma SliceMonotone(c: seq<int>, n: int, p: nat, q: nat)
    requires p <= q < |c| && Positive(c) && n >= 1
    ensures SliceAt(c, n, p) <= SliceAt(c, n, q)
  {
    var j := SliceAt(c, n, q) + 1;
    SliceBelow(c, n, q, 0);
    SliceBelow(c, n, q, j);
    SliceBelow(c, n, p, j);
    PrefixGrows(c, p + 1, q + 1);
    MulMono(Sum(c[..p + 1]) - 1, Sum(c[..q + 1]) - 1, n);
  }

  /** How many positions lie before slice j. */
  function Before(c: seq<int>, n: int, j: int): (q: nat)
    requires Positive(c) && n >= 1
    ensures q <= |c|
    ensures forall p | 0 <= p < q :: SliceAt(c, n, p) < j
    ensures q < |c| ==> SliceAt(c, n, q) >= j
  {
    BeforeFrom(c, n, j, 0)
  }

  function BeforeFrom(c: seq<int>, n: int, j: int, p: nat): (q: nat)
    requires Positive(c) && n >= 1 && p <= |c|
    requires forall k | 0 <= k < p :: SliceAt(c, n, k) < j
    ensures p <= q <= |c|
    ensures forall k | 0 <= k < q :: SliceAt(c, n, k) < j
    ensures q < |c| ==> SliceAt(c, n, q) >= j
    decreases |c| - p
  {
    if p < |c| && SliceAt(c, n, p) < j then BeforeFrom(c, n, j, p + 1) else p
  }

  /** The records before slice j number j/n of the total, up to the records of one subject. */
  lemma BeforeBalanced(c: seq<int>, n: int, j: int, biggest: int)
    requires Positive(c) && c != [] && n >= 1 && 0 <= j <= n
    requires forall i | 0 <= i < |c| :: c[i] <= biggest
    ensures j * Sum(c) + n - n * biggest <= n * Sum(c[..Before(c, n, j)]) <= j * Sum(c) + n - 1
  {
    BeforeAtMost(c, n, j);
    BeforeAtLeast(c, n, j, biggest);
  }

  lemma BeforeAtMost(c: seq<int>, n: int, j: int)
    requires Positive(c) && n >= 1 && 0 <= j <= n
    ensures n * Sum(c[..Before(c, n, j)]) <= j * Sum(c) + n - 1
  {
    var q := Before(c, n, j);
    SumPositive(c);
    if q > 0 {
      SliceBelow(c, n, q - 1, j);
      BalanceAbove(Sum(c[..q]), Sum(c), n, j);
    } else {
      BalanceNone(Sum(c), n, j);
      assert Sum(c[..q]) == 0;
    }
  }

  lemma BeforeAtLeast(c: seq<int>, n: int, j: int, biggest: int)
    requires Positive(c) && c != [] && n >= 1 && 0 <= j <= n
    requires forall i | 0 <= i < |c| :: c[i] <= biggest
    ensures j * Sum(c) + n - n * biggest <= n * Sum(c[..Before(c, n, j)])
  {
    var q := Before(c, n, j);
    SumPositive(c);
    if q < |c| {
      SliceBelow(c, n, q, j);
      assert c[..q + 1][..q] == c[..q];
      BalanceBelow(Sum(c[..q]), c[q], biggest, Sum(c), n, j);
    } else {
      assert c[..q] == c && c[0] >= 1;
      BalanceAll(biggest, Sum(c), n, j);
    }
  }

  lemma BalanceNone(t: int, n: int, j: int)
    requires t >= 0 && n >= 1 && j >= 0
    ensures n * 0 <= j * t + n - 1
  {
    assert j * t >= 0;
  }

  lemma BalanceAll(biggest: int, t: int, n: int, j: int)
    requires biggest >= 1 && t >= 0 && 0 <= j <= n && n >= 1
    ensures j * t + n - n * biggest <= n * t
  {
    assert j * t <= n * t;
    assert n * biggest >= n;
  }

  lemma BalanceAbove(x: int, t: int, n: int, j: int)
    requires (x - 1) * n < j * t
    ensures n * x <= j * t + n - 1
  {
    assert (x - 1) * n == n * x - n;
  }

  lemma BalanceBelow(x: int, next: int, biggest: int, t: int, n: int, j: int)
    requires (x + next - 1) * n >= j * t && next <= biggest && n >= 1
    ensures n * x >= j * t + n - n * biggest
  {
    MulMono(next, biggest, n);
    assert (x + next - 1) * n == n * x + next * n - n;
  }

  // ---------------------------------------------------------- main results

  /** Each subject's record count if the subject is in slice j, else nothing. */
  function Marked(out: seq<int>, counts: seq<int>, j: int): (v: seq<int>)
    requires |out| == |counts|
    ensures |v| == |out| && forall i | 0 <= i < |v| :: v[i] == if out[i] == j then counts[i] else 0
  {
    seq(|out|, i requires 0 <= i < |out| => if out[i] == j then counts[i] else 0)
  }

  /** The records packed into slice j. */
  function Records(out: seq<int>, counts: seq<int>, j: int): int
    requires |out| == |counts|
  {
    Sum(Marked(out, counts, j))
  }

  lemma SliceRecords(ids: seq<seq<int>>, churn: seq<real>, counts: seq<int>, n: int, out: seq<int>, j: int)
    requires |ids| == |churn| == |counts| && Positive(counts) && n >= 1
    requires Assigned(ids, churn, counts, n, out) && 0 <= j < n
    ensures var c := Pick(counts, ArgSort(Keys(ids, churn), KeyLe));
            Records(out, counts, j) == Sum(c[..Before(c, n, j + 1)]) - Sum(c[..Before(c, n, j)])
  {
    var order := ArgSort(Keys(ids, churn), KeyLe);
    var c := Pick(counts, order);
    var v := Pick(Marked(out, counts, j), order);
    OrderSpec(ids, churn);
    SumPermuted(Marked(out, counts, j), order);
    var a, b := Before(c, n, j), Before(c, n, j + 1);
    assert a <= b;
    forall p | 0 <= p < |v| ensures v[p] == if a <= p < b then c[p] else 0 {
      assert v[p] == if SliceAt(c, n, p) == j then c[p] else 0;
      if a <= p { SliceMonotone(c, n, a, p); }
      if b <= p { SliceMonotone(c, n, b, p); }
    }
    SumOfStretch(v, c, a, b);
  }

  /** Packing balance: every slice, the empty ones included, is within one subject's records of an
      equal share, on both sides. */
  lemma PackingBound(ids: seq<seq<int>>, churn: seq<real>, counts: seq<int>, n: int, out: seq<int>, j: int,
                     biggest: int)
    requires |ids| == |churn| == |counts| > 0 && Positive(counts) && n >= 1
    requires Assigned(ids, churn, counts, n, out) && 0 <= j < n
    requires forall i | 0 <= i < |counts| :: counts[i] <= biggest
    ensures -(n * biggest) < n * Records(out, counts, j) - Sum(counts) < n * biggest
  {
    hide Assigned, Records, SliceAt, Before, Sum, ArgSort;
    var order := ArgSort(Keys(ids, churn), KeyLe);
    var c := Pick(counts, order);
    OrderSpec(ids, churn);
    SumPermuted(counts, order);
    SliceRecords(ids, churn, counts, n, out, j);
    BeforeBalanced(c, n, j, biggest);
    BeforeBalanced(c, n, j + 1, biggest);
    var lo, hi, t := Sum(c[..Before(c, n, j)]), Sum(c[..Before(c, n, j + 1)]), Sum(counts);
    BalanceSlice(lo, hi, t, n, j, biggest);
  }

  lemma BalanceSlice(lo: int, hi: int, t: int, n: int, j: int, biggest: int)
    requires j * t + n - n * biggest <= n * lo <= j * t + n - 1
    requires (j + 1) * t + n - n * biggest <= n * hi <= (j + 1) * t + n - 1
    ensures -(n * biggest) < n * (hi - lo) - t < n * biggest
  {
    assert n * (hi - lo) == n * hi - n * lo && (j + 1) * t == j * t + t;
  }

  /** Slice indices are in range and follow churn, so the subjects likeliest to be erased sit in the last
      slices, where rolling back costs least; among equal churn they follow the identifiers, by the first
      code point that differs and a proper prefix first. */
  lemma SlicesFollowChurn(ids: seq<seq<int>>, churn: seq<real>, counts: seq<int>, n: int, out: seq<int>, a: nat, b: nat)
    requires |ids| == |churn| == |counts| && Positive(counts) && n >= 1
    requires Assigned(ids, churn, counts, n, out) && a < |ids| && b < |ids|
    ensures 0 <= out[a] < n
    ensures churn[a] < churn[b] ==> out[a] <= out[b]
    ensures churn[a] == churn[b] ==>
              forall i | 0 <= i <= |ids[a]| && i < |ids[b]| && ids[a][..i] == ids[b][..i]
                         && (i == |ids[a]| || ids[a][i] < ids[b][i]) :: out[a] <= out[b]
  {
    hide SliceAt, Sum, ArgSort;
    LessAtFirst(ids[a], ids[b]);
    var keys := Keys(ids, churn);
    var order := ArgSort(keys, KeyLe);
    var c := Pick(counts, order);
    OrderSpec(ids, churn);
    Pigeonhole(order, |ids|, a);
    Pigeonhole(order, |ids|, b);
    var p :| 0 <= p < |order| && order[p] == a;
    var q :| 0 <= q < |order| && order[q] == b;
    SliceBelow(c, n, p, 0);
    if KeyLess(keys[a], keys[b]) {
      if q <= p {
        assert KeyLe(keys[order[q]], keys[order[p]]);
        KeyLessAsymmetric(keys[a], keys[b]);
      }
      SliceMonotone(c, n, p, q);
    }
  }

  lemma KeyLessAsymmetric(a: SortKey, b: SortKey)
    requires KeyLess(a, b)
    ensures !KeyLe(b, a)
  {
    LessIrreflexive(a.1);
    if Less(b.1, a.1) && a.0 == b.0 { LessTransitive(a.1, b.1, a.1); }
  }

  lemma FirstSliceAt(c: seq<int>, n: int)
    requires Positive(c) && c != [] && n >= 1
    ensures SliceAt(c, n, 0) >= 0
    ensures SliceAt(c, n, 0) == 0 <==> (c[0] - 1) * n < Sum(c)
  {
    SliceBelow(c, n, 0, 1);
    assert c[..1] == [c[0]] && [c[0]][..0] == [] && Sum(c[..1]) == c[0];
  }

  /** Slice 0, on which the preprocessor is fitted, is not always filled: it has a subject exactly
      when the first subject in order owns few enough records. */
  lemma FirstSliceOccupied(ids: seq<seq<int>>, churn: seq<real>, counts: seq<int>, n: int, out: seq<int>)
    requires |ids| == |churn| == |counts| > 0 && Positive(counts) && n >= 1
    requires Assigned(ids, churn, counts, n, out)
    ensures 0 in out <==> (counts[ArgSort(Keys(ids, churn), KeyLe)[0]] - 1) * n < Sum(counts)
  {
    hide SliceAt, Sum, Assigned;
    var order := ArgSort(Keys(ids, churn), KeyLe);
    OrderSpec(ids, churn);
    SumPermuted(counts, order);
    FirstSliceAt(Pick(counts, order), n);
    FirstSliceOfFirst(ids, churn, counts, n, out);
  }

  lemma FirstSliceOfFirst(ids: seq<seq<int>>, churn: seq<real>, counts: seq<int>, n: int, out: seq<int>)
    requires |ids| == |churn| == |counts| > 0 && Positive(counts) && n >= 1
    requires Assigned(ids, churn, counts, n, out)
    ensures 0 in out <==> SliceAt(Pick(counts, ArgSort(Keys(ids, churn), KeyLe)), n, 0) == 0
  {
    hide SliceAt, Sum, ArgSort;
    var order := ArgSort(Keys(ids, churn), KeyLe);
    var c := Pick(counts, order);
    OrderSpec(ids, churn);
    FirstSliceAt(c, n);
    assert out[order[0]] == SliceAt(c, n, 0);
    if 0 in out {
      var i :| 0 <= i < |out| && out[i] == 0;
      Pigeonhole(order, |ids|, i);
      var p :| 0 <= p < |order| && order[p] == i;
      SliceMonotone(c, n, 0, p);
    }
  }

  /** A subject with two records alone in its shard leaves slice 0 of five empty. */
  lemma FirstSliceCanBeEmpty(id: seq<int>, churn: real, out: seq<int>)
    requires Assigned([id], [churn], [2], 5, out)
    ensures out == [2] && 0 !in out
  {
    var order := ArgSort(Keys([id], [churn]), KeyLe);
    assert order == [0];
    var c := Pick([2], order);
    assert c == [2] && c[..1] == [2] && [2][..0] == [] && Sum([2]) == 2;
    assert out[order[0]] == SliceAt(c, 5, 0) == 2;
  }
}
