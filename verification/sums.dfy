/** Sums over lists, permutations of indices, and stable argsort (numpy's `lexsort` and
    `argsort(kind="mergesort")`). */
module Sums {

  function Sum(s: seq<int>): int {
    if s == [] then 0 else Sum(s[..|s| - 1]) + s[|s| - 1]
  }

  lemma {:induction false} SumAppend(a: seq<int>, b: seq<int>)
    ensures Sum(a + b) == Sum(a) + Sum(b)
  {
    if b == [] {
      assert a + b == a;
    } else {
      SumAppend(a, b[..|b| - 1]);
      assert (a + b)[..|a + b| - 1] == a + b[..|b| - 1];
    }
  }

  lemma {:induction false} SumNonNegative(s: seq<int>)
    requires forall i | 0 <= i < |s| :: s[i] >= 0
    ensures Sum(s) >= 0
  {
    if s != [] { SumNonNegative(s[..|s| - 1]); }
  }

  lemma {:induction false} SumZero(v: seq<int>)
    requires forall i | 0 <= i < |v| :: v[i] == 0
    ensures Sum(v) == 0
  {
    if v != [] { SumZero(v[..|v| - 1]); }
  }

  /** Only the stretch [a, b) contributes. */
  lemma SumOfStretch(v: seq<int>, c: seq<int>, a: nat, b: nat)
    requires a <= b <= |v| == |c|
    requires forall p | 0 <= p < |v| :: v[p] == if a <= p < b then c[p] else 0
    ensures Sum(v) == Sum(c[..b]) - Sum(c[..a])
  {
    assert v == v[..a] + v[a..b] + v[b..];
    SumAppend(v[..a] + v[a..b], v[b..]);
    SumAppend(v[..a], v[a..b]);
    SumZero(v[..a]);
    SumZero(v[b..]);
    assert v[a..b] == c[a..b] && c[..b] == c[..a] + c[a..b];
    SumAppend(c[..a], c[a..b]);
  }

  /** `v[order]` */
  function Pick<T>(v: seq<T>, order: seq<nat>): (r: seq<T>)
    requires forall p | 0 <= p < |order| :: order[p] < |v|
    ensures |r| == |order| && forall p | 0 <= p < |r| :: r[p] == v[order[p]]
  {
    seq(|order|, p requires 0 <= p < |order| => v[order[p]])
  }

  ghost predicate AllDifferent(s: seq<nat>) {
    forall p, q | 0 <= p < q < |s| :: s[p] != s[q]
  }

  ghost predicate IsPermutation(order: seq<nat>, n: nat) {
    && |order| == n
    && (forall p | 0 <= p < n :: order[p] < n)
    && AllDifferent(order)
  }

  /** The largest index occurs in a permutation, because distinct indices cannot all fit below it. */
  lemma {:induction false} TopOccurs(order: seq<nat>, n: nat) returns (p: nat)
    requires IsPermutation(order, n) && n > 0
    ensures p < n && order[p] == n - 1
    decreases n, 0
  {
    if order[n - 1] == n - 1 {
      p := n - 1;
    } else if exists q :: 0 <= q < n && order[q] == n - 1 {
      p :| 0 <= p < n && order[p] == n - 1;
    } else {
      // every entry is below n - 1, so the first n - 1 of them permute [0, n - 1)
      // and the last one repeats one of those
      Pigeonhole(order[..n - 1], n - 1, order[n - 1]);
      assert false;
    }
  }

  lemma {:induction false} Pigeonhole(order: seq<nat>, n: nat, x: nat)
    requires IsPermutation(order, n) && x < n
    ensures exists p :: 0 <= p < n && order[p] == x
    decreases n, 1
  {
    var top := TopOccurs(order, n);
    if x != n - 1 {
      var rest := order[..top] + order[top + 1..];
      DropTop(order, n, top);
      Pigeonhole(rest, n - 1, x);
      var q :| 0 <= q < n - 1 && rest[q] == x;
      assert order[if q < top then q else q + 1] == x;
    }
  }

  lemma DropTop(order: seq<nat>, n: nat, top: nat)
    requires IsPermutation(order, n) && top < n && order[top] == n - 1
    ensures IsPermutation(order[..top] + order[top + 1..], n - 1)
  {
    var rest := order[..top] + order[top + 1..];
    forall p | 0 <= p < n - 1
      ensures rest[p] == order[if p < top then p else p + 1] && rest[p] < n - 1
    {
      var q := if p < top then p else p + 1;
      assert rest[p] == order[q];
      assert order[q] != order[top];
    }
  }

  /** A sum does not depend on the order of its terms. */
  lemma {:induction false} SumPermuted(v: seq<int>, order: seq<nat>)
    requires IsPermutation(order, |v|)
    ensures Sum(Pick(v, order)) == Sum(v)
    decreases |v|
  {
    hide Pick;
    var n := |v|;
    if n > 0 {
      var top := TopOccurs(order, n);
      var a, b := order[..top], order[top + 1..];
      DropTop(order, n, top);
      SumPermuted(v[..n - 1], a + b);
      PickInit(v, a, b);
      PickSplit(v, order, top);
      SumMiddle(Pick(v, a), v[n - 1], Pick(v, b));
    }
  }

  lemma PickInit(v: seq<int>, a: seq<nat>, b: seq<nat>)
    requires v != [] && forall p | 0 <= p < |a + b| :: (a + b)[p] < |v| - 1
    ensures forall p | 0 <= p < |a| :: a[p] < |v|
    ensures forall p | 0 <= p < |b| :: b[p] < |v|
    ensures Pick(v[..|v| - 1], a + b) == Pick(v, a) + Pick(v, b)
  {
    forall p | 0 <= p < |a| ensures a[p] < |v| { assert a[p] == (a + b)[p]; }
    forall p | 0 <= p < |b| ensures b[p] < |v| { assert b[p] == (a + b)[|a| + p]; }
  }

  lemma PickSplit(v: seq<int>, order: seq<nat>, top: nat)
    requires top < |order| && forall p | 0 <= p < |order| :: order[p] < |v|
    ensures Pick(v, order) == Pick(v, order[..top]) + [v[order[top]]] + Pick(v, order[top + 1..])
  {}

  lemma SumMiddle(a: seq<int>, x: int, b: seq<int>)
    ensures Sum(a + [x] + b) == Sum(a + b) + x
  {
    SumAppend(a + [x], b);
    SumAppend(a, [x]);
    SumAppend(a, b);
    assert [x][..0] == [] && Sum([x]) == x;
  }

  // ---------------------------------------------------------------- argsort

  ghost predicate TotalPreorder<K(!new)>(le: (K, K) -> bool) {
    && (forall a, b :: le(a, b) || le(b, a))
    && (forall a, b, c :: le(a, b) && le(b, c) ==> le(a, c))
  }

  /** Index i, the newest, goes behind every entry it does not precede strictly. */
  function InsertIndex<K>(keys: seq<K>, le: (K, K) -> bool, order: seq<nat>, i: nat): (r: seq<nat>)
    requires i < |keys| && forall p | 0 <= p < |order| :: order[p] < |keys|
    ensures |r| == |order| + 1 && forall p | 0 <= p < |r| :: r[p] < |keys|
  {
    if order == [] then [i]
    else
      var last := order[|order| - 1];
      if le(keys[last], keys[i]) then order + [i]
      else InsertIndex(keys, le, order[..|order| - 1], i) + [last]
  }

  function ArgSortTo<K>(keys: seq<K>, le: (K, K) -> bool, n: nat): (order: seq<nat>)
    requires n <= |keys|
    ensures |order| == n && forall p | 0 <= p < n :: order[p] < |keys|
  {
    if n == 0 then [] else InsertIndex(keys, le, ArgSortTo(keys, le, n - 1), n - 1)
  }

  function ArgSort<K>(keys: seq<K>, le: (K, K) -> bool): (order: seq<nat>)
    ensures |order| == |keys| && forall p | 0 <= p < |order| :: order[p] < |keys|
  {
    ArgSortTo(keys, le, |keys|)
  }

  ghost predicate SortedBy<K>(keys: seq<K>, le: (K, K) -> bool, order: seq<nat>)
    requires forall p | 0 <= p < |order| :: order[p] < |keys|
  {
    forall p, q | 0 <= p < q < |order| :: le(keys[order[p]], keys[order[q]])
  }

  /** Insertion adds the new index and keeps the others distinct. */
  lemma {:induction false} InsertIndexMembers<K>(keys: seq<K>, le: (K, K) -> bool, order: seq<nat>, i: nat)
    requires i < |keys| && AllDifferent(order) && forall p | 0 <= p < |order| :: order[p] < i
    ensures forall x :: x in InsertIndex(keys, le, order, i) <==> x == i || x in order
    ensures AllDifferent(InsertIndex(keys, le, order, i))
  {
    if order != [] {
      var front, last := order[..|order| - 1], order[|order| - 1];
      assert order == front + [last];
      var r := InsertIndex(keys, le, order, i);
      if le(keys[last], keys[i]) {
        assert r == order + [i];
      } else {
        InsertIndexMembers(keys, le, front, i);
        var f := InsertIndex(keys, le, front, i);
        forall p | 0 <= p < |f| ensures f[p] != last {
          assert f[p] in f;
          if f[p] != i {
            var q :| 0 <= q < |front| && front[q] == f[p];
            assert order[q] == f[p];
          }
        }
        assert r == f + [last];
      }
    }
  }

  lemma {:induction false} InsertIndexSorted<K(!new)>(keys: seq<K>, le: (K, K) -> bool, order: seq<nat>, i: nat)
    requires TotalPreorder(le) && i < |keys|
    requires (forall p | 0 <= p < |order| :: order[p] < i) && SortedBy(keys, le, order) && AllDifferent(order)
    ensures SortedBy(keys, le, InsertIndex(keys, le, order, i))
  {
    if order != [] {
      var front, last := order[..|order| - 1], order[|order| - 1];
      if le(keys[last], keys[i]) {
        forall p | 0 <= p < |order| ensures le(keys[order[p]], keys[i]) {
          if p < |order| - 1 { assert le(keys[order[p]], keys[last]); }
        }
      } else {
        InsertIndexSorted(keys, le, front, i);
        InsertIndexMembers(keys, le, front, i);
        var f := InsertIndex(keys, le, front, i);
        forall p | 0 <= p < |f| ensures le(keys[f[p]], keys[last]) {
          assert f[p] in f;
          if f[p] != i {
            var q :| 0 <= q < |front| && front[q] == f[p];
            assert le(keys[order[q]], keys[order[|order| - 1]]);
          }
        }
      }
    }
  }

  lemma {:induction false} ArgSortToSpec<K(!new)>(keys: seq<K>, le: (K, K) -> bool, n: nat)
    requires TotalPreorder(le) && n <= |keys|
    ensures IsPermutation(ArgSortTo(keys, le, n), n) && SortedBy(keys, le, ArgSortTo(keys, le, n))
  {
    hide InsertIndex, TotalPreorder;
    if n > 0 {
      var prev := ArgSortTo(keys, le, n - 1);
      ArgSortToSpec(keys, le, n - 1);
      InsertIndexSorted(keys, le, prev, n - 1);
      InsertIndexMembers(keys, le, prev, n - 1);
      var cur := ArgSortTo(keys, le, n);
      assert cur == InsertIndex(keys, le, prev, n - 1);
      forall p | 0 <= p < n ensures cur[p] < n {
        assert cur[p] in cur;
      }
    }
  }

  /** Argsort returns a permutation that lists the keys in order. */
  lemma ArgSortSpec<K(!new)>(keys: seq<K>, le: (K, K) -> bool)
    requires TotalPreorder(le)
    ensures IsPermutation(ArgSort(keys, le), |keys|) && SortedBy(keys, le, ArgSort(keys, le))
  {
    ArgSortToSpec(keys, le, |keys|);
  }
}
