/** data/eval_set.py: AUC as a tie-averaged rank statistic, over exact scores. */
module EvalSet {
  import opened Sums

  predicate RealLe(a: real, b: real) { a <= b }

  /** `y_score[y_true == want]` */
  function Class(y: seq<bool>, s: seq<real>, want: bool): seq<real>
    requires |y| == |s|
  {
    if s == [] then []
    else Class(y[..|s| - 1], s[..|s| - 1], want) + (if y[|s| - 1] == want then [s[|s| - 1]] else [])
  }

  function CountBelow(v: seq<real>, x: real): nat {
    if v == [] then 0 else CountBelow(v[..|v| - 1], x) + (if v[|v| - 1] < x then 1 else 0)
  }

  function CountEqual(v: seq<real>, x: real): nat {
    if v == [] then 0 else CountEqual(v[..|v| - 1], x) + (if v[|v| - 1] == x then 1 else 0)
  }

  // ---------------------------------------------------- pairwise definition

  /** Pairs (positive, negative) with the negative scored strictly below. */
  function Wins(pos: seq<real>, neg: seq<real>): nat {
    if pos == [] then 0 else Wins(pos[..|pos| - 1], neg) + CountBelow(neg, pos[|pos| - 1])
  }

  /** Pairs (positive, negative) with equal scores. */
  function Ties(pos: seq<real>, neg: seq<real>): nat {
    if pos == [] then 0 else Ties(pos[..|pos| - 1], neg) + CountEqual(neg, pos[|pos| - 1])
  }

  /** The probability that a random positive outscores a random negative, ties counting half;
      one half when a class is missing. */
  function PairwiseAuc(y: seq<bool>, s: seq<real>): real
    requires |y| == |s|
  {
    var pos, neg := Class(y, s, true), Class(y, s, false);
    if |pos| == 0 || |neg| == 0 then 0.5
    else
      assert |pos| * |neg| > 0;
      (Wins(pos, neg) as real + Ties(pos, neg) as real / 2.0) / ((|pos| * |neg|) as real)
  }

  // ------------------------------------------------------------------ ranks

  /** Twice the averaged rank of a score x among v. */
  function TwiceRank(v: seq<real>, x: real): nat {
    2 * CountBelow(v, x) + CountEqual(v, x) + 1
  }

  function Upto(n: nat): (c: seq<int>)
    ensures |c| == n && forall p | 0 <= p < n :: c[p] == p + 1
  {
    seq(n, p => p + 1)
  }

  function Ones(n: nat): (c: seq<int>)
    ensures |c| == n && forall p | 0 <= p < n :: c[p] == 1
  {
    seq(n, p => 1)
  }

  lemma {:induction false} SumUpto(n: nat, b: nat)
    requires b <= n
    ensures 2 * Sum(Upto(n)[..b]) == b * (b + 1)
  {
    if b > 0 {
      SumUpto(n, b - 1);
      assert Upto(n)[..b][..b - 1] == Upto(n)[..b - 1];
      assert b * (b + 1) == (b - 1) * b + 2 * b;
    }
  }

  lemma {:induction false} SumOnes(n: nat, b: nat)
    requires b <= n
    ensures Sum(Ones(n)[..b]) == b
  {
    if b > 0 {
      SumOnes(n, b - 1);
      assert Ones(n)[..b][..b - 1] == Ones(n)[..b - 1];
    }
  }

  /** 1 where the score is below (or equal to) x. */
  function Below(v: seq<real>, x: real): (r: seq<int>)
    ensures |r| == |v| && forall i | 0 <= i < |v| :: r[i] == if v[i] < x then 1 else 0
  {
    seq(|v|, i requires 0 <= i < |v| => if v[i] < x then 1 else 0)
  }

  function Equal(v: seq<real>, x: real): (r: seq<int>)
    ensures |r| == |v| && forall i | 0 <= i < |v| :: r[i] == if v[i] == x then 1 else 0
  {
    seq(|v|, i requires 0 <= i < |v| => if v[i] == x then 1 else 0)
  }

  lemma {:induction false} CountsAreSums(v: seq<real>, x: real)
    ensures CountBelow(v, x) == Sum(Below(v, x)) && CountEqual(v, x) == Sum(Equal(v, x))
  {
    if v != [] {
      CountsAreSums(v[..|v| - 1], x);
      assert Below(v, x)[..|v| - 1] == Below(v[..|v| - 1], x);
      assert Equal(v, x)[..|v| - 1] == Equal(v[..|v| - 1], x);
    }
  }

  /** Where x would start and end in a sorted list. */
  ghost predicate Stretch(sorted: seq<real>, x: real, a: nat, b: nat) {
    a <= b <= |sorted| && forall p | 0 <= p < |sorted| ::
      (p < a <==> sorted[p] < x) && (a <= p < b <==> sorted[p] == x)
  }

  lemma {:induction false} FindStretch(sorted: seq<real>, x: real) returns (a: nat, b: nat)
    requires forall p, q | 0 <= p < q < |sorted| :: sorted[p] <= sorted[q]
    ensures Stretch(sorted, x, a, b)
  {
    if sorted == [] {
      a, b := 0, 0;
    } else {
      var n := |sorted| - 1;
      a, b := FindStretch(sorted[..n], x);
      if sorted[n] < x { a, b := n + 1, n + 1; } else if sorted[n] == x { b := n + 1; }
    }
  }

  lemma StretchCounts(scores: seq<real>, order: seq<nat>, x: real, a: nat, b: nat)
    requires IsPermutation(order, |scores|) && Stretch(Pick(scores, order), x, a, b)
    ensures CountBelow(scores, x) == a && CountEqual(scores, x) == b - a
  {
    var n := |scores|;
    CountsAreSums(scores, x);
    SumPermuted(Below(scores, x), order);
    SumPermuted(Equal(scores, x), order);
    SumOfStretch(Pick(Below(scores, x), order), Ones(n), 0, a);
    SumOfStretch(Pick(Equal(scores, x), order), Ones(n), a, b);
    SumOnes(n, 0);
    SumOnes(n, a);
    SumOnes(n, b);
  }

  /** The unaveraged ranks: position in the order, counted from 1. */
  ghost predicate RawRanks(order: seq<nat>, raw: seq<int>) {
    |raw| == |order| && (forall p | 0 <= p < |order| :: order[p] < |raw|)
    && forall p | 0 <= p < |order| :: raw[order[p]] == p + 1
  }

  function Tied(scores: seq<real>, raw: seq<int>, x: real): (r: seq<int>)
    requires |scores| == |raw|
    ensures |r| == |raw| && forall i | 0 <= i < |raw| :: r[i] == if scores[i] == x then raw[i] else 0
  {
    seq(|raw|, i requires 0 <= i < |raw| => if scores[i] == x then raw[i] else 0)
  }

  /** The raw ranks of a tie group are consecutive, so twice their sum is the group's size times
      twice the averaged rank, however the sort ordered the group. */
  lemma TieGroupSum(scores: seq<real>, order: seq<nat>, raw: seq<int>, x: real)
    requires IsPermutation(order, |scores|) && RawRanks(order, raw)
    requires forall p, q | 0 <= p < q < |order| :: scores[order[p]] <= scores[order[q]]
    ensures 2 * Sum(Tied(scores, raw, x)) == CountEqual(scores, x) * TwiceRank(scores, x)
  {
    hide Sum, CountBelow, CountEqual;
    var a, b := FindStretch(Pick(scores, order), x);
    StretchCounts(scores, order, x, a, b);
    SumPermuted(Tied(scores, raw, x), order);
    TiedStretch(scores, order, raw, x, a, b);
    Consecutive(a, b);
  }

  lemma TiedStretch(scores: seq<real>, order: seq<nat>, raw: seq<int>, x: real, a: nat, b: nat)
    requires IsPermutation(order, |scores|) && RawRanks(order, raw)
    requires Stretch(Pick(scores, order), x, a, b)
    ensures 2 * Sum(Pick(Tied(scores, raw, x), order)) == b * (b + 1) - a * (a + 1)
  {
    var n := |scores|;
    SumOfStretch(Pick(Tied(scores, raw, x), order), Upto(n), a, b);
    SumUpto(n, a);
    SumUpto(n, b);
  }

  /** An untied score already has its averaged rank. */
  lemma LoneRank(scores: seq<real>, order: seq<nat>, raw: seq<int>, i: nat)
    requires IsPermutation(order, |scores|) && RawRanks(order, raw) && i < |scores|
    requires forall p, q | 0 <= p < q < |order| :: scores[order[p]] <= scores[order[q]]
    requires CountEqual(scores, scores[i]) == 1
    ensures 2 * raw[i] == TwiceRank(scores, scores[i])
  {
    hide CountBelow, CountEqual;
    var a, b := FindStretch(Pick(scores, order), scores[i]);
    StretchCounts(scores, order, scores[i], a, b);
    Pigeonhole(order, |scores|, i);
    var p :| 0 <= p < |order| && order[p] == i;
    assert Pick(scores, order)[p] == scores[i];
  }

  lemma Consecutive(a: nat, b: nat)
    requires a <= b
    ensures b * (b + 1) - a * (a + 1) == (b - a) * (2 * a + (b - a) + 1)
  {}

  // ------------------------------------------------------------ rank identity

  /** Over the members x of a: 2 for each member of v below x and 1 for each equal to it. */
  function Rivalry(a: seq<real>, v: seq<real>): nat {
    if a == [] then 0
    else var x := a[|a| - 1]; Rivalry(a[..|a| - 1], v) + 2 * CountBelow(v, x) + CountEqual(v, x)
  }

  lemma {:induction false} RivalryIsWins(pos: seq<real>, neg: seq<real>)
    ensures Rivalry(pos, neg) == 2 * Wins(pos, neg) + Ties(pos, neg)
  {
    if pos != [] { RivalryIsWins(pos[..|pos| - 1], neg); }
  }

  /** What one more member x adds to everybody's rivalry. */
  function Against(a: seq<real>, x: real): nat {
    if a == [] then 0
    else
      var last := a[|a| - 1];
      Against(a[..|a| - 1], x) + (if x < last then 2 else if x == last then 1 else 0)
  }

  lemma {:induction false} RivalryAppend(a: seq<real>, v: seq<real>, x: real)
    ensures Rivalry(a, v + [x]) == Rivalry(a, v) + Against(a, x)
  {
    if a != [] {
      RivalryAppend(a[..|a| - 1], v, x);
      assert (v + [x])[..|v|] == v;
    }
  }

  /** Between any two members exactly two points are shared out. */
  lemma {:induction false} Mutual(a: seq<real>, x: real)
    ensures Against(a, x) + 2 * CountBelow(a, x) + CountEqual(a, x) == 2 * |a|
  {
    if a != [] { Mutual(a[..|a| - 1], x); }
  }

  lemma RivalryOfNone(v: seq<real>)
    ensures Rivalry([], v) == 0
  {}

  lemma {:induction false} SelfRivalry(a: seq<real>)
    ensures Rivalry(a, a) == |a| * |a|
  {
    hide Rivalry, Against, CountBelow, CountEqual;
    if a == [] {
      RivalryOfNone(a);
    } else {
      var b, x := a[..|a| - 1], a[|a| - 1];
      assert a == b + [x];
      SelfRivalry(b);
      RivalryAppend(b, b, x);
      Mutual(b, x);
      RivalryOneMore(b, x, b + [x]);
      CountAppend(b, x, x);
      SquareStep(|b|);
    }
  }

  lemma SquareStep(n: nat)
    ensures (n + 1) * (n + 1) == n * n + 2 * n + 1
  {}

  lemma {:induction false} CountsSplit(y: seq<bool>, s: seq<real>, x: real)
    requires |y| == |s|
    ensures CountBelow(s, x) == CountBelow(Class(y, s, true), x) + CountBelow(Class(y, s, false), x)
    ensures CountEqual(s, x) == CountEqual(Class(y, s, true), x) + CountEqual(Class(y, s, false), x)
  {
    if s != [] {
      var m := |s| - 1;
      CountsSplit(y[..m], s[..m], x);
      assert Class(y, s, !y[m]) == Class(y[..m], s[..m], !y[m]);
      if y[m] { CountAppend(Class(y[..m], s[..m], true), s[m], x); }
      else { CountAppend(Class(y[..m], s[..m], false), s[m], x); }
    }
  }

  lemma CountAppend(v: seq<real>, last: real, x: real)
    ensures CountBelow(v + [last], x) == CountBelow(v, x) + (if last < x then 1 else 0)
    ensures CountEqual(v + [last], x) == CountEqual(v, x) + (if last == x then 1 else 0)
  {
    assert (v + [last])[..|v|] == v;
  }

  /** Twice the sum of the averaged ranks of the first k rows that are positive. */
  function TwicePositiveRanks(y: seq<bool>, s: seq<real>, k: nat): nat
    requires |y| == |s| && k <= |s|
  {
    if k == 0 then 0
    else TwicePositiveRanks(y, s, k - 1) + (if y[k - 1] then TwiceRank(s, s[k - 1]) else 0)
  }

  lemma RivalryOneMore(a: seq<real>, x: real, v: seq<real>)
    ensures Rivalry(a + [x], v) == Rivalry(a, v) + 2 * CountBelow(v, x) + CountEqual(v, x)
  {
    assert (a + [x])[..|a|] == a;
  }

  /** The score of one more row, if it is of that class. */
  lemma ClassStep(y: seq<bool>, s: seq<real>, want: bool, n: nat)
    requires |y| == |s| && n < |y|
    ensures Class(y[..n + 1], s[..n + 1], want)
         == Class(y[..n], s[..n], want) + (if y[n] == want then [s[n]] else [])
  {
    assert y[..n + 1][..n] == y[..n] && s[..n + 1][..n] == s[..n];
  }

  lemma {:induction false} RanksByClass(y: seq<bool>, s: seq<real>, k: nat)
    requires |y| == |s| && k <= |s|
    ensures var pos := Class(y[..k], s[..k], true);
            TwicePositiveRanks(y, s, k)
            == Rivalry(pos, Class(y, s, true)) + Rivalry(pos, Class(y, s, false)) + |pos|
  {
    if k > 0 {
      hide Rivalry, CountBelow, CountEqual;
      RanksByClass(y, s, k - 1);
      ClassStep(y, s, true, k - 1);
      assert Class(y[..k - 1], s[..k - 1], true) + [] == Class(y[..k - 1], s[..k - 1], true);
      if y[k - 1] {
        CountsSplit(y, s, s[k - 1]);
        var c := Class(y[..k - 1], s[..k - 1], true);
        RivalryOneMore(c, s[k - 1], Class(y, s, true));
        RivalryOneMore(c, s[k - 1], Class(y, s, false));
      }
    } else {
      RivalryOfNone(Class(y, s, true));
      RivalryOfNone(Class(y, s, false));
    }
  }

  /** The rank-sum identity: what the ranks of the positives exceed their own minimum by is the
      pairwise count. */
  lemma RankSumIdentity(y: seq<bool>, s: seq<real>)
    requires |y| == |s|
    ensures var pos, neg := Class(y, s, true), Class(y, s, false);
            TwicePositiveRanks(y, s, |s|) == |pos| * (|pos| + 1) + 2 * Wins(pos, neg) + Ties(pos, neg)
  {
    hide Rivalry, TwicePositiveRanks, Class, Wins, Ties;
    var pos, neg := Class(y, s, true), Class(y, s, false);
    RanksByClass(y, s, |s|);
    assert y[..|s|] == y && s[..|s|] == s;
    SelfRivalry(pos);
    RivalryIsWins(pos, neg);
  }

  // --------------------------------------------------------------------- auc

  /** `np.unique` of a sorted list */
  function Distinct(v: seq<real>): (r: seq<real>)
    ensures forall x :: x in r <==> x in v
    ensures forall i, j | 0 <= i < j < |r| :: r[i] != r[j]
  {
    if v == [] then []
    else
      var r := Distinct(v[..|v| - 1]);
      var x := v[|v| - 1];
      assert v == v[..|v| - 1] + [x];
      if x in r then r else r + [x]
  }

  /** One turn of the tie loop: every row scoring x gets the mean of the group's ranks. */
  method AverageTies(ranks: array<real>, s: seq<real>, x: real, ghost order: seq<nat>, ghost raw: seq<int>)
    requires ranks.Length == |s| && IsPermutation(order, |s|) && RawRanks(order, raw)
    requires forall p, q | 0 <= p < q < |order| :: s[order[p]] <= s[order[q]]
    requires forall i | 0 <= i < |s| && s[i] == x :: ranks[i] == raw[i] as real
    modifies ranks
    ensures forall i | 0 <= i < |s| ::
              ranks[i] == if s[i] == x then TwiceRank(s, x) as real / 2.0 else old(ranks[i])
  {
    var tied, total := TieTotals(ranks, s, x, raw);
    TieGroupSum(s, order, raw, x);
    if tied > 1 {
      var mean := total / tied as real;
      MeanIs(mean, total, tied, TwiceRank(s, x));
      for i := 0 to |s|
        invariant forall k | 0 <= k < |s| ::
                    ranks[k] == if k < i && s[k] == x then mean else old(ranks[k])
      {
        if s[i] == x { ranks[i] := mean; }
      }
    } else {
      forall i | 0 <= i < |s| && s[i] == x ensures 2 * raw[i] == TwiceRank(s, x) {
        EqualOccurs(s, i);
        LoneRank(s, order, raw, i);
      }
    }
  }

  /** `tied.sum()` and `ranks[tied].sum()` */
  method TieTotals(ranks: array<real>, s: seq<real>, x: real, ghost raw: seq<int>) returns (tied: int, total: real)
    requires ranks.Length == |s| == |raw|
    requires forall i | 0 <= i < |s| && s[i] == x :: ranks[i] == raw[i] as real
    ensures tied == CountEqual(s, x) && total == Sum(Tied(s, raw, x)) as real
  {
    tied, total := 0, 0.0;
    for i := 0 to |s|
      invariant tied == CountEqual(s[..i], x)
      invariant total == Sum(Tied(s, raw, x)[..i]) as real
    {
      assert s[..i + 1][..i] == s[..i];
      assert Tied(s, raw, x)[..i + 1][..i] == Tied(s, raw, x)[..i];
      if s[i] == x { tied, total := tied + 1, total + ranks[i]; }
    }
    assert s[..|s|] == s && Tied(s, raw, x)[..|s|] == Tied(s, raw, x);
  }

  lemma MeanIs(mean: real, total: real, tied: int, twice: int)
    requires tied > 0 && mean == total / tied as real && 2.0 * total == (tied * twice) as real
    ensures mean == twice as real / 2.0
  {
    assert (tied * twice) as real == tied as real * twice as real;
  }

  lemma {:induction false} EqualOccurs(s: seq<real>, i: nat)
    requires i < |s|
    ensures CountEqual(s, s[i]) >= 1
  {
    if i < |s| - 1 { EqualOccurs(s[..|s| - 1], i); }
  }

  // ------------------------------------------------------- counting pairs of rows

  /** A positive row and a negative one. */
  ghost function Pairs(y: seq<bool>): set<(int, int)> {
    set i, j | 0 <= i < |y| && 0 <= j < |y| && y[i] && !y[j] :: (i, j)
  }

  /** Those of them where the positive row scores higher. */
  ghost function Won(y: seq<bool>, s: seq<real>): set<(int, int)>
    requires |y| == |s|
  {
    set i, j | 0 <= i < |y| && 0 <= j < |y| && y[i] && !y[j] && s[i] > s[j] :: (i, j)
  }

  /** And those where the two score the same. */
  ghost function Drawn(y: seq<bool>, s: seq<real>): set<(int, int)>
    requires |y| == |s|
  {
    set i, j | 0 <= i < |y| && 0 <= j < |y| && y[i] && !y[j] && s[i] == s[j] :: (i, j)
  }

  type Relation = (real, real) -> bool

  function Any(): Relation { (x: real, z: real) => true }
  function Above(): Relation { (x: real, z: real) => x > z }
  function Same(): Relation { (x: real, z: real) => x == z }

  /** The pairs so related whose positive row is one of the first n. */
  ghost function Related(y: seq<bool>, s: seq<real>, rel: Relation, n: nat): set<(int, int)>
    requires |y| == |s| && n <= |y|
  {
    set i, j | 0 <= i < n && 0 <= j < |y| && y[i] && !y[j] && rel(s[i], s[j]) :: (i, j)
  }

  /** The first n rows that are negative and so related to x. */
  ghost function Rivals(y: seq<bool>, s: seq<real>, rel: Relation, x: real, n: nat): set<int>
    requires |y| == |s| && n <= |y|
  {
    set j | 0 <= j < n && !y[j] && rel(x, s[j])
  }

  function Tally(v: seq<real>, rel: Relation, x: real): nat {
    if v == [] then 0 else Tally(v[..|v| - 1], rel, x) + (if rel(x, v[|v| - 1]) then 1 else 0)
  }

  function Tallies(pos: seq<real>, neg: seq<real>, rel: Relation): nat {
    if pos == [] then 0 else Tallies(pos[..|pos| - 1], neg, rel) + Tally(neg, rel, pos[|pos| - 1])
  }

  lemma {:induction false} TallyIs(v: seq<real>, x: real)
    ensures Tally(v, Any(), x) == |v| && Tally(v, Above(), x) == CountBelow(v, x)
    ensures Tally(v, Same(), x) == CountEqual(v, x)
  {
    if v != [] { TallyIs(v[..|v| - 1], x); }
  }

  lemma {:induction false} TalliesAre(pos: seq<real>, neg: seq<real>)
    ensures Tallies(pos, neg, Any()) == |pos| * |neg|
    ensures Tallies(pos, neg, Above()) == Wins(pos, neg) && Tallies(pos, neg, Same()) == Ties(pos, neg)
  {
    hide Tally, CountBelow, CountEqual;
    if pos != [] {
      TalliesAre(pos[..|pos| - 1], neg);
      TallyIs(neg, pos[|pos| - 1]);
      assert |pos| * |neg| == (|pos| - 1) * |neg| + |neg|;
    }
  }

  lemma TallyStep(v: seq<real>, rel: Relation, x: real, z: real)
    ensures Tally(v + [z], rel, x) == Tally(v, rel, x) + (if rel(x, z) then 1 else 0)
  {
    assert (v + [z])[..|v|] == v;
  }

  lemma {:induction false} RivalsCounted(y: seq<bool>, s: seq<real>, rel: Relation, x: real, n: nat)
    requires |y| == |s| && n <= |y|
    ensures |Rivals(y, s, rel, x, n)| == Tally(Class(y[..n], s[..n], false), rel, x)
  {
    hide Class, Tally;
    if n == 0 {
      assert Rivals(y, s, rel, x, 0) == {};
      NoClass(rel, x);
    } else {
      var m := n - 1;
      RivalsCounted(y, s, rel, x, m);
      ClassStep(y, s, false, m);
      TallyStep(Class(y[..m], s[..m], false), rel, x, s[m]);
      var more := if !y[m] && rel(x, s[m]) then {m} else {};
      assert Rivals(y, s, rel, x, n) == Rivals(y, s, rel, x, m) + more;
      if y[m] { assert Class(y[..m], s[..m], false) + [] == Class(y[..m], s[..m], false); }
    }
  }

  lemma NoClass(rel: Relation, x: real)
    ensures Tally(Class([], [], false), rel, x) == 0 && Class([], [], true) == []
  {}

  /** Row i with each of these. */
  ghost function With(i: int, js: set<int>): set<(int, int)> { set j | j in js :: (i, j) }

  lemma {:induction false} WithSize(i: int, js: set<int>)
    ensures |With(i, js)| == |js|
    decreases |js|
  {
    assert (forall x: int :: x !in js) ==> js == {};
    if js != {} {
      var x :| x in js;
      WithSize(i, js - {x});
      assert With(i, js) == With(i, js - {x}) + {(i, x)};
    } else {
      assert With(i, js) == {};
    }
  }

  lemma {:induction false} RelatedCounted(y: seq<bool>, s: seq<real>, rel: Relation, n: nat)
    requires |y| == |s| && n <= |y|
    ensures |Related(y, s, rel, n)| == Tallies(Class(y[..n], s[..n], true), Class(y, s, false), rel)
  {
    hide Class, Tally, Rivals, Related;
    var neg := Class(y, s, false);
    if n == 0 {
      NoneRelated(y, s, rel);
      NoClass(rel, 0.0);
    } else {
      var m := n - 1;
      RelatedCounted(y, s, rel, m);
      ClassStep(y, s, true, m);
      var pos := Class(y[..m], s[..m], true);
      if y[m] {
        var js := Rivals(y, s, rel, s[m], |y|);
        RivalsCounted(y, s, rel, s[m], |y|);
        assert y[..|y|] == y && s[..|y|] == s;
        WithSize(m, js);
        RelatedStep(y, s, rel, m);
        TalliesStep(pos, neg, rel, s[m]);
      } else {
        NegativeStep(y, s, rel, m);
        assert pos + [] == pos;
      }
    }
  }

  lemma NoneRelated(y: seq<bool>, s: seq<real>, rel: Relation)
    requires |y| == |s|
    ensures Related(y, s, rel, 0) == {}
  {}

  lemma NegativeStep(y: seq<bool>, s: seq<real>, rel: Relation, m: nat)
    requires |y| == |s| && m < |y| && !y[m]
    ensures Related(y, s, rel, m + 1) == Related(y, s, rel, m)
  {}

  lemma TalliesStep(pos: seq<real>, neg: seq<real>, rel: Relation, x: real)
    ensures Tallies(pos + [x], neg, rel) == Tallies(pos, neg, rel) + Tally(neg, rel, x)
  {
    assert (pos + [x])[..|pos|] == pos;
  }

  lemma RelatedStep(y: seq<bool>, s: seq<real>, rel: Relation, m: nat)
    requires |y| == |s| && m < |y| && y[m]
    ensures var more := With(m, Rivals(y, s, rel, s[m], |y|));
            Related(y, s, rel, m + 1) == Related(y, s, rel, m) + more && Related(y, s, rel, m) !! more
  {}

  /** The statistic counts pairs of rows: times their number it is the pairs won and half of those drawn. */
  lemma AucIsCount(y: seq<bool>, s: seq<real>)
    requires |y| == |s|
    ensures Pairs(y) == {} ==> PairwiseAuc(y, s) == 0.5
    ensures Pairs(y) != {} ==>
              PairwiseAuc(y, s) * |Pairs(y)| as real == |Won(y, s)| as real + |Drawn(y, s)| as real / 2.0
  {
    hide Class, Wins, Ties, Tallies, Related, Pairs, Won, Drawn;
    var pos, neg, n := Class(y, s, true), Class(y, s, false), |y|;
    assert y[..n] == y && s[..n] == s;
    RelatedCounted(y, s, Any(), n);
    RelatedCounted(y, s, Above(), n);
    RelatedCounted(y, s, Same(), n);
    TalliesAre(pos, neg);
    AllRelated(y, s);
    assert Pairs(y) == {} <==> |Pairs(y)| == 0;
    assert |pos| * |neg| == 0 <==> |pos| == 0 || |neg| == 0;
  }

  lemma AllRelated(y: seq<bool>, s: seq<real>)
    requires |y| == |s|
    ensures Pairs(y) == Related(y, s, Any(), |y|)
    ensures Won(y, s) == Related(y, s, Above(), |y|) && Drawn(y, s) == Related(y, s, Same(), |y|)
  {}

  lemma WonOrDrawn(y: seq<bool>, s: seq<real>)
    requires |y| == |s|
    ensures |Won(y, s)| + |Drawn(y, s)| <= |Pairs(y)|
    ensures |Won(y, s)| == |Pairs(y)| <==> Won(y, s) == Pairs(y)
  {
    Subset(Won(y, s) + Drawn(y, s), Pairs(y));
    Subset(Won(y, s), Pairs(y));
    assert Won(y, s) !! Drawn(y, s);
  }

  lemma Subset(a: set<(int, int)>, b: set<(int, int)>)
    requires a <= b
    ensures |a| <= |b| && (|a| == |b| <==> a == b)
  {
    assert b == a + (b - a);
    assert |b| == |a| + |b - a|;
  }

  /** It lies between 0 and 1, and is 1 exactly when every positive row scores above every negative one. */
  lemma PerfectScore(y: seq<bool>, s: seq<real>)
    requires |y| == |s|
    ensures 0.0 <= PairwiseAuc(y, s) <= 1.0
    ensures PairwiseAuc(y, s) == 1.0 <==> Pairs(y) != {} && Won(y, s) == Pairs(y)
    ensures Won(y, s) == Pairs(y) <==>
            forall i, j | 0 <= i < |y| && 0 <= j < |y| && y[i] && !y[j] :: s[i] > s[j]
  {
    hide PairwiseAuc;
    AucIsCount(y, s);
    WonOrDrawn(y, s);
    if Pairs(y) != {} {
      ShareOf(PairwiseAuc(y, s), |Won(y, s)|, |Drawn(y, s)|, |Pairs(y)|);
    }
    EveryPair(y, s);
  }

  lemma EveryPair(y: seq<bool>, s: seq<real>)
    requires |y| == |s|
    ensures Won(y, s) == Pairs(y) <==>
            forall i, j | 0 <= i < |y| && 0 <= j < |y| && y[i] && !y[j] :: s[i] > s[j]
  {
    if Won(y, s) == Pairs(y) {
      forall i, j | 0 <= i < |y| && 0 <= j < |y| && y[i] && !y[j] ensures s[i] > s[j] {
        assert (i, j) in Pairs(y);
        assert (i, j) in Won(y, s);
      }
    }
  }

  lemma Scaled(a: real, b: real, k: real)
    requires k > 0.0
    ensures a <= b <==> a * k <= b * k
  {}

  lemma ShareOf(r: real, won: nat, drawn: nat, all: nat)
    requires all > 0 && won + drawn <= all && r * all as real == won as real + drawn as real / 2.0
    ensures 0.0 <= r <= 1.0 && (r == 1.0 <==> won == all)
  {
    Scaled(0.0, r, all as real);
    Scaled(r, 1.0, all as real);
    Scaled(1.0, r, all as real);
  }

  /** The labels exchanged. */
  function Flipped(y: seq<bool>): (r: seq<bool>)
    ensures |r| == |y| && forall i | 0 <= i < |y| :: r[i] == !y[i]
  {
    seq(|y|, i requires 0 <= i < |y| => !y[i])
  }

  ghost function Swapped(p: set<(int, int)>): set<(int, int)> { set q | q in p :: (q.1, q.0) }

  lemma {:induction false} SwappedSize(p: set<(int, int)>)
    ensures |Swapped(p)| == |p|
    decreases |p|
  {
    if p != {} {
      var q :| q in p;
      SwappedSize(p - {q});
      assert Swapped(p) == Swapped(p - {q}) + {(q.1, q.0)};
      assert (q.1, q.0) !in Swapped(p - {q});
    } else {
      assert Swapped(p) == {};
    }
  }

  /** Exchanging the labels gives what is missing to 1. */
  lemma LabelsExchanged(y: seq<bool>, s: seq<real>)
    requires |y| == |s|
    ensures PairwiseAuc(Flipped(y), s) == 1.0 - PairwiseAuc(y, s)
  {
    hide PairwiseAuc, Pairs, Won, Drawn, Swapped, Flipped, Share;
    FlippedPairs(y, s);
    SwappedSize(Pairs(y));
    SwappedSize(Lost(y, s));
    SwappedSize(Drawn(y, s));
    SharedAuc(y, s);
    SharedAuc(Flipped(y), s);
    WonDrawnLost(y, s);
    if |Pairs(y)| > 0 {
      RestOf(PairwiseAuc(y, s), PairwiseAuc(Flipped(y), s), |Won(y, s)|, |Drawn(y, s)|, |Lost(y, s)|, |Pairs(y)|);
    }
  }

  predicate Share(r: real, won: nat, drawn: nat, all: nat) {
    r * all as real == won as real + drawn as real / 2.0
  }

  lemma SharedAuc(y: seq<bool>, s: seq<real>)
    requires |y| == |s|
    ensures if |Pairs(y)| == 0 then PairwiseAuc(y, s) == 0.5
            else Share(PairwiseAuc(y, s), |Won(y, s)|, |Drawn(y, s)|, |Pairs(y)|)
  {
    hide PairwiseAuc, Won, Drawn, Pairs;
    AucIsCount(y, s);
    assert Pairs(y) == {} <==> |Pairs(y)| == 0;
  }

  ghost function Lost(y: seq<bool>, s: seq<real>): set<(int, int)>
    requires |y| == |s|
  {
    Pairs(y) - Won(y, s) - Drawn(y, s)
  }

  lemma WonDrawnLost(y: seq<bool>, s: seq<real>)
    requires |y| == |s|
    ensures |Pairs(y)| == |Won(y, s)| + |Drawn(y, s)| + |Lost(y, s)|
  {
    assert Won(y, s) !! Drawn(y, s) && Won(y, s) + Drawn(y, s) <= Pairs(y);
    assert Won(y, s) + Drawn(y, s) + Lost(y, s) == Pairs(y);
  }

  lemma FlippedPairs(y: seq<bool>, s: seq<real>)
    requires |y| == |s|
    ensures Pairs(Flipped(y)) == Swapped(Pairs(y)) && Drawn(Flipped(y), s) == Swapped(Drawn(y, s))
    ensures Won(Flipped(y), s) == Swapped(Lost(y, s))
  {
    var z := Flipped(y);
    forall i, j ensures (i, j) in Pairs(z) <==> (i, j) in Swapped(Pairs(y)) {
      SwappedHas(Pairs(y), i, j);
    }
    forall i, j ensures (i, j) in Drawn(z, s) <==> (i, j) in Swapped(Drawn(y, s)) {
      SwappedHas(Drawn(y, s), i, j);
    }
    forall i, j ensures (i, j) in Won(z, s) <==> (i, j) in Swapped(Lost(y, s)) {
      SwappedHas(Lost(y, s), i, j);
    }
  }

  lemma SwappedHas(p: set<(int, int)>, i: int, j: int)
    ensures (i, j) in Swapped(p) <==> (j, i) in p
  {
    if (j, i) in p { assert ((j, i).1, (j, i).0) in Swapped(p); }
  }

  lemma RestOf(r: real, q: real, won: nat, drawn: nat, lost: nat, all: nat)
    requires all == won + drawn + lost > 0 && Share(r, won, drawn, all) && Share(q, lost, drawn, all)
    ensures q == 1.0 - r
  {
    assert (q + r) * all as real == q * all as real + r * all as real;
    Scaled(q + r, 1.0, all as real);
    Scaled(1.0, q + r, all as real);
  }

  /** `auc`: the sorted, tie-averaged, in-place rank computation returns the pairwise statistic. */
  method Auc(y: seq<bool>, s: seq<real>) returns (r: real)
    requires |y| == |s|
    ensures r == PairwiseAuc(y, s) && 0.0 <= r <= 1.0
    ensures Pairs(y) == {} ==> r == 0.5
    ensures r * |Pairs(y)| as real == |Won(y, s)| as real + |Drawn(y, s)| as real / 2.0 || Pairs(y) == {}
    ensures r == 1.0 <==> Pairs(y) != {} && forall i, j | 0 <= i < |y| && 0 <= j < |y| && y[i] && !y[j] :: s[i] > s[j]
  {
    hide Pairs, Won, Drawn, PairwiseAuc, Class;
    r := RankStatistic(y, s);
    AucIsCount(y, s);
    PerfectScore(y, s);
  }

  /** One half when a class is absent, and otherwise by ranks. */
  method RankStatistic(y: seq<bool>, s: seq<real>) returns (r: real)
    requires |y| == |s|
    ensures r == PairwiseAuc(y, s)
  {
    var pos, neg := Class(y, s, true), Class(y, s, false);
    if |pos| == 0 || |neg| == 0 { return 0.5; }

    var ranks := AveragedRanks(s);
    var rankSum := PositiveRankSum(y, s, ranks);
    RankSumIdentity(y, s);
    r := (rankSum - (|pos| * (|pos| + 1)) as real / 2.0) / ((|pos| * |neg|) as real);
    Cancel(rankSum, |pos| * (|pos| + 1), Wins(pos, neg), Ties(pos, neg));
  }

  lemma Cancel(rankSum: real, least: int, wins: int, ties: int)
    requires 2.0 * rankSum == (least + 2 * wins + ties) as real
    ensures rankSum - least as real / 2.0 == wins as real + ties as real / 2.0
  {}

  /** The ranks array after the tie loop. */
  method AveragedRanks(s: seq<real>) returns (ranks: array<real>)
    ensures fresh(ranks) && ranks.Length == |s|
    ensures forall i | 0 <= i < |s| :: ranks[i] == TwiceRank(s, s[i]) as real / 2.0
  {
    hide TwiceRank;
    var order := ArgSort(s, RealLe);
    ScoreOrder(s);
    ghost var raw;
    ranks, raw := RankByPosition(s, order);
    var values := Distinct(Pick(s, order));
    for k := 0 to |values|
      invariant forall i | 0 <= i < |s| ::
                  ranks[i] == if s[i] in values[..k] then TwiceRank(s, s[i]) as real / 2.0 else raw[i] as real
    {
      DistinctStep(values, k);
      AverageTies(ranks, s, values[k], order, raw);
    }
    EveryScoreSeen(s, order);
    assert values[..|values|] == values;
  }

  /** `np.argsort(y_score, kind="mergesort")` */
  lemma ScoreOrder(s: seq<real>)
    ensures IsPermutation(ArgSort(s, RealLe), |s|)
    ensures var order := ArgSort(s, RealLe); forall p, q | 0 <= p < q < |order| :: s[order[p]] <= s[order[q]]
  {
    ArgSortSpec(s, RealLe);
  }

  lemma DistinctStep(values: seq<real>, k: nat)
    requires k < |values| && forall i, j | 0 <= i < j < |values| :: values[i] != values[j]
    ensures values[k] !in values[..k]
    ensures forall x :: x in values[..k + 1] <==> x in values[..k] || x == values[k]
  {
    assert values[..k + 1] == values[..k] + [values[k]];
  }

  lemma EveryScoreSeen(s: seq<real>, order: seq<nat>)
    requires IsPermutation(order, |s|)
    ensures forall i | 0 <= i < |s| :: s[i] in Distinct(Pick(s, order))
  {
    forall i | 0 <= i < |s| ensures s[i] in Pick(s, order) {
      Pigeonhole(order, |s|, i);
      var p :| 0 <= p < |order| && order[p] == i;
      assert Pick(s, order)[p] == s[i];
    }
  }

  /** `ranks[order] = np.arange(1, n + 1)` */
  method RankByPosition(s: seq<real>, order: seq<nat>) returns (ranks: array<real>, ghost raw: seq<int>)
    requires IsPermutation(order, |s|)
    ensures fresh(ranks) && ranks.Length == |s| && RawRanks(order, raw)
    ensures forall i | 0 <= i < |s| :: ranks[i] == raw[i] as real
  {
    ranks := new real[|s|](i => 0.0);
    raw := seq(|s|, i => 0);
    for p := 0 to |order|
      invariant |raw| == |s| && forall q | 0 <= q < p :: raw[order[q]] == q + 1
      invariant forall i | 0 <= i < |s| :: ranks[i] == raw[i] as real
    {
      ranks[order[p]] := (p + 1) as real;
      raw := raw[order[p] := p + 1];
    }
  }

  method PositiveRankSum(y: seq<bool>, s: seq<real>, ranks: array<real>) returns (rankSum: real)
    requires |y| == |s| == ranks.Length
    requires forall i | 0 <= i < |s| :: ranks[i] == TwiceRank(s, s[i]) as real / 2.0
    ensures 2.0 * rankSum == TwicePositiveRanks(y, s, |s|) as real
  {
    rankSum := 0.0;
    for i := 0 to |s|
      invariant 2.0 * rankSum == TwicePositiveRanks(y, s, i) as real
    {
      if y[i] { rankSum := rankSum + ranks[i]; }
    }
  }

  // --------------------------------------------------- what the statistic means

  /** 2 * (wins + ties / 2) of each row of one class against a fixed list of the other. */
  function Terms(y: seq<bool>, s: seq<real>, want: bool, v: seq<real>): (r: seq<int>)
    requires |y| == |s|
    ensures |r| == |s|
    ensures forall i | 0 <= i < |s| :: r[i] == if y[i] == want then 2 * CountBelow(v, s[i]) + CountEqual(v, s[i]) else 0
  {
    seq(|s|, i requires 0 <= i < |s| => if y[i] == want then 2 * CountBelow(v, s[i]) + CountEqual(v, s[i]) else 0)
  }

  lemma {:induction false} RivalryIsSum(y: seq<bool>, s: seq<real>, want: bool, v: seq<real>)
    requires |y| == |s|
    ensures Rivalry(Class(y, s, want), v) == Sum(Terms(y, s, want, v))
  {
    if s != [] {
      var m := |s| - 1;
      RivalryIsSum(y[..m], s[..m], want, v);
      assert Terms(y, s, want, v)[..m] == Terms(y[..m], s[..m], want, v);
      var c := Class(y[..m], s[..m], want);
      if y[m] == want { RivalryOneMore(c, s[m], v); } else { assert Class(y, s, want) == c; }
    }
  }

  lemma {:induction false} RivalryOfCounts(a: seq<real>, v: seq<real>, w: seq<real>)
    requires forall x :: CountBelow(v, x) == CountBelow(w, x) && CountEqual(v, x) == CountEqual(w, x)
    ensures Rivalry(a, v) == Rivalry(a, w)
  {
    if a != [] { RivalryOfCounts(a[..|a| - 1], v, w); }
  }

  /** Indicators of one class: all its rows, those below x, and those equal to x. */
  function Marks(y: seq<bool>, s: seq<real>, want: bool, keep: real -> bool): (r: seq<int>)
    requires |y| == |s|
    ensures |r| == |s| && forall i | 0 <= i < |s| :: r[i] == if y[i] == want && keep(s[i]) then 1 else 0
  {
    seq(|s|, i requires 0 <= i < |s| => if y[i] == want && keep(s[i]) then 1 else 0)
  }

  lemma MarksLast(y: seq<bool>, s: seq<real>, want: bool, keep: real -> bool)
    requires |y| == |s| > 0
    ensures var m := |s| - 1;
            Sum(Marks(y, s, want, keep))
            == Sum(Marks(y[..m], s[..m], want, keep)) + (if y[m] == want && keep(s[m]) then 1 else 0)
  {
    var m := |s| - 1;
    assert Marks(y, s, want, keep)[..m] == Marks(y[..m], s[..m], want, keep);
  }

  lemma {:induction false} ClassCounts(y: seq<bool>, s: seq<real>, want: bool, x: real)
    requires |y| == |s|
    ensures |Class(y, s, want)| == Sum(Marks(y, s, want, z => true))
    ensures CountBelow(Class(y, s, want), x) == Sum(Marks(y, s, want, z => z < x))
    ensures CountEqual(Class(y, s, want), x) == Sum(Marks(y, s, want, z => z == x))
  {
    if s != [] {
      var m := |s| - 1;
      ClassCounts(y[..m], s[..m], want, x);
      MarksLast(y, s, want, z => true);
      MarksLast(y, s, want, z => z < x);
      MarksLast(y, s, want, z => z == x);
      hide Sum;
      var c := Class(y[..m], s[..m], want);
      if y[m] == want { CountAppend(c, s[m], x); } else { assert Class(y, s, want) == c; }
    }
  }

  lemma ClassPermuted(y: seq<bool>, s: seq<real>, order: seq<nat>, want: bool, x: real)
    requires |y| == |s| && IsPermutation(order, |s|)
    ensures var c, d := Class(y, s, want), Class(Pick(y, order), Pick(s, order), want);
            |c| == |d| && CountBelow(c, x) == CountBelow(d, x) && CountEqual(c, x) == CountEqual(d, x)
  {
    var yp, sp := Pick(y, order), Pick(s, order);
    ClassCounts(y, s, want, x);
    ClassCounts(yp, sp, want, x);
    MarksPermuted(y, s, order, want, z => true);
    MarksPermuted(y, s, order, want, z => z < x);
    MarksPermuted(y, s, order, want, z => z == x);
  }

  lemma MarksPermuted(y: seq<bool>, s: seq<real>, order: seq<nat>, want: bool, keep: real -> bool)
    requires |y| == |s| && IsPermutation(order, |s|)
    ensures Sum(Marks(Pick(y, order), Pick(s, order), want, keep)) == Sum(Marks(y, s, want, keep))
  {
    SumPermuted(Marks(y, s, want, keep), order);
    assert Pick(Marks(y, s, want, keep), order) == Marks(Pick(y, order), Pick(s, order), want, keep);
  }

  /** The score depends on the rows, not on the order they come in. */
  lemma RowOrderIrrelevant(y: seq<bool>, s: seq<real>, order: seq<nat>)
    requires |y| == |s| && IsPermutation(order, |s|)
    ensures PairwiseAuc(Pick(y, order), Pick(s, order)) == PairwiseAuc(y, s)
  {
    hide Class, Rivalry, Wins, Ties, CountBelow, CountEqual;
    var yp, sp := Pick(y, order), Pick(s, order);
    var pos, neg := Class(y, s, true), Class(y, s, false);
    var posP, negP := Class(yp, sp, true), Class(yp, sp, false);
    ClassPermuted(y, s, order, true, 0.0);
    ClassPermuted(y, s, order, false, 0.0);
    RivalryPermuted(y, s, order);
    RivalryIsWins(pos, neg);
    RivalryIsWins(posP, negP);
    HalfTies(Wins(pos, neg), Ties(pos, neg), Wins(posP, negP), Ties(posP, negP));
  }

  lemma RivalryPermuted(y: seq<bool>, s: seq<real>, order: seq<nat>)
    requires |y| == |s| && IsPermutation(order, |s|)
    ensures Rivalry(Class(Pick(y, order), Pick(s, order), true), Class(Pick(y, order), Pick(s, order), false))
         == Rivalry(Class(y, s, true), Class(y, s, false))
  {
    hide Class, Rivalry, CountBelow, CountEqual, Sum;
    var yp, sp := Pick(y, order), Pick(s, order);
    var neg, negP := Class(y, s, false), Class(yp, sp, false);
    forall x ensures CountBelow(neg, x) == CountBelow(negP, x) && CountEqual(neg, x) == CountEqual(negP, x) {
      ClassPermuted(y, s, order, false, x);
    }
    RivalryOfCounts(Class(yp, sp, true), neg, negP);
    RivalryIsSum(y, s, true, neg);
    RivalryIsSum(yp, sp, true, neg);
    SumPermuted(Terms(y, s, true, neg), order);
    assert Pick(Terms(y, s, true, neg), order) == Terms(yp, sp, true, neg);
  }

  lemma HalfTies(w: int, t: int, v: int, u: int)
    requires 2 * w + t == 2 * v + u
    ensures w as real + t as real / 2.0 == v as real + u as real / 2.0
  {}
}
