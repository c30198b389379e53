/** A booster is decided by what each slice's trees were boosted on, and some round function tells any two
    such histories apart. */
module Boosting {
  import opened Hashing
  import opened Erasure
  import opened Gbdt

  type Matrices = seq<seq<seq<real>>>
  type Round = (Booster, seq<seq<real>>) -> Bytes

  /** `trees_per_slice` rounds on each of these in turn. */
  function Grow(c: Config, seen: Matrices): (b: Booster)
    ensures |b| == |seen| * c.treesPerSlice
  {
    if seen == [] then []
    else
      var n := |seen| - 1;
      assert n * c.treesPerSlice + c.treesPerSlice == |seen| * c.treesPerSlice;
      Boost(c, Grow(c, seen[..n]), seen[n], c.treesPerSlice)
  }

  /** What the first n slices show of these rows. */
  function Shown(rows: Records, n: nat): (seen: Matrices)
    ensures |seen| == n && forall i | 0 <= i < n :: seen[i] == Matrix(rows, i)
  {
    seq(n, i requires 0 <= i < n => Matrix(rows, i))
  }

  /** What the trees saw once a model that had seen `was` is rolled back to slice m and boosted on. */
  function Resumed(n: nat, was: Matrices, rows: Records, m: nat): (seen: Matrices)
    requires |was| == n
    ensures |seen| == n && forall i | 0 <= i < n :: seen[i] == if i < m then was[i] else Matrix(rows, i)
  {
    seq(n, i requires 0 <= i < n => if i < m then was[i] else Matrix(rows, i))
  }

  lemma {:induction false} StageIsGrown(c: Config, rows: Records, j: nat)
    ensures Stage(c, rows, j) == Grow(c, Shown(rows, j))
  {
    if j > 0 {
      StageIsGrown(c, rows, j - 1);
      assert Shown(rows, j)[..j - 1] == Shown(rows, j - 1);
    }
  }

  /** The clean retrain is what grows from what the rows show. */
  lemma CleanIsGrown(c: Config, rows: Records)
    ensures Clean(c, rows) == Grow(c, Shown(rows, c.numSlices))
  {
    StageTrain(c, rows, 0);
    StageIsGrown(c, rows, c.numSlices);
  }

  lemma LongerIsMore(n: nat, m: nat, t: nat)
    requires n <= m
    ensures n * t <= m * t
  {}

  lemma PrefixOfPrefix(a: Booster, n: nat, m: nat)
    requires m <= n <= |a|
    ensures a[..m] == a[..n][..m]
  {}

  lemma GrowStep(c: Config, seen: Matrices)
    requires seen != []
    ensures var n := |seen| - 1;
            n * c.treesPerSlice <= |seen| * c.treesPerSlice
            && Grow(c, seen)[..n * c.treesPerSlice] == Grow(c, seen[..n])
  {
    LongerIsMore(|seen| - 1, |seen|, c.treesPerSlice);
  }

  lemma {:induction false} GrowPrefix(c: Config, seen: Matrices, m: nat)
    requires m <= |seen|
    ensures m * c.treesPerSlice <= |seen| * c.treesPerSlice
    ensures Grow(c, seen)[..m * c.treesPerSlice] == Grow(c, seen[..m])
    decreases |seen|
  {
    hide Grow;
    if m < |seen| {
      var n := |seen| - 1;
      GrowPrefix(c, seen[..n], m);
      assert seen[..n][..m] == seen[..m];
      GrowStep(c, seen);
      LongerIsMore(m, n, c.treesPerSlice);
      PrefixOfPrefix(Grow(c, seen), n * c.treesPerSlice, m * c.treesPerSlice);
    } else {
      assert seen[..m] == seen;
    }
  }

  lemma {:induction false} TrainGrows(c: Config, rows: Records, seen: Matrices)
    requires |seen| <= c.numSlices
    ensures TrainFrom(c, rows, |seen|, Grow(c, seen)) == Grow(c, seen + Shown(rows, c.numSlices)[|seen|..])
    decreases c.numSlices - |seen|
  {
    var all := Shown(rows, c.numSlices);
    if |seen| == c.numSlices {
      assert seen + all[|seen|..] == seen;
    } else {
      var next := seen + [Matrix(rows, |seen|)];
      assert next[..|seen|] == seen;
      assert seen + all[|seen|..] == next + all[|next|..];
      TrainGrows(c, rows, next);
    }
  }

  /** Rolling back and boosting on, whatever the model had seen before. */
  lemma ResumeGrows(c: Config, was: Matrices, rows: Records, m: nat)
    requires |was| == c.numSlices
    ensures TrainShard(c, rows, m, Rollback(c, Grow(c, was), m))
         == Some(Grow(c, Resumed(c.numSlices, was, rows, m)))
  {
    hide Grow, Boost;
    var n := c.numSlices;
    if m == 0 {
      assert Grow(c, []) == [] by { assert |Grow(c, [])| == 0 * c.treesPerSlice; }
      TrainGrows(c, rows, []);
      assert [] + Shown(rows, n)[0..] == Resumed(n, was, rows, 0);
    } else if m <= n {
      GrowPrefix(c, was, m);
      TrainGrows(c, rows, was[..m]);
      assert was[..m] + Shown(rows, n)[m..] == Resumed(n, was, rows, m);
    } else {
      assert Resumed(n, was, rows, m) == was;
      NothingToTruncate(c, Grow(c, was), m);
    }
  }

  lemma NothingToTruncate(c: Config, b: Booster, m: nat)
    requires |b| == c.numSlices * c.treesPerSlice && m > c.numSlices
    ensures Rollback(c, b, m) == Some(b)
  {
    LongerIsMore(c.numSlices, m, c.treesPerSlice);
    assert b[..|b|] == b;
  }

  // ------------------------------------------------- telling two histories apart

  /** The first tree of slice i. */
  lemma FirstTree(c: Config, seen: Matrices, i: nat)
    requires i < |seen| && c.treesPerSlice > 0
    ensures i * c.treesPerSlice < |seen| * c.treesPerSlice
    ensures Grow(c, seen)[i * c.treesPerSlice] == c.round(Grow(c, seen[..i]), seen[i])
  {
    var t := c.treesPerSlice;
    GrowPrefix(c, seen, i + 1);
    var upto := Grow(c, seen[..i + 1]);
    assert seen[..i + 1][..i] == seen[..i];
    var prev := Grow(c, seen[..i]);
    assert (i + 1) * t == i * t + t;
    FirstRound(c, prev, seen[i], t);
    assert upto == Boost(c, prev, seen[i], t);
    assert Grow(c, seen)[..(i + 1) * t][i * t] == upto[i * t];
  }

  lemma {:induction false} FirstRound(c: Config, b: Booster, m: seq<seq<real>>, n: nat)
    requires n > 0
    ensures Boost(c, b, m, n)[|b|] == c.round(b, m)
  {
    if n > 1 { FirstRound(c, b, m, n - 1); }
  }

  function Under(c: Config, round: Round): Config { c.(round := round) }

  /** Different histories, and a round function whose boosters differ. */
  lemma RoundThatTells(c: Config, xs: Matrices, ys: Matrices) returns (round: Round)
    requires |xs| == |ys| && xs != ys && c.treesPerSlice > 0
    ensures Grow(Under(c, round), xs) != Grow(Under(c, round), ys)
  {
    var i :| 0 <= i < |xs| && xs[i] != ys[i];
    round := (b, m) => if m == xs[i] then [0] else [1];
    FirstTree(Under(c, round), xs, i);
    FirstTree(Under(c, round), ys, i);
  }

  /** Two histories give one booster under every round function if and only if they are the same, or no
      trees are grown at all. */
  lemma SameUnderAll(c: Config, xs: Matrices, ys: Matrices)
    requires |xs| == |ys|
    ensures (forall round: Round :: Grow(Under(c, round), xs) == Grow(Under(c, round), ys))
       <==> xs == ys || c.treesPerSlice == 0
  {
    if xs != ys {
      if c.treesPerSlice > 0 {
        var round := RoundThatTells(c, xs, ys);
      } else {
        forall round: Round ensures Grow(Under(c, round), xs) == Grow(Under(c, round), ys) {
          assert |Grow(Under(c, round), xs)| == |xs| * 0 && |Grow(Under(c, round), ys)| == |ys| * 0;
        }
      }
    }
  }
}
