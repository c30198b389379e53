/** Lexicographic order on byte strings (and on code points), and what Python's
    `sorted({...})` returns: the unique strictly ascending list of a set. */
module Ordering {
  import opened Hashing

  /** Python's `<` on bytes and on str. */
  predicate Less(a: seq<int>, b: seq<int>) {
    b != [] && (a == [] || a[0] < b[0] || (a[0] == b[0] && Less(a[1..], b[1..])))
  }

  /** In other words: after a common prefix `a` ends first, or has the smaller element. */
  lemma {:induction false} LessAtFirst(a: seq<int>, b: seq<int>)
    ensures Less(a, b)
       <==> exists i :: 0 <= i <= |a| && i < |b| && a[..i] == b[..i] && (i == |a| || a[i] < b[i])
  {
    if a != [] && b != [] && a[0] == b[0] {
      var x, y := a[1..], b[1..];
      LessAtFirst(x, y);
      if i :| 0 <= i <= |x| && i < |y| && x[..i] == y[..i] && (i == |x| || x[i] < y[i]) {
        assert a[..i + 1] == [a[0]] + x[..i] == b[..i + 1];
      }
      if i :| 0 <= i <= |a| && i < |b| && a[..i] == b[..i] && (i == |a| || a[i] < b[i]) {
        assert i > 0;
        assert x[..i - 1] == a[..i][1..] && y[..i - 1] == b[..i][1..];
      }
    } else if a != [] && b != [] {
      assert a[..0] == b[..0];
      forall i | 0 < i <= |a| && i < |b| ensures a[..i] != b[..i] { assert a[..i][0] != b[..i][0]; }
    } else if b != [] {
      assert a[..0] == b[..0];
    }
  }

  /** The number a byte string stands for, most significant byte first. */
  function Numeral(b: Bytes): nat {
    if b == [] then 0 else 256 * Numeral(b[..|b| - 1]) + b[|b| - 1]
  }

  /** Among strings of one width the order is that of the numbers they stand for. */
  lemma {:induction false} LessIsNumeric(a: Bytes, b: Bytes)
    requires |a| == |b|
    ensures Less(a, b) <==> Numeral(a) < Numeral(b)
    decreases |a|
  {
    if a == [] {
      assert !Less(a, b);
    } else {
      var n := |a| - 1;
      LessIsNumeric(a[..n], b[..n]);
      LessIsNumeric(b[..n], a[..n]);
      LessTotal(a[..n], b[..n]);
      LessByInit(a, b);
    }
  }

  /** Comparing all but the last elements first. */
  lemma LessByInit(a: seq<int>, b: seq<int>)
    requires |a| == |b| > 0
    ensures var n := |a| - 1; Less(a, b) <==> Less(a[..n], b[..n]) || (a[..n] == b[..n] && a[n] < b[n])
  {
    hide Less;
    var n := |a| - 1;
    var x, y := a[..n], b[..n];
    LessAtFirst(a, b);
    LessAtFirst(x, y);
    forall i | 0 <= i <= n ensures x[..i] == a[..i] && y[..i] == b[..i] {}
    if Less(a, b) {
      var i :| 0 <= i <= |a| && i < |b| && a[..i] == b[..i] && (i == |a| || a[i] < b[i]);
      assert x[..i] == y[..i];
    }
    if Less(x, y) {
      var i :| 0 <= i <= |x| && i < |y| && x[..i] == y[..i] && (i == |x| || x[i] < y[i]);
      assert a[..i] == b[..i];
    }
    if x == y && a[n] < b[n] { assert a[..n] == b[..n]; }
  }

  lemma {:induction false} LessIrreflexive(a: seq<int>)
    ensures !Less(a, a)
  {
    if a != [] { LessIrreflexive(a[1..]); }
  }

  lemma {:induction false} LessTransitive(a: seq<int>, b: seq<int>, c: seq<int>)
    requires Less(a, b) && Less(b, c)
    ensures Less(a, c)
  {
    if a != [] && a[0] == b[0] && b[0] == c[0] { LessTransitive(a[1..], b[1..], c[1..]); }
  }

  lemma {:induction false} LessTotal(a: seq<int>, b: seq<int>)
    ensures Less(a, b) || a == b || Less(b, a)
  {
    if a != [] && b != [] && a[0] == b[0] {
      LessTotal(a[1..], b[1..]);
      assert a == [a[0]] + a[1..] && b == [b[0]] + b[1..];
    }
  }

  ghost predicate Ascending(s: seq<Bytes>) {
    forall i, j | 0 <= i < j < |s| :: Less(s[i], s[j])
  }

  function ToSet<T>(s: seq<T>): set<T> {
    set x | x in s
  }

  /** Inserting into an ascending list, dropping the value if it is there already. */
  function Insert(x: Bytes, s: seq<Bytes>): seq<Bytes> {
    if s == [] then [x]
    else if x == s[0] then s
    else if Less(x, s[0]) then [x] + s
    else [s[0]] + Insert(x, s[1..])
  }

  /** `sorted({...})`: deduplicate and sort. */
  function SortedSet(xs: seq<Bytes>): seq<Bytes> {
    if xs == [] then [] else Insert(xs[0], SortedSet(xs[1..]))
  }

  lemma {:induction false} InsertElements(x: Bytes, s: seq<Bytes>, y: Bytes)
    ensures y in Insert(x, s) <==> y == x || y in s
  {
    if s != [] && x != s[0] && !Less(x, s[0]) {
      InsertElements(x, s[1..], y);
      assert s == [s[0]] + s[1..];
    }
  }

  lemma {:induction false} InsertAscending(x: Bytes, s: seq<Bytes>)
    requires Ascending(s)
    ensures Ascending(Insert(x, s))
  {
    if s == [] || x == s[0] {
    } else if Less(x, s[0]) {
      forall j | 0 <= j < |s| ensures Less(x, s[j]) {
        if j > 0 { LessTransitive(x, s[0], s[j]); }
      }
    } else {
      LessTotal(x, s[0]);
      var rest := s[1..];
      assert forall i, j | 0 <= i < j < |rest| :: rest[i] == s[i + 1] && rest[j] == s[j + 1];
      InsertAscending(x, rest);
      var r := Insert(x, rest);
      forall j | 0 <= j < |r| ensures Less(s[0], r[j]) {
        InsertElements(x, rest, r[j]);
        if r[j] != x {
          var k :| 0 <= k < |rest| && rest[k] == r[j];
          assert Less(s[0], s[k + 1]);
        }
      }
    }
  }

  lemma {:induction false} SortedSetSpec(xs: seq<Bytes>)
    ensures Ascending(SortedSet(xs)) && ToSet(SortedSet(xs)) == ToSet(xs)
  {
    if xs != [] {
      var rest := SortedSet(xs[1..]);
      SortedSetSpec(xs[1..]);
      InsertAscending(xs[0], rest);
      forall y ensures y in SortedSet(xs) <==> y in xs {
        InsertElements(xs[0], rest, y);
        assert y in rest <==> y in ToSet(xs[1..]);
        assert xs == [xs[0]] + xs[1..];
      }
    }
  }

  lemma AscendingDistinct(s: seq<Bytes>, i: nat, j: nat)
    requires Ascending(s) && i < |s| && j < |s| && s[i] == s[j]
    ensures i == j
  {
    LessIrreflexive(s[i]);
  }

  /** The ascending list of a set is unique, so `sorted({...})` depends on the set only. */
  lemma {:induction false} AscendingUnique(a: seq<Bytes>, b: seq<Bytes>)
    requires Ascending(a) && Ascending(b) && ToSet(a) == ToSet(b)
    ensures a == b
  {
    assert a != [] ==> a[0] in ToSet(a);
    assert b != [] ==> b[0] in ToSet(b);
    if a != [] && b != [] {
      FirstIsLeast(a, b);
      FirstIsLeast(b, a);
      if a[0] != b[0] {
        LessTransitive(a[0], b[0], a[0]);
        LessIrreflexive(a[0]);
      }
      TailSet(a);
      TailSet(b);
      AscendingUnique(a[1..], b[1..]);
      assert a == [a[0]] + a[1..] && b == [b[0]] + b[1..];
    }
  }

  lemma FirstIsLeast(a: seq<Bytes>, b: seq<Bytes>)
    requires Ascending(a) && a != [] && b != [] && b[0] in ToSet(a)
    ensures a[0] == b[0] || Less(a[0], b[0])
  {
    var k :| 0 <= k < |a| && a[k] == b[0];
    if k > 0 { assert Less(a[0], a[k]); }
  }

  lemma TailSet(a: seq<Bytes>)
    requires Ascending(a) && a != []
    ensures Ascending(a[1..]) && ToSet(a[1..]) == ToSet(a) - {a[0]}
  {
    var t := a[1..];
    forall i, j | 0 <= i < j < |t| ensures Less(t[i], t[j]) {
      assert t[i] == a[i + 1] && t[j] == a[j + 1];
    }
    forall y ensures y in t <==> y in a && y != a[0] {
      if y in t {
        var k :| 0 <= k < |t| && t[k] == y;
        assert Less(a[0], a[k + 1]);
        LessIrreflexive(y);
      }
      assert a == [a[0]] + t;
    }
  }
}
