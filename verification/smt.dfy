/** verify/smt.py: the sparse Merkle tree over 256-bit keys. A key is the decoded
    `subject_ref`, and bit d of the key is its turn at depth d. */
module SparseMerkle {
  import opened Hashing
  import opened Ordering

  const DEPTH: nat := 256

  type Key = Digest

  // ---------------------------------------------------------------- hashing

  function EmptyPreimage(): Bytes {
    // b"\x02unlearnshield-empty"
    [2, 117, 110, 108, 101, 97, 114, 110, 115, 104, 105, 101, 108, 100, 45, 101, 109, 112, 116, 121]
  }

  /** A byte 2, and then the ASCII of a name. */
  lemma EmptyPreimageSpells()
    ensures var name := "unlearnshield-empty";
            |EmptyPreimage()| == 1 + |name| && EmptyPreimage()[0] == 2
            && forall i | 0 <= i < |name| :: EmptyPreimage()[1 + i] == name[i] as int
  {}

  function EmptyLeaf(h: Hash): Digest { h(EmptyPreimage()) }

  /** `DEFAULTS[d]`: the root of a wholly empty subtree at depth d. */
  function Default(h: Hash, d: nat): Digest
    requires d <= DEPTH
    decreases DEPTH - d, h
  {
    if d == DEPTH then EmptyLeaf(h) else var below := Default(h, d + 1); Node(h, below, below)
  }

  /** `_default_hashes`: the table filled from the leaves upwards. */
  method DefaultHashes(h: Hash) returns (out: array<Bytes>)
    ensures fresh(out) && out.Length == DEPTH + 1
    ensures forall d {:trigger out[d]} | 0 <= d <= DEPTH :: out[d] == Default(h, d)
  {
    out := new Bytes[DEPTH + 1](i => []);
    out[DEPTH] := EmptyLeaf(h);
    var d := DEPTH;
    while d > 0
      invariant 0 <= d <= DEPTH
      invariant forall e {:trigger out[e]} | d <= e <= DEPTH :: out[e] == Default(h, e)
    {
      d := d - 1;
      out[d] := Node(h, out[d + 1], out[d + 1]);
    }
  }

  // ------------------------------------------------------------------- bits

  function Pow2To7(k: nat): (p: nat)
    requires k < 8
    ensures p > 0
  {
    if k == 0 then 1 else if k == 1 then 2 else if k == 2 then 4 else if k == 3 then 8
    else if k == 4 then 16 else if k == 5 then 32 else if k == 6 then 64 else 128
  }

  /** `_bit`: most significant bit of the first byte first. */
  function Bit(key: Key, depth: nat): (b: int)
    requires depth < DEPTH
    ensures b == 0 || b == 1
  {
    (key[depth / 8] / Pow2To7(7 - depth % 8)) % 2
  }

  predicate SamePrefix(a: Key, b: Key, d: nat)
    requires d <= DEPTH
  {
    forall i | 0 <= i < d :: Bit(a, i) == Bit(b, i)
  }

  lemma ByteBits(x: Byte)
    ensures x == x % 2 + 2 * ((x / 2) % 2) + 4 * ((x / 4) % 2) + 8 * ((x / 8) % 2)
                 + 16 * ((x / 16) % 2) + 32 * ((x / 32) % 2) + 64 * ((x / 64) % 2) + 128 * ((x / 128) % 2)
  {
    assert x / 4 == (x / 2) / 2 && x / 8 == (x / 4) / 2 && x / 16 == (x / 8) / 2;
    assert x / 32 == (x / 16) / 2 && x / 64 == (x / 32) / 2 && x / 128 == (x / 64) / 2;
  }

  lemma ByteFromBits(x: Byte, y: Byte)
    requires forall k | 0 <= k < 8 :: (x / Pow2To7(k)) % 2 == (y / Pow2To7(k)) % 2
    ensures x == y
  {
    assert (x / Pow2To7(0)) % 2 == (y / Pow2To7(0)) % 2;
    assert (x / Pow2To7(1)) % 2 == (y / Pow2To7(1)) % 2;
    assert (x / Pow2To7(2)) % 2 == (y / Pow2To7(2)) % 2;
    assert (x / Pow2To7(3)) % 2 == (y / Pow2To7(3)) % 2;
    assert (x / Pow2To7(4)) % 2 == (y / Pow2To7(4)) % 2;
    assert (x / Pow2To7(5)) % 2 == (y / Pow2To7(5)) % 2;
    assert (x / Pow2To7(6)) % 2 == (y / Pow2To7(6)) % 2;
    assert (x / Pow2To7(7)) % 2 == (y / Pow2To7(7)) % 2;
    ByteBits(x);
    ByteBits(y);
  }

  /** The position is the key: two keys that take every turn alike are one key. */
  lemma PathIsKey(a: Key, b: Key)
    requires SamePrefix(a, b, DEPTH)
    ensures a == b
  {
    forall j | 0 <= j < 32 ensures a[j] == b[j] {
      forall k | 0 <= k < 8 ensures (a[j] / Pow2To7(k)) % 2 == (b[j] / Pow2To7(k)) % 2 {
        var i := 8 * j + (7 - k);
        assert i / 8 == j && 7 - i % 8 == k;
        assert Bit(a, i) == Bit(b, i);
      }
      ByteFromBits(a[j], b[j]);
    }
  }

  /** The turn of a byte at bit j, counted from the most significant. */
  function Turn(x: Byte, j: nat): (t: int)
    requires j < 8
    ensures t == 0 || t == 1
  {
    (x / Pow2To7(7 - j)) % 2
  }

  /** A smaller byte takes turn 0 where the two first part. */
  lemma ByteParts(x: Byte, y: Byte) returns (k: nat)
    requires x < y
    ensures k < 8 && (forall j | 0 <= j < k :: Turn(x, j) == Turn(y, j)) && Turn(x, k) == 0 && Turn(y, k) == 1
  {
    hide Turn;
    ByteTurns(x);
    ByteTurns(y);
    if Turn(x, 0) != Turn(y, 0) { return 0; }
    if Turn(x, 1) != Turn(y, 1) { return 1; }
    if Turn(x, 2) != Turn(y, 2) { return 2; }
    if Turn(x, 3) != Turn(y, 3) { return 3; }
    if Turn(x, 4) != Turn(y, 4) { return 4; }
    if Turn(x, 5) != Turn(y, 5) { return 5; }
    if Turn(x, 6) != Turn(y, 6) { return 6; }
    return 7;
  }

  lemma ByteTurns(x: Byte)
    ensures x == 128 * Turn(x, 0) + 64 * Turn(x, 1) + 32 * Turn(x, 2) + 16 * Turn(x, 3)
                 + 8 * Turn(x, 4) + 4 * Turn(x, 5) + 2 * Turn(x, 6) + Turn(x, 7)
  {
    ByteBits(x);
  }

  lemma TurnOfByte(key: Key, i: nat, j: nat)
    requires i < 32 && j < 8
    ensures Bit(key, 8 * i + j) == Turn(key[i], j)
  {
    assert (8 * i + j) / 8 == i && (8 * i + j) % 8 == j;
  }

  /** Keys part at depth d, a to the left. */
  predicate PartsLeft(a: Key, b: Key, d: nat) {
    d < DEPTH && SamePrefix(a, b, d) && Bit(a, d) == 0 && Bit(b, d) == 1
  }

  lemma LessParts(a: Key, b: Key) returns (d: nat)
    requires Less(a, b)
    ensures PartsLeft(a, b, d)
  {
    hide Bit, Turn, Less;
    LessAtFirst(a, b);
    var i :| 0 <= i <= |a| && i < |b| && a[..i] == b[..i] && (i == |a| || a[i] < b[i]);
    var k := ByteParts(a[i], b[i]);
    d := 8 * i + k;
    TurnOfByte(a, i, k);
    TurnOfByte(b, i, k);
    forall e | 0 <= e < d ensures Bit(a, e) == Bit(b, e) {
      var r, j := e / 8, e % 8;
      TurnOfByte(a, r, j);
      TurnOfByte(b, r, j);
      if r < i { assert a[..i][r] == b[..i][r]; }
    }
  }

  /** The tree lists its keys in byte order: the lesser key is the one that turns left, turn 0, where the
      two first part. */
  lemma LessIsLeft(a: Key, b: Key)
    ensures Less(a, b) <==> exists d: nat :: PartsLeft(a, b, d)
  {
    hide Bit, Less;
    LessTotal(a, b);
    if Less(a, b) { var d := LessParts(a, b); }
    if Less(b, a) {
      var e := LessParts(b, a);
      forall d: nat ensures !PartsLeft(a, b, d) { OneWay(a, b, d, e); }
    }
  }

  lemma OneWay(a: Key, b: Key, d: nat, e: nat)
    requires PartsLeft(b, a, e)
    ensures !PartsLeft(a, b, d)
  {
    assert d < e ==> Bit(b, d) == Bit(a, d);
  }

  // ------------------------------------------------- the reference tree

  /** Keys that share their first d bits, so that they fit one subtree at depth d. */
  predicate Cohort(S: set<Key>, d: nat)
    requires d <= DEPTH
  {
    forall a, b | a in S && b in S :: SamePrefix(a, b, d)
  }

  function Half(S: set<Key>, d: nat, b: int): set<Key>
    requires d < DEPTH
  {
    set k | k in S && Bit(k, d) == b
  }

  lemma CohortHalf(S: set<Key>, d: nat, b: int)
    requires d < DEPTH && Cohort(S, d)
    ensures Cohort(Half(S, d, b), d + 1)
  {
    forall x, y | x in Half(S, d, b) && y in Half(S, d, b) ensures SamePrefix(x, y, d + 1) {
      assert SamePrefix(x, y, d);
    }
  }

  /** Splitting a set together with one more key x of its cohort. */
  lemma HalfInsert(S: set<Key>, x: Key, d: nat)
    requires d < DEPTH && Cohort(S + {x}, d) && x !in S
    ensures Half(S + {x}, d, Bit(x, d)) == Half(S, d, Bit(x, d)) + {x}
    ensures Half(S + {x}, d, 1 - Bit(x, d)) == Half(S, d, 1 - Bit(x, d))
    ensures Cohort(Half(S, d, Bit(x, d)) + {x}, d + 1) && x !in Half(S, d, Bit(x, d))
    ensures Cohort(S, d) && Cohort(Half(S, d, Bit(x, d)), d + 1) && Cohort(Half(S, d, 1 - Bit(x, d)), d + 1)
  {
    CohortHalf(S + {x}, d, Bit(x, d));
    CohortHalf(S, d, Bit(x, d));
    CohortHalf(S, d, 1 - Bit(x, d));
  }

  lemma CohortAtLeaf(S: set<Key>, a: Key, b: Key)
    requires Cohort(S, DEPTH) && a in S && b in S
    ensures a == b
  {
    assert SamePrefix(a, b, DEPTH);
    PathIsKey(a, b);
  }

  function Combine(h: Hash, bit: int, same: Bytes, other: Bytes): Digest {
    if bit == 0 then Node(h, same, other) else Node(h, other, same)
  }

  /** What is hashed at a leaf position: its only possible key, or the empty marker. */
  function OccupantPreimage(S: set<Key>): (p: Bytes)
    requires Cohort(S, DEPTH)
    ensures S == {} ==> p == EmptyPreimage()
    ensures forall k | k in S :: p == LeafPreimage(k)
  {
    if S == {} then EmptyPreimage()
    else
      assert forall a, b | a in S && b in S :: a == b by {
        forall a, b | a in S && b in S ensures a == b { CohortAtLeaf(S, a, b); }
      }
      var k :| k in S;
      LeafPreimage(k)
  }

  /** The uncompressed definition: every one of the 2^256 leaves is hashed, occupied or not,
      and nothing is collapsed. This is what a root commits to. */
  function FullRoot(h: Hash, S: set<Key>, d: nat): Digest
    requires d <= DEPTH && Cohort(S, d)
    decreases DEPTH - d, S
  {
    if d == DEPTH then h(OccupantPreimage(S))
    else
      CohortHalf(S, d, 0);
      CohortHalf(S, d, 1);
      Node(h, FullRoot(h, Half(S, d, 0), d + 1), FullRoot(h, Half(S, d, 1), d + 1))
  }

  /** One level of the reference tree, seen along the branch with bit b. */
  lemma FullRootStep(h: Hash, S: set<Key>, d: nat, b: int)
    requires d < DEPTH && Cohort(S, d) && (b == 0 || b == 1)
    ensures Cohort(Half(S, d, b), d + 1) && Cohort(Half(S, d, 1 - b), d + 1)
    ensures FullRoot(h, S, d)
         == Combine(h, b, FullRoot(h, Half(S, d, b), d + 1), FullRoot(h, Half(S, d, 1 - b), d + 1))
  {
    CohortHalf(S, d, 0);
    CohortHalf(S, d, 1);
  }

  lemma FullRootAtLeaf(h: Hash, S: set<Key>, key: Key)
    requires Cohort(S, DEPTH) && key in S
    ensures FullRoot(h, S, DEPTH) == Leaf(h, key)
  {
    assert OccupantPreimage(S) == LeafPreimage(key);
  }

  lemma CohortOfOne(key: Key, d: nat)
    requires d <= DEPTH
    ensures Cohort({key}, d)
  {}

  lemma HalfOfOne(key: Key, d: nat)
    requires d < DEPTH
    ensures Half({key}, d, Bit(key, d)) == {key} && Half({key}, d, 1 - Bit(key, d)) == {}
    ensures Cohort({key}, d)
  {}

  lemma {:induction false} FullRootEmpty(h: Hash, d: nat)
    requires d <= DEPTH
    ensures FullRoot(h, {}, d) == Default(h, d)
    decreases DEPTH - d
  {
    if d < DEPTH {
      FullRootEmpty(h, d + 1);
      assert Half({}, d, 0) == {} && Half({}, d, 1) == {};
    }
  }

  // ------------------------------------------------ collapsed construction

  /** `_singleton_root`: the root of a subtree holding exactly `key`. */
  function SingletonRoot(h: Hash, key: Key, d: nat): Digest
    requires d <= DEPTH
    decreases DEPTH - d, key
  {
    if d == DEPTH then Leaf(h, key)
    else Combine(h, Bit(key, d), SingletonRoot(h, key, d + 1), Default(h, d + 1))
  }

  method ComputeSingletonRoot(h: Hash, defaults: array<Bytes>, key: Key, depth: nat) returns (node: Bytes)
    requires depth <= DEPTH
    requires defaults.Length == DEPTH + 1
    requires forall d {:trigger defaults[d]} | 0 <= d <= DEPTH :: defaults[d] == Default(h, d)
    ensures node == SingletonRoot(h, key, depth)
  {
    node := Leaf(h, key);
    var d := DEPTH;
    while d > depth
      invariant depth <= d <= DEPTH
      invariant node == SingletonRoot(h, key, d)
    {
      d := d - 1;
      var sibling := defaults[d + 1];
      node := if Bit(key, d) == 0 then Node(h, node, sibling) else Node(h, sibling, node);
    }
  }

  /** Collapsing loses nothing: a lone key hashes like the full-depth subtree around it. */
  lemma {:induction false} CollapsedSingleton(h: Hash, key: Key, d: nat)
    requires d <= DEPTH
    ensures Cohort({key}, d)
    ensures SingletonRoot(h, key, d) == FullRoot(h, {key}, d)
    decreases DEPTH - d
  {
    hide FullRoot, Half, Cohort;
    if d == DEPTH {
      CohortOfOne(key, d);
      FullRootAtLeaf(h, {key}, key);
    } else {
      HalfOfOne(key, d);
      CollapsedSingleton(h, key, d + 1);
      FullRootEmpty(h, d + 1);
      FullRootStep(h, {key}, d, Bit(key, d));
    }
  }

  /** A list of distinct keys for one subtree, as `_subtree_root` and `_build` pass down. */
  ghost predicate Bucket(keys: seq<Key>, d: nat)
    requires d <= DEPTH
  {
    Cohort(ToSet(keys), d) && forall i, j | 0 <= i < j < |keys| :: keys[i] != keys[j]
  }

  /** `[k for k in keys if _bit(k, depth) == b]` */
  function FilterBit(keys: seq<Key>, d: nat, b: int): seq<Key>
    requires d < DEPTH
  {
    if keys == [] then []
    else (if Bit(keys[0], d) == b then [keys[0]] else []) + FilterBit(keys[1..], d, b)
  }

  lemma {:induction false} FilterBitSet(keys: seq<Key>, d: nat, b: int)
    requires d < DEPTH
    ensures ToSet(FilterBit(keys, d, b)) == Half(ToSet(keys), d, b)
  {
    if keys != [] {
      FilterBitSet(keys[1..], d, b);
      assert keys == [keys[0]] + keys[1..];
      assert forall k :: k in FilterBit(keys[1..], d, b) <==> k in keys[1..] && Bit(k, d) == b by {
        assert forall k :: k in FilterBit(keys[1..], d, b) <==> k in ToSet(FilterBit(keys[1..], d, b));
      }
    }
  }

  lemma {:induction false} FilterBitDistinct(keys: seq<Key>, d: nat, b: int)
    requires d < DEPTH
    requires forall i, j | 0 <= i < j < |keys| :: keys[i] != keys[j]
    ensures forall i, j | 0 <= i < j < |FilterBit(keys, d, b)| :: FilterBit(keys, d, b)[i] != FilterBit(keys, d, b)[j]
  {
    if keys != [] {
      var rest := FilterBit(keys[1..], d, b);
      FilterBitDistinct(keys[1..], d, b);
      FilterBitSet(keys[1..], d, b);
      forall j | 0 <= j < |rest| ensures rest[j] != keys[0] {
        assert rest[j] in ToSet(rest);
      }
    }
  }

  lemma BucketFilter(keys: seq<Key>, d: nat, b: int)
    requires d < DEPTH && Bucket(keys, d)
    ensures Bucket(FilterBit(keys, d, b), d + 1)
    ensures ToSet(FilterBit(keys, d, b)) == Half(ToSet(keys), d, b)
  {
    FilterBitSet(keys, d, b);
    FilterBitDistinct(keys, d, b);
    CohortHalf(ToSet(keys), d, b);
  }

  lemma BucketAtLeaf(keys: seq<Key>)
    requires Bucket(keys, DEPTH)
    ensures |keys| <= 1
  {
    if |keys| > 1 { CohortAtLeaf(ToSet(keys), keys[0], keys[1]); }
  }

  /** `_subtree_root` */
  function SubtreeRoot(h: Hash, keys: seq<Key>, d: nat): Digest
    requires d <= DEPTH && Bucket(keys, d)
    decreases DEPTH - d, keys
  {
    hide FilterBit, Half, Cohort;
    if keys == [] then Default(h, d)
    else if |keys| == 1 then SingletonRoot(h, keys[0], d)
    else
      assert d < DEPTH by { if d == DEPTH { BucketAtLeaf(keys); } }
      BucketFilter(keys, d, 0);
      BucketFilter(keys, d, 1);
      Node(h, SubtreeRoot(h, FilterBit(keys, d, 0), d + 1), SubtreeRoot(h, FilterBit(keys, d, 1), d + 1))
  }

  lemma {:induction false} SubtreeRootIsFull(h: Hash, keys: seq<Key>, d: nat)
    requires d <= DEPTH && Bucket(keys, d)
    ensures SubtreeRoot(h, keys, d) == FullRoot(h, ToSet(keys), d)
    decreases DEPTH - d
  {
    hide FilterBit, Half, Cohort;
    if keys == [] {
      assert ToSet(keys) == {};
      FullRootEmpty(h, d);
    } else if |keys| == 1 {
      assert ToSet(keys) == {keys[0]};
      CollapsedSingleton(h, keys[0], d);
    } else {
      if d == DEPTH { BucketAtLeaf(keys); }
      BucketFilter(keys, d, 0);
      BucketFilter(keys, d, 1);
      SubtreeRootIsFull(h, FilterBit(keys, d, 0), d + 1);
      SubtreeRootIsFull(h, FilterBit(keys, d, 1), d + 1);
    }
  }
}
