/** What the sparse tree guarantees: soundness and completeness of absence proofs,
    binding of roots, and canonical proofs whatever the deletion history. */
module SparseTheorems {
  import opened Hashing
  import opened Ordering
  import opened SparseMerkle
  import opened SparseTree
  import opened SparseProof

  function CombinePreimage(bit: int, same: Bytes, other: Bytes): Bytes {
    if bit == 0 then NodePreimage(same, other) else NodePreimage(other, same)
  }

  lemma CombineInjective(bit: int, a: Digest, b: Digest, x: Digest, y: Digest)
    requires CombinePreimage(bit, a, b) == CombinePreimage(bit, x, y)
    ensures a == x && b == y
  {
    if bit == 0 { NodePreimageInjective(a, b, x, y); } else { NodePreimageInjective(b, a, y, x); }
  }

  lemma EmptyIsNoLeaf(key: Key)
    ensures EmptyPreimage() != LeafPreimage(key)
  {
    assert EmptyPreimage()[0] != LeafPreimage(key)[0];
  }

  // -------------------------------------------------------------- soundness

  /** Walks down the path of a member that was "proved" absent, comparing what the verifier
      hashed with what the set hashes, and returns the first pair of preimages that differ. */
  function SoundnessClash(h: Hash, S: set<Key>, target: Key, sib: map<int, Digest>, d: nat): (p: (Bytes, Bytes))
    requires d <= DEPTH && Cohort(S, d) && target in S
    requires Climb(h, target, sib, d) == FullRoot(h, S, d)
    ensures Collides(h, p)
    decreases DEPTH - d, S
  {
    hide FullRoot, Half, Cohort;
    if d == DEPTH then
      FullRootAtLeaf(h, S, target);
      EmptyIsNoLeaf(target);
      (EmptyPreimage(), LeafPreimage(target))
    else
      var b := Bit(target, d);
      FullRootStep(h, S, d, b);
      var same, other := Half(S, d, b), Half(S, d, 1 - b);
      var claimed := CombinePreimage(b, Climb(h, target, sib, d + 1), SiblingAt(h, sib, d));
      var actual := CombinePreimage(b, FullRoot(h, same, d + 1), FullRoot(h, other, d + 1));
      if claimed != actual then (claimed, actual)
      else
        CombineInjective(b, Climb(h, target, sib, d + 1), SiblingAt(h, sib, d),
                         FullRoot(h, same, d + 1), FullRoot(h, other, d + 1));
        SoundnessClash(h, same, target, sib, d + 1)
  }

  /** No proof, honest or forged, shows a member absent, except by colliding the hash on a pair
      of preimages that is computed from the proof and the set. */
  lemma AbsenceSound(h: Hash, refs: seq<Key>, target: Key, proof: Proof)
    requires Accepts(h, target, proof, BuildRoot(h, refs))
    ensures target !in refs
         || (Climb(h, target, MapOf(proof.siblings), 0) == FullRoot(h, ToSet(refs), 0)
             && Collides(h, SoundnessClash(h, ToSet(refs), target, MapOf(proof.siblings), 0)))
  {
    SubtreeRootIsFull(h, AsKeys(refs), 0);
    if target in refs {
      assert target in ToSet(refs);
    }
  }

  // ---------------------------------------------------------------- binding

  /** Two different sets with one root: descend into a half where they still differ. */
  function BindingClash(h: Hash, A: set<Key>, B: set<Key>, d: nat): (p: (Bytes, Bytes))
    requires d <= DEPTH && Cohort(A + B, d) && A != B
    requires Cohort(A, d) && Cohort(B, d) && FullRoot(h, A, d) == FullRoot(h, B, d)
    ensures Collides(h, p)
    decreases DEPTH - d, A
  {
    hide FullRoot, Half, Cohort;
    if d == DEPTH then
      OccupantsDiffer(h, A, B);
      (OccupantPreimage(A), OccupantPreimage(B))
    else
      HalvesDecide(h, A, B, d);
      var p, q := HalvesPreimage(h, A, d), HalvesPreimage(h, B, d);
      if p != q then (p, q)
      else if Half(A, d, 0) != Half(B, d, 0) then BindingClash(h, Half(A, d, 0), Half(B, d, 0), d + 1)
      else BindingClash(h, Half(A, d, 1), Half(B, d, 1), d + 1)
  }

  /** What the reference tree hashes at depth d. */
  function HalvesPreimage(h: Hash, S: set<Key>, d: nat): (p: Bytes)
    requires d < DEPTH && Cohort(S, d)
    ensures h(p) == FullRoot(h, S, d)
  {
    FullRootStep(h, S, d, 0);
    NodePreimage(FullRoot(h, Half(S, d, 0), d + 1), FullRoot(h, Half(S, d, 1), d + 1))
  }

  lemma OccupantsDiffer(h: Hash, A: set<Key>, B: set<Key>)
    requires Cohort(A + B, DEPTH) && A != B && Cohort(A, DEPTH) && Cohort(B, DEPTH)
    ensures OccupantPreimage(A) != OccupantPreimage(B)
    ensures FullRoot(h, A, DEPTH) == h(OccupantPreimage(A)) && FullRoot(h, B, DEPTH) == h(OccupantPreimage(B))
  {
    forall a, b | a in A + B && b in A + B ensures a == b { CohortAtLeaf(A + B, a, b); }
    forall k: Key { EmptyIsNoLeaf(k); }
  }

  lemma HalvesDecide(h: Hash, A: set<Key>, B: set<Key>, d: nat)
    requires d < DEPTH && Cohort(A + B, d) && Cohort(A, d) && Cohort(B, d)
    ensures Half(A, d, 0) == Half(B, d, 0) && Half(A, d, 1) == Half(B, d, 1) ==> A == B
    ensures forall b | b == 0 || b == 1 ::
              Cohort(Half(A, d, b) + Half(B, d, b), d + 1)
              && Cohort(Half(A, d, b), d + 1) && Cohort(Half(B, d, b), d + 1)
    ensures HalvesPreimage(h, A, d) == HalvesPreimage(h, B, d) ==>
              forall b | b == 0 || b == 1 ::
                FullRoot(h, Half(A, d, b), d + 1) == FullRoot(h, Half(B, d, b), d + 1)
  {
    hide FullRoot, Cohort;
    forall b | b == 0 || b == 1
      ensures Cohort(Half(A, d, b) + Half(B, d, b), d + 1) && Cohort(Half(A, d, b), d + 1)
              && Cohort(Half(B, d, b), d + 1)
    {
      CohortHalf(A + B, d, b);
      CohortHalf(A, d, b);
      CohortHalf(B, d, b);
      assert Half(A + B, d, b) == Half(A, d, b) + Half(B, d, b);
    }
    if HalvesPreimage(h, A, d) == HalvesPreimage(h, B, d) {
      NodePreimageInjective(FullRoot(h, Half(A, d, 0), d + 1), FullRoot(h, Half(A, d, 1), d + 1),
                            FullRoot(h, Half(B, d, 0), d + 1), FullRoot(h, Half(B, d, 1), d + 1));
    }
    forall k ensures k in A <==> k in Half(A, d, 0) || k in Half(A, d, 1) {}
    forall k ensures k in B <==> k in Half(B, d, 0) || k in Half(B, d, 1) {}
  }

  /** A root names one set: lists of refs with equal roots hold the same refs, or the hash
      collides on a computed pair. */
  lemma RootBinding(h: Hash, a: seq<Key>, b: seq<Key>)
    requires BuildRoot(h, a) == BuildRoot(h, b)
    ensures ToSet(a) == ToSet(b)
         || (FullRoot(h, ToSet(a), 0) == FullRoot(h, ToSet(b), 0)
             && Collides(h, BindingClash(h, ToSet(a), ToSet(b), 0)))
  {
    SubtreeRootIsFull(h, AsKeys(a), 0);
    SubtreeRootIsFull(h, AsKeys(b), 0);
  }

  // ----------------------------------------------------------- completeness

  /** The climb to depth d reads only the siblings at depth d and below. */
  lemma {:induction false} ClimbLocal(h: Hash, target: Key, m: map<int, Digest>, n: map<int, Digest>, d: nat)
    requires d <= DEPTH
    requires forall e | d <= e < DEPTH :: SiblingAt(h, m, e) == SiblingAt(h, n, e)
    ensures Climb(h, target, m, d) == Climb(h, target, n, d)
    decreases DEPTH - d
  {
    if d < DEPTH { ClimbLocal(h, target, m, n, d + 1); }
  }

  lemma {:induction false} ClimbDefault(h: Hash, target: Key, d: nat)
    requires d <= DEPTH
    ensures Climb(h, target, map[], d) == Default(h, d)
    decreases DEPTH - d
  {
    if d < DEPTH { ClimbDefault(h, target, d + 1); }
  }

  /** Depths of honest siblings lie in [d, DEPTH), so the verifier's table is the list itself. */
  lemma {:induction false} DiffWellFormed(h: Hash, target: Key, key: Key, d: nat)
    requires d <= DEPTH
    ensures WellFormed(DiffSiblings(h, target, key, d))
    ensures forall e :: e in MapOf(DiffSiblings(h, target, key, d)) ==> d <= e
    decreases DEPTH - d
  {
    if d < DEPTH && Bit(target, d) == Bit(key, d) { DiffWellFormed(h, target, key, d + 1); }
  }

  lemma {:induction false} SiblingsWellFormed(h: Hash, t: Tree, target: Key, d: nat)
    requires Fits(t, d)
    ensures WellFormed(Siblings(h, t, target, d))
    ensures forall e :: e in MapOf(Siblings(h, t, target, d)) ==> d <= e
    decreases t
  {
    match t
    case Empty(_) =>
    case Singleton(_, key) => DiffWellFormed(h, target, key, d);
    case Inner(_, _, _) =>
      SiblingsWellFormed(h, Same(t, target, d), target, d + 1);
      var rest := Siblings(h, Same(t, target, d), target, d + 1);
      var other := Other(t, target, d);
      if other.hash != Default(h, d + 1) {
        var all := [(d as int, other.hash)] + rest;
        assert all[0] == (d, other.hash) && all[1..] == rest;
        assert forall i | 0 < i < |all| :: all[i] == rest[i - 1];
        assert Siblings(h, t, target, d) == all;
      } else {
        assert Siblings(h, t, target, d) == rest;
      }
  }

  lemma SingletonParting(h: Hash, target: Key, key: Key, d: nat)
    requires d < DEPTH && Bit(target, d) != Bit(key, d)
    requires WellFormed(DiffSiblings(h, target, key, d))
    ensures Climb(h, target, MapOf(DiffSiblings(h, target, key, d)), d) == SingletonRoot(h, key, d)
  {
    hide SingletonRoot, MapOf, WellFormed, Default;
    var s := DiffSiblings(h, target, key, d);
    var m := MapOf(s);
    MapOfOne(s, d, SingletonRoot(h, key, d + 1));
    ClimbLocal(h, target, m, map[], d + 1);
    ClimbDefault(h, target, d + 1);
    SingletonStep(h, key, d);
  }

  lemma MapOfOne(s: seq<(int, Digest)>, d: nat, x: Digest)
    requires s == [(d, x)] && d < DEPTH
    ensures WellFormed(s) && MapOf(s) == map[d := x]
  {
    assert s[1..] == [];
    assert MapOf(s) == map[s[0].0 := s[0].1] + MapOf(s[1..]);
  }

  lemma SingletonStep(h: Hash, key: Key, d: nat)
    requires d < DEPTH
    ensures SingletonRoot(h, key, d) == Combine(h, Bit(key, d), SingletonRoot(h, key, d + 1), Default(h, d + 1))
  {}

  /** A collapsed singleton answers at the first differing bit and nowhere else. */
  lemma {:induction false} SingletonComplete(h: Hash, target: Key, key: Key, d: nat)
    requires d <= DEPTH && target != key && SamePrefix(target, key, d)
    ensures WellFormed(DiffSiblings(h, target, key, d))
    ensures Climb(h, target, MapOf(DiffSiblings(h, target, key, d)), d) == SingletonRoot(h, key, d)
    decreases DEPTH - d
  {
    DiffWellFormed(h, target, key, d);
    if d == DEPTH {
      PathIsKey(target, key);
    } else if Bit(target, d) != Bit(key, d) {
      SingletonParting(h, target, key, d);
    } else {
      DiffWellFormed(h, target, key, d + 1);
      SingletonComplete(h, target, key, d + 1);
    }
  }

  /** The prover's siblings, climbed by the verifier, give back the root of the subtree. */
  lemma {:induction false} SiblingsComplete(h: Hash, t: Tree, S: set<Key>, target: Key, d: nat)
    requires d <= DEPTH && Rep(h, t, S, d) && Fits(t, d)
    requires target !in S && Cohort(S + {target}, d)
    ensures WellFormed(Siblings(h, t, target, d))
    ensures Climb(h, target, MapOf(Siblings(h, t, target, d)), d) == t.hash
    decreases t
  {
    hide FullRoot, SingletonRoot, Half, Cohort, DiffSiblings, Climb;
    SiblingsWellFormed(h, t, target, d);
    match t
    case Empty(_) => ClimbDefault(h, target, d);
    case Singleton(_, key) =>
      CohortPair(S + {target}, target, key, d);
      SingletonComplete(h, target, key, d);
    case Inner(_, _, _) =>
      var same, other := Same(t, target, d), Other(t, target, d);
      HalfInsert(S, target, d);
      SiblingsComplete(h, same, Half(S, d, Bit(target, d)), target, d + 1);
      SiblingsWellFormed(h, same, target, d + 1);
      ClimbOneMore(h, t, target, d, Siblings(h, same, target, d + 1));
  }

  lemma CohortPair(S: set<Key>, a: Key, b: Key, d: nat)
    requires d <= DEPTH && Cohort(S, d) && a in S && b in S
    ensures SamePrefix(a, b, d)
  {}

  lemma ClimbOneMore(h: Hash, t: Tree, target: Key, d: nat, rest: seq<(int, Digest)>)
    requires Fits(t, d) && t.Inner? && rest == Siblings(h, Same(t, target, d), target, d + 1)
    requires WellFormed(Siblings(h, t, target, d)) && WellFormed(rest)
    requires forall e :: e in MapOf(rest) ==> d + 1 <= e
    ensures Climb(h, target, MapOf(Siblings(h, t, target, d)), d)
         == Combine(h, Bit(target, d), Climb(h, target, MapOf(rest), d + 1), Other(t, target, d).hash)
  {
    var all, other := Siblings(h, t, target, d), Other(t, target, d);
    if other.hash != Default(h, d + 1) {
      assert all[0] == (d, other.hash) && all[1..] == rest;
      assert MapOf(all) == map[d as int := other.hash] + MapOf(rest);
    } else {
      assert all == rest;
    }
    ClimbLocal(h, target, MapOf(all), MapOf(rest), d + 1);
  }

  /** In every valid tree, fresh or deleted from, the proof for an absent key is accepted. */
  lemma AbsenceComplete(h: Hash, t: SparseMerkleTree, target: Key)
    requires t.Valid(h)
    ensures Prove(h, t, target).Ok? <==> target !in t.present
    ensures target !in t.present ==> Accepts(h, target, Prove(h, t, target).value, t.root.hash)
  {
    if target !in t.present {
      SiblingsComplete(h, t.root, t.present, target, 0);
    }
  }

  // ------------------------------------------------------- canonical proofs

  /** The siblings a proof over the set S ought to carry: one for each populated neighbour
      subtree, the root of that subtree, and none for an empty one. */
  function Canonical(h: Hash, S: set<Key>, target: Key, d: nat): seq<(int, Digest)>
    requires d <= DEPTH && Cohort(S, d)
    decreases DEPTH - d, S
  {
    if d == DEPTH then []
    else
      var b := Bit(target, d);
      CohortHalf(S, d, b);
      CohortHalf(S, d, 1 - b);
      var other := Half(S, d, 1 - b);
      (if other != {} then [(d, FullRoot(h, other, d + 1))] else [])
      + Canonical(h, Half(S, d, b), target, d + 1)
  }

  lemma {:induction false} CanonicalEmpty(h: Hash, target: Key, d: nat)
    requires d <= DEPTH
    ensures Canonical(h, {}, target, d) == []
    decreases DEPTH - d
  {
    if d < DEPTH {
      CanonicalEmpty(h, target, d + 1);
      assert Half({}, d, 0) == {} && Half({}, d, 1) == {};
    }
  }

  lemma {:induction false} CanonicalSingleton(h: Hash, target: Key, key: Key, d: nat)
    requires d <= DEPTH && target != key && SamePrefix(target, key, d)
    ensures Cohort({key}, d)
    ensures Canonical(h, {key}, target, d) == DiffSiblings(h, target, key, d)
    decreases DEPTH - d
  {
    hide FullRoot, SingletonRoot, Half, Cohort, Canonical;
    CohortOfOne(key, d);
    if d == DEPTH {
      PathIsKey(target, key);
    } else if Bit(key, d) == Bit(target, d) {
      CanonicalTogether(h, target, key, d);
      CanonicalSingleton(h, target, key, d + 1);
    } else {
      CanonicalParting(h, target, key, d);
    }
  }

  lemma CanonicalTogether(h: Hash, target: Key, key: Key, d: nat)
    requires d < DEPTH && Bit(target, d) == Bit(key, d)
    ensures Cohort({key}, d) && Cohort({key}, d + 1)
    ensures Canonical(h, {key}, target, d) == Canonical(h, {key}, target, d + 1)
  {
    hide FullRoot, SingletonRoot, Half, Cohort;
    CohortOfOne(key, d);
    CohortOfOne(key, d + 1);
    HalfOfOne(key, d);
  }

  lemma CanonicalParting(h: Hash, target: Key, key: Key, d: nat)
    requires d < DEPTH && Bit(target, d) != Bit(key, d) && Cohort({key}, d)
    ensures Canonical(h, {key}, target, d) == [(d, SingletonRoot(h, key, d + 1))]
  {
    hide FullRoot, SingletonRoot, Half, Cohort;
    CollapsedSingleton(h, key, d + 1);
    CanonicalEmpty(h, target, d + 1);
    HalfOfOne(key, d);
  }

  /** A populated subtree that hashes like an empty one. */
  predicate Vanishes(h: Hash, S: set<Key>, d: nat)
    requires d <= DEPTH && Cohort(S, d)
  {
    S != {} && FullRoot(h, S, d) == Default(h, d)
  }

  function VanishClash(h: Hash, S: set<Key>, d: nat): (p: (Bytes, Bytes))
    requires d <= DEPTH && Cohort(S, d) && Vanishes(h, S, d)
    ensures Collides(h, p)
  {
    FullRootEmpty(h, d);
    EmptyCohort(S, d);
    BindingClash(h, S, {}, d)
  }

  /** Looks along the target's path for a neighbour subtree that vanishes: the only way the
      prover's siblings can part from the canonical ones. */
  function CanonAudit(h: Hash, t: Tree, S: set<Key>, target: Key, d: nat): Option<(Bytes, Bytes)>
    requires Fits(t, d) && Cohort(S, d)
    decreases t
  {
    if !t.Inner? then None
    else
      HalfCohorts(S, d);
      var same, other := Half(S, d, Bit(target, d)), Half(S, d, 1 - Bit(target, d));
      if Vanishes(h, other, d + 1) then Some(VanishClash(h, other, d + 1))
      else CanonAudit(h, Same(t, target, d), same, target, d + 1)
  }

  lemma HalfCohorts(S: set<Key>, d: nat)
    requires d < DEPTH && Cohort(S, d)
    ensures Cohort(Half(S, d, 0), d + 1) && Cohort(Half(S, d, 1), d + 1)
  {
    CohortHalf(S, d, 0);
    CohortHalf(S, d, 1);
  }

  /** Any tree for S proves with the canonical siblings, or the audit returns a collision. */
  lemma {:induction false} CanonSound(h: Hash, t: Tree, S: set<Key>, target: Key, d: nat)
    requires d <= DEPTH && Rep(h, t, S, d) && Fits(t, d)
    requires target !in S && Cohort(S + {target}, d) && Cohort(S, d)
    ensures var r := CanonAudit(h, t, S, target, d);
            if r.Some? then Collides(h, r.value) else Siblings(h, t, target, d) == Canonical(h, S, target, d)
    decreases t
  {
    hide FullRoot, Half, Cohort, DiffSiblings, VanishClash, SingletonRoot;
    match t
    case Empty(_) => CanonicalEmpty(h, target, d);
    case Singleton(_, key) =>
      CohortPair(S + {target}, target, key, d);
      CanonicalSingleton(h, target, key, d);
    case Inner(_, _, _) =>
      HalfInsert(S, target, d);
      HalfCohorts(S, d);
      FullRootEmpty(h, d + 1);
      var same, other := Half(S, d, Bit(target, d)), Half(S, d, 1 - Bit(target, d));
      RepRoot(h, Other(t, target, d), other, d + 1);
      if !Vanishes(h, other, d + 1) {
        CanonSound(h, Same(t, target, d), same, target, d + 1);
      }
  }

  lemma EmptyCohort(S: set<Key>, d: nat)
    requires d <= DEPTH && Cohort(S, d)
    ensures S + {} == S && Cohort({}, d)
  {}

  predicate Exposes(h: Hash, r: Option<(Bytes, Bytes)>) {
    r.Some? && Collides(h, r.value)
  }

  /** Two trees for the same refs, whatever was deleted on the way to either, issue the same
      proof for every absent key, or one of them exhibits a collision. */
  lemma ProofsAgree(h: Hash, t: SparseMerkleTree, u: SparseMerkleTree, target: Key)
    requires t.Valid(h) && u.Valid(h) && t.present == u.present && target !in t.present
    ensures t.root.hash == u.root.hash
    ensures Prove(h, t, target) == Prove(h, u, target)
         || Exposes(h, CanonAudit(h, t.root, t.present, target, 0))
         || Exposes(h, CanonAudit(h, u.root, u.present, target, 0))
  {
    hide Canonical, Siblings, CanonAudit;
    RepRoot(h, t.root, t.present, 0);
    RepRoot(h, u.root, u.present, 0);
    CanonSound(h, t.root, t.present, target, 0);
    CanonSound(h, u.root, u.present, target, 0);
  }

  /** Any history of removals against a rebuild over the survivors: same root, and the same proof
      for every absent key unless a collision is exhibited. */
  lemma HistoryRefinesRebuild(h: Hash, t: SparseMerkleTree, batches: seq<seq<Key>>, survivors: seq<Key>, target: Key)
    requires t.Valid(h) && RemoveAll(h, t, batches).Ok?
    requires ToSet(survivors) == RemoveAll(h, t, batches).value.present && target !in survivors
    ensures var u, rebuilt := RemoveAll(h, t, batches).value, NewTree(h, survivors);
            u.Valid(h) && u.root.hash == rebuilt.root.hash == BuildRoot(h, survivors)
            && Prove(h, u, target).Ok? && Accepts(h, target, Prove(h, u, target).value, BuildRoot(h, survivors))
            && (Prove(h, u, target) == Prove(h, rebuilt, target)
                || Exposes(h, CanonAudit(h, u.root, u.present, target, 0))
                || Exposes(h, CanonAudit(h, rebuilt.root, rebuilt.present, target, 0)))
  {
    HistoryRoot(h, t, batches, survivors);
    var u, rebuilt := RemoveAll(h, t, batches).value, NewTree(h, survivors);
    assert target in u.present <==> target in ToSet(survivors);
    ProofsAgree(h, u, rebuilt, target);
    AbsenceComplete(h, u, target);
  }
}
