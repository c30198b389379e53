/** verify/smt.py: absence proofs, their verifier, and what acceptance is worth. */
module SparseProof {
  import opened Hashing
  import opened SparseMerkle
  import opened SparseTree

  /** The proof dict: depth and hash pairs in insertion order. Keys are already parsed to
      integers and values decoded from hex; a repeated depth overrides the earlier one. */
  datatype Proof = Proof(scheme: string, siblings: seq<(int, Bytes)>)

  // ---------------------------------------------------------------- prover

  /** The inner loop on a collapsed singleton: the sibling at the first differing bit. */
  function DiffSiblings(h: Hash, target: Key, key: Key, d: nat): seq<(int, Digest)>
    requires d <= DEPTH
    decreases DEPTH - d, key
  {
    if d == DEPTH then []
    else if Bit(target, d) != Bit(key, d) then [(d, SingletonRoot(h, key, d + 1))]
    else DiffSiblings(h, target, key, d + 1)
  }

  function Same(t: Tree, target: Key, d: nat): Tree
    requires t.Inner? && d < DEPTH
  {
    if Bit(target, d) == 0 then t.left else t.right
  }

  function Other(t: Tree, target: Key, d: nat): Tree
    requires t.Inner? && d < DEPTH
  {
    if Bit(target, d) == 0 then t.right else t.left
  }

  /** Siblings collected from a node at depth d down. */
  function Siblings(h: Hash, t: Tree, target: Key, d: nat): seq<(int, Digest)>
    requires Fits(t, d)
    decreases t
  {
    match t
    case Inner(_, _, _) =>
      var other := Other(t, target, d);
      (if other.hash != Default(h, d + 1) then [(d, other.hash)] else [])
      + Siblings(h, Same(t, target, d), target, d + 1)
    case Empty(_) => []
    case Singleton(_, key) => DiffSiblings(h, target, key, d)
  }

  function Prove(h: Hash, t: SparseMerkleTree, target: Key): Result<Proof>
    requires Fits(t.root, 0)
  {
    if target in t.present then ValueError else Ok(Proof("smt-256", Siblings(h, t.root, target, 0)))
  }

  /** The inner loop of `prove_absence`. */
  method SingletonSiblings(h: Hash, target: Key, key: Key, depth: nat) returns (siblings: seq<(int, Digest)>)
    requires depth <= DEPTH
    ensures siblings == DiffSiblings(h, target, key, depth)
  {
    siblings := [];
    for d := depth to DEPTH
      invariant DiffSiblings(h, target, key, d) == DiffSiblings(h, target, key, depth)
    {
      if Bit(target, d) != Bit(key, d) { return [(d, SingletonRoot(h, key, d + 1))]; }
    }
  }

  /** `SparseMerkleTree.prove_absence` */
  method ProveAbsence(h: Hash, t: SparseMerkleTree, target: Key) returns (r: Result<Proof>)
    requires Fits(t.root, 0)
    ensures r == Prove(h, t, target)
  {
    if target in t.present { return ValueError; }
    var siblings: seq<(int, Digest)> := [];
    var node := t.root;
    var depth := 0;
    while depth < DEPTH && node.Inner?
      invariant depth <= DEPTH && Fits(node, depth)
      invariant siblings + Siblings(h, node, target, depth) == Siblings(h, t.root, target, 0)
    {
      var other := Other(node, target, depth);
      if other.hash != Default(h, depth + 1) { siblings := siblings + [(depth, other.hash)]; }
      node := Same(node, target, depth);
      depth := depth + 1;
    }
    if node.Singleton? {
      var last := SingletonSiblings(h, target, node.key, depth);
      siblings := siblings + last;
    } else {
      assert siblings + [] == siblings;
    }
    r := Ok(Proof("smt-256", siblings));
  }

  // -------------------------------------------------------------- verifier

  predicate WellFormed(raw: seq<(int, Bytes)>) {
    forall i | 0 <= i < |raw| :: 0 <= raw[i].0 < DEPTH && |raw[i].1| == 32
  }

  /** The dict the verifier fills in: a later entry for a depth wins. */
  function MapOf(raw: seq<(int, Bytes)>): map<int, Digest>
    requires WellFormed(raw)
  {
    if raw == [] then map[] else map[raw[0].0 := raw[0].1] + MapOf(raw[1..])
  }

  function SiblingAt(h: Hash, sib: map<int, Digest>, d: nat): Digest
    requires d < DEPTH
  {
    if d in sib then sib[d] else Default(h, d + 1)
  }

  /** The hash the verifier holds on reaching depth d, starting from an empty leaf. */
  function Climb(h: Hash, target: Key, sib: map<int, Digest>, d: nat): Digest
    requires d <= DEPTH
    decreases DEPTH - d, sib
  {
    if d == DEPTH then EmptyLeaf(h)
    else Combine(h, Bit(target, d), Climb(h, target, sib, d + 1), SiblingAt(h, sib, d))
  }

  predicate Accepts(h: Hash, target: Bytes, proof: Proof, root: Bytes) {
    |target| * 8 == DEPTH && proof.scheme == "smt-256" && WellFormed(proof.siblings)
    && Climb(h, target, MapOf(proof.siblings), 0) == root
  }

  /** The parsing half of `verify_absence`. */
  method ParseSiblings(raw: seq<(int, Bytes)>) returns (r: Option<map<int, Digest>>)
    ensures r.Some? <==> WellFormed(raw)
    ensures r.Some? ==> r.value == MapOf(raw)
  {
    var siblings: map<int, Digest> := map[];
    for i := 0 to |raw|
      invariant WellFormed(raw[i..]) <==> WellFormed(raw)
      invariant WellFormed(raw) ==> siblings + MapOf(raw[i..]) == MapOf(raw)
    {
      var (d, value) := raw[i];
      assert raw[i..][0] == raw[i] && raw[i..][1..] == raw[i + 1..];
      if !(0 <= d < DEPTH) || |value| != 32 { return None; }
      ParseStep(raw, i, siblings);
      siblings := siblings + map[d := value];
    }
    assert raw[|raw|..] == [] && siblings + map[] == siblings;
    r := Some(siblings);
  }

  /** `verify_absence` */
  method VerifyAbsence(h: Hash, target: Bytes, proof: Proof, root: Bytes) returns (ok: bool)
    ensures ok == Accepts(h, target, proof, root)
  {
    if |target| * 8 != DEPTH || proof.scheme != "smt-256" { return false; }
    var parsed := ParseSiblings(proof.siblings);
    if parsed.None? { return false; }
    var siblings, key: Key := parsed.value, target;

    var node := EmptyLeaf(h);
    var depth := DEPTH;
    while depth > 0
      invariant 0 <= depth <= DEPTH
      invariant node == Climb(h, key, siblings, depth)
    {
      depth := depth - 1;
      var sibling := if depth in siblings then siblings[depth] else Default(h, depth + 1);
      node := if Bit(key, depth) == 0 then Node(h, node, sibling) else Node(h, sibling, node);
    }
    return node == root;
  }

  lemma ParseStep(raw: seq<(int, Bytes)>, i: nat, siblings: map<int, Digest>)
    requires i < |raw| && WellFormed([raw[i]])
    ensures WellFormed(raw[i + 1..]) ==>
              WellFormed(raw[i..])
              && (siblings + map[raw[i].0 := raw[i].1]) + MapOf(raw[i + 1..]) == siblings + MapOf(raw[i..])
  {
    assert [raw[i]][0] == raw[i];
    assert raw[i..][0] == raw[i] && raw[i..][1..] == raw[i + 1..];
    assert WellFormed(raw[i + 1..]) ==> WellFormed(raw[i..]);
  }
}
