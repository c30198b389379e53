/** verify/merkle.py: the size commitment, non-inclusion proofs and their verifier. */
module SortedAbsence {
  import opened Hashing
  import opened Ordering
  import opened SortedMerkle

  // ------------------------------------------------------- size commitment

  /** `n.to_bytes(width, "big")`, which overflows unless n < Pow256(width). */
  function BigEndian(n: nat, width: nat): (s: Bytes)
    ensures |s| == width
  {
    if width == 0 then [] else BigEndian(n / 256, width - 1) + [n % 256]
  }

  function Pow256(width: nat): nat {
    if width == 0 then 1 else 256 * Pow256(width - 1)
  }

  lemma {:induction false} BigEndianInjective(m: nat, n: nat, width: nat)
    requires m < Pow256(width) && n < Pow256(width) && BigEndian(m, width) == BigEndian(n, width)
    ensures m == n
  {
    if width > 0 {
      var a, b := BigEndian(m / 256, width - 1), BigEndian(n / 256, width - 1);
      assert BigEndian(m, width)[..width - 1] == a && BigEndian(n, width)[..width - 1] == b;
      assert BigEndian(m, width)[width - 1] == m % 256 && BigEndian(n, width)[width - 1] == n % 256;
      BigEndianInjective(m / 256, n / 256, width - 1);
    }
  }

  const SIZE_WIDTH: nat := 8

  /** The bytes are the number's, most significant first, for every number below 2^64. */
  lemma BigEndianIsNumeral(n: nat)
    requires n < 0x1_0000_0000_0000_0000
    ensures n < Pow256(SIZE_WIDTH) == 0x1_0000_0000_0000_0000
    ensures |BigEndian(n, SIZE_WIDTH)| == 8 && Numeral(BigEndian(n, SIZE_WIDTH)) == n
  {
    SizeLimit();
    NumeralOf(n, SIZE_WIDTH);
  }

  lemma SizeLimit()
    ensures Pow256(SIZE_WIDTH) == 0x1_0000_0000_0000_0000
  {
    assert Pow256(2) == 0x1_0000 && Pow256(4) == 0x1_0000_0000 && Pow256(6) == 0x1_0000_0000_0000;
  }

  lemma {:induction false} NumeralOf(n: nat, width: nat)
    requires n < Pow256(width)
    ensures Numeral(BigEndian(n, width)) == n
  {
    if width > 0 {
      NumeralOf(n / 256, width - 1);
      var b := BigEndian(n, width);
      assert b[..width - 1] == BigEndian(n / 256, width - 1);
    }
  }

  function CommitPreimage(size: nat, root: Digest): Bytes {
    [2] + BigEndian(size, SIZE_WIDTH) + root
  }

  /** `_commit`; None stands for the OverflowError of `to_bytes`. */
  function Commit(h: Hash, size: nat, root: Digest): Option<Digest> {
    if size < Pow256(SIZE_WIDTH) then Some(h(CommitPreimage(size, root))) else None
  }

  /** A byte 2, the size in eight bytes, and the tree hash. */
  lemma CommitPreimageIs(size: nat, root: Digest)
    requires size < 0x1_0000_0000_0000_0000
    ensures var p := CommitPreimage(size, root);
            |p| == 41 && p[0] == 2 && Numeral(p[1..9]) == size && p[9..] == root
  {
    BigEndianIsNumeral(size);
    assert CommitPreimage(size, root)[1..9] == BigEndian(size, SIZE_WIDTH);
  }

  lemma CommitPreimageInjective(m: nat, a: Digest, n: nat, b: Digest)
    requires m < Pow256(SIZE_WIDTH) && n < Pow256(SIZE_WIDTH)
    requires CommitPreimage(m, a) == CommitPreimage(n, b)
    ensures m == n && a == b
  {
    var p, q := CommitPreimage(m, a), CommitPreimage(n, b);
    assert p[1..1 + SIZE_WIDTH] == BigEndian(m, SIZE_WIDTH) && q[1..1 + SIZE_WIDTH] == BigEndian(n, SIZE_WIDTH);
    assert p[1 + SIZE_WIDTH..] == a && q[1 + SIZE_WIDTH..] == b;
    BigEndianInjective(m, n, SIZE_WIDTH);
  }

  /** `build_root` */
  function BuildRoot(h: Hash, refs: seq<Bytes>): Option<Digest> {
    var leaves := SortedSet(refs);
    Commit(h, |leaves|, Mth(h, leaves))
  }

  function EmptyRoot(h: Hash): Digest {
    h(CommitPreimage(0, h([])))
  }

  // --------------------------------------------------------------- proofs

  datatype Entry = Entry(leaf: Bytes, index: int, path: seq<Bytes>)
  datatype Proof = Proof(treeSize: int, predecessor: Option<Entry>, successor: Option<Entry>)
  datatype Result<+T> = Ok(value: T) | ValueError

  /** Where `target` belongs among ascending leaves: how many of them it exceeds. */
  function LowerBound(leaves: seq<Bytes>, target: Bytes): (lo: nat)
    ensures lo <= |leaves|
  {
    if leaves == [] || !Less(leaves[0], target) then 0 else 1 + LowerBound(leaves[1..], target)
  }

  lemma {:induction false} LowerBoundIs(leaves: seq<Bytes>, target: Bytes, lo: nat)
    requires lo <= |leaves|
    requires forall i | 0 <= i < lo :: Less(leaves[i], target)
    requires lo < |leaves| ==> !Less(leaves[lo], target)
    ensures LowerBound(leaves, target) == lo
  {
    if lo > 0 {
      assert forall i | 0 <= i < lo - 1 :: leaves[1..][i] == leaves[i + 1];
      LowerBoundIs(leaves[1..], target, lo - 1);
    }
  }

  function EntryAt(h: Hash, leaves: seq<Bytes>, i: nat): Entry
    requires i < |leaves|
  {
    Entry(leaves[i], i, AuditPath(h, i, leaves))
  }

  function Prove(h: Hash, target: Bytes, refs: seq<Bytes>): Result<Proof> {
    var leaves := SortedSet(refs);
    var lo := LowerBound(leaves, target);
    if lo < |leaves| && leaves[lo] == target then ValueError
    else Ok(Proof(|leaves|,
                  if lo > 0 then Some(EntryAt(h, leaves, lo - 1)) else None,
                  if lo < |leaves| then Some(EntryAt(h, leaves, lo)) else None))
  }

  /** `prove_absence`, with its binary search. */
  method ProveAbsence(h: Hash, target: Bytes, refs: seq<Bytes>) returns (r: Result<Proof>)
    ensures r == Prove(h, target, refs)
  {
    hide SortedSet, AuditPath, Mth, LowerBound, Less;
    SortedSetSpec(refs);
    var leaves := SortedSet(refs);
    var n := |leaves|;
    var lo, hi := 0, n;
    while lo < hi
      invariant 0 <= lo <= hi <= n
      invariant forall i | 0 <= i < lo :: Less(leaves[i], target)
      invariant forall i | hi <= i < n :: !Less(leaves[i], target)
    {
      var mid := (lo + hi) / 2;
      if Less(leaves[mid], target) {
        forall i | lo <= i < mid ensures Less(leaves[i], target) { LessTransitive(leaves[i], leaves[mid], target); }
        lo := mid + 1;
      } else {
        forall i | mid < i < hi ensures !Less(leaves[i], target) {
          if Less(leaves[i], target) { LessTransitive(leaves[mid], leaves[i], target); }
        }
        hi := mid;
      }
    }
    LowerBoundIs(leaves, target, lo);
    if lo < n && leaves[lo] == target { return ValueError; }
    var pred := if lo > 0 then Some(EntryAt(h, leaves, lo - 1)) else None;
    var succ := if lo < n then Some(EntryAt(h, leaves, lo)) else None;
    r := Ok(Proof(n, pred, succ));
  }

  // -------------------------------------------------------------- verifier

  datatype Checked = Passed(leaf: Bytes) | Refused | Raised

  /** The inner function `check` over `verify_audit_path`. */
  function Check(h: Hash, size: nat, root: Bytes, e: Entry): Checked {
    var node := Reconstruct(h, e.leaf, e.index, size, e.path);
    if node.None? then Refused
    else match Commit(h, size, node.value)
      case None => Raised
      case Some(c) => if c == root then Passed(e.leaf) else Refused
  }

  datatype Verdict = Accept | Reject | Overflow

  function Decide(b: bool): Verdict { if b then Accept else Reject }

  /** `verify_absence` on a well-typed proof. */
  function Verify(h: Hash, target: Bytes, proof: Proof, root: Bytes): Verdict {
    var size := proof.treeSize;
    if size < 0 then Reject
    else if size == 0 then
      Decide(proof.predecessor.None? && proof.successor.None? && root == EmptyRoot(h))
    else match (proof.predecessor, proof.successor)
      case (None, None) => Reject
      case (None, Some(succ)) =>
        if succ.index != 0 then Reject
        else (match Check(h, size, root, succ)
          case Passed(leaf) => Decide(Less(target, leaf))
          case Refused => Reject
          case Raised => Overflow)
      case (Some(pred), None) =>
        if pred.index != size - 1 then Reject
        else (match Check(h, size, root, pred)
          case Passed(leaf) => Decide(Less(leaf, target))
          case Refused => Reject
          case Raised => Overflow)
      case (Some(pred), Some(succ)) =>
        if succ.index != pred.index + 1 then Reject
        else (match (Check(h, size, root, pred), Check(h, size, root, succ))
          case (Raised, _) => Overflow
          case (_, Raised) => Overflow
          case (Passed(lo), Passed(hi)) => Decide(Less(lo, target) && Less(target, hi))
          case _ => Reject)
  }

  method CheckEntry(h: Hash, size: nat, root: Bytes, e: Entry) returns (r: Checked)
    ensures r == Check(h, size, root, e)
  {
    var node := ReconstructRoot(h, e.leaf, e.index, size, e.path);
    if node.None? { return Refused; }
    var committed := Commit(h, size, node.value);
    if committed.None? { return Raised; }
    r := if committed.value == root then Passed(e.leaf) else Refused;
  }

  /** `verify_absence`, running the reconstruction loop on each entry it consults. */
  method VerifyAbsence(h: Hash, target: Bytes, proof: Proof, root: Bytes) returns (v: Verdict)
    ensures v == Verify(h, target, proof, root)
  {
    var size, pred, succ := proof.treeSize, proof.predecessor, proof.successor;
    if size < 0 { return Reject; }
    if size == 0 { return Decide(pred.None? && succ.None? && root == EmptyRoot(h)); }
    if pred.None? {
      if succ.None? || succ.value.index != 0 { return Reject; }
      var leaf := CheckEntry(h, size, root, succ.value);
      if leaf.Raised? { return Overflow; }
      return Decide(leaf.Passed? && Less(target, leaf.leaf));
    }
    if succ.None? {
      if pred.value.index != size - 1 { return Reject; }
      var leaf := CheckEntry(h, size, root, pred.value);
      if leaf.Raised? { return Overflow; }
      return Decide(leaf.Passed? && Less(leaf.leaf, target));
    }
    if succ.value.index != pred.value.index + 1 { return Reject; }
    var lo := CheckEntry(h, size, root, pred.value);
    var hi := CheckEntry(h, size, root, succ.value);
    if lo.Raised? || hi.Raised? { return Overflow; }
    v := Decide(lo.Passed? && hi.Passed? && Less(lo.leaf, target) && Less(target, hi.leaf));
  }

  // -------------------------------------------------------------- theorems

  /** Compares one accepted entry with the tree it is claimed for: the committed size and root,
      then the audit path, then the leaf. */
  function EntryAudit(h: Hash, size: nat, e: Entry, leaves: seq<Bytes>): Option<(Bytes, Bytes)> {
    var node := Reconstruct(h, e.leaf, e.index, size, e.path);
    if node.None? then None
    else
      var claimed, actual := CommitPreimage(size, node.value), CommitPreimage(|leaves|, Mth(h, leaves));
      if claimed != actual then Some((claimed, actual))
      else if !(0 <= e.index < |leaves|) then None
      else InclusionAudit(h, e.leaf, e.index, e.path, leaves)
  }

  /** Inclusion is sound: an entry that passes against the root of `leaves` carries the true size,
      the leaf at its index and that leaf's audit path, or a collision. */
  lemma EntrySound(h: Hash, size: nat, e: Entry, leaves: seq<Bytes>)
    requires |leaves| < Pow256(SIZE_WIDTH)
    requires Check(h, size, h(CommitPreimage(|leaves|, Mth(h, leaves))), e).Passed?
    ensures var r := EntryAudit(h, size, e, leaves);
            if r.Some? then Collides(h, r.value)
            else size == |leaves| && 0 <= e.index < |leaves| && e.leaf == leaves[e.index]
                 && e.path == AuditPath(h, e.index, leaves)
  {
    hide Mth, AuditPath, InclusionAudit, CommitPreimage, Pow256, Reconstruct, Check;
    PassedMeans(h, size, h(CommitPreimage(|leaves|, Mth(h, leaves))), e);
    var node := Reconstruct(h, e.leaf, e.index, size, e.path).value;
    var claimed, actual := CommitPreimage(size, node), CommitPreimage(|leaves|, Mth(h, leaves));
    if claimed != actual {
      assert EntryAudit(h, size, e, leaves) == Some((claimed, actual));
    } else {
      CommitPreimageInjective(size, node, |leaves|, Mth(h, leaves));
      ReconstructSound(h, e.leaf, e.index, e.path, leaves);
      assert EntryAudit(h, size, e, leaves) == InclusionAudit(h, e.leaf, e.index, e.path, leaves);
    }
  }

  lemma PassedMeans(h: Hash, size: nat, root: Bytes, e: Entry)
    requires Check(h, size, root, e).Passed?
    ensures var node := Reconstruct(h, e.leaf, e.index, size, e.path);
            node.Some? && size < Pow256(SIZE_WIDTH) && h(CommitPreimage(size, node.value)) == root
  {
    hide Reconstruct, CommitPreimage, Pow256;
  }

  /** And complete. */
  lemma EntryComplete(h: Hash, leaves: seq<Bytes>, i: nat)
    requires i < |leaves| < Pow256(SIZE_WIDTH)
    ensures Check(h, |leaves|, h(CommitPreimage(|leaves|, Mth(h, leaves))), EntryAt(h, leaves, i)) == Passed(leaves[i])
  {
    hide Mth, AuditPath, CommitPreimage, Pow256, Reconstruct;
    ReconstructComplete(h, leaves, i);
  }

  function FirstOf(a: Option<(Bytes, Bytes)>, b: Option<(Bytes, Bytes)>): Option<(Bytes, Bytes)> {
    if a.Some? then a else b
  }

  function OptionalAudit(h: Hash, size: nat, e: Option<Entry>, leaves: seq<Bytes>): Option<(Bytes, Bytes)> {
    match e
    case None => None
    case Some(entry) => EntryAudit(h, size, entry, leaves)
  }

  /** The collision hidden in an accepted proof of a falsehood, if there is one. */
  function AbsenceAudit(h: Hash, proof: Proof, refs: seq<Bytes>): Option<(Bytes, Bytes)> {
    var leaves := SortedSet(refs);
    if proof.treeSize <= 0 then Some((CommitPreimage(0, h([])), CommitPreimage(|leaves|, Mth(h, leaves))))
    else FirstOf(OptionalAudit(h, proof.treeSize, proof.predecessor, leaves),
                 OptionalAudit(h, proof.treeSize, proof.successor, leaves))
  }

  /** Soundness: whatever proof is accepted against the root of a set, the target is not in the set,
      or the audit of the proof exhibits a collision. */
  lemma AbsenceSound(h: Hash, target: Bytes, proof: Proof, refs: seq<Bytes>)
    requires BuildRoot(h, refs).Some?
    requires Verify(h, target, proof, BuildRoot(h, refs).value) == Accept
    ensures target !in refs || (AbsenceAudit(h, proof, refs).Some? && Collides(h, AbsenceAudit(h, proof, refs).value))
  {
    hide SortedSet, CommitPreimage, Pow256, EntryAudit, Mth, Reconstruct;
    var leaves := SortedSet(refs);
    SortedSetSpec(refs);
    assert target in refs <==> target in ToSet(leaves);
    var size := proof.treeSize;
    if target in refs {
      var t :| 0 <= t < |leaves| && leaves[t] == target;
      if size == 0 {
        SizeZeroDiffers(h, leaves);
      } else {
        if proof.predecessor.Some? { EntrySound(h, size, proof.predecessor.value, leaves); }
        if proof.successor.Some? { EntrySound(h, size, proof.successor.value, leaves); }
        if AbsenceAudit(h, proof, refs).None? { Gap(leaves, target, t, proof); }
      }
    }
  }

  lemma SizeZeroDiffers(h: Hash, leaves: seq<Bytes>)
    requires 0 < |leaves| < Pow256(SIZE_WIDTH)
    ensures CommitPreimage(0, h([])) != CommitPreimage(|leaves|, Mth(h, leaves))
  {
    if CommitPreimage(0, h([])) == CommitPreimage(|leaves|, Mth(h, leaves)) {
      CommitPreimageInjective(0, h([]), |leaves|, Mth(h, leaves));
    }
  }

  /** Adjacent leaves around the target leave it no room in an ascending list. */
  ghost predicate Brackets(leaves: seq<Bytes>, target: Bytes, proof: Proof) {
    && (proof.predecessor.Some? ==>
          var e := proof.predecessor.value;
          0 <= e.index < |leaves| && e.leaf == leaves[e.index] && Less(e.leaf, target))
    && (proof.successor.Some? ==>
          var e := proof.successor.value; 0 <= e.index < |leaves| && e.leaf == leaves[e.index] && Less(target, e.leaf))
    && (proof.predecessor.Some? && proof.successor.Some? ==>
          proof.successor.value.index == proof.predecessor.value.index + 1)
    && (proof.predecessor.None? ==> proof.successor.Some? && proof.successor.value.index == 0)
    && (proof.successor.None? ==> proof.predecessor.Some? && proof.predecessor.value.index == |leaves| - 1)
  }

  lemma Gap(leaves: seq<Bytes>, target: Bytes, t: nat, proof: Proof)
    requires Ascending(leaves) && Brackets(leaves, target, proof) && t < |leaves|
    ensures leaves[t] != target
  {
    LessIrreflexive(target);
    if proof.predecessor.Some? && t <= proof.predecessor.value.index {
      var lo := proof.predecessor.value;
      if t < lo.index { LessTransitive(leaves[t], lo.leaf, target); }
    } else {
      var hi := proof.successor.value;
      if hi.index < t { LessTransitive(target, hi.leaf, leaves[t]); }
    }
  }

  /** Completeness: the prover refuses exactly the members, and what it issues for anyone else is
      accepted, before the first leaf, after the last, between two, or over no leaves at all. */
  lemma AbsenceComplete(h: Hash, target: Bytes, refs: seq<Bytes>)
    requires |SortedSet(refs)| < Pow256(SIZE_WIDTH)
    ensures Prove(h, target, refs).ValueError? <==> target in refs
    ensures target !in refs ==>
              Verify(h, target, Prove(h, target, refs).value, BuildRoot(h, refs).value) == Accept
  {
    hide Verify, CommitPreimage, LowerBound, SortedSet, Pow256, Mth, AuditPath;
    var leaves := SortedSet(refs);
    SortedSetSpec(refs);
    assert target in refs <==> target in ToSet(leaves);
    if target in refs {
      var t :| 0 <= t < |leaves| && leaves[t] == target;
      LessIrreflexive(target);
      LowerBoundIs(leaves, target, t);
    } else {
      var lo := LowerBound(leaves, target);
      LowerBoundSplits(leaves, target);
      if lo < |leaves| { LessTotal(target, leaves[lo]); }
      AcceptsAround(h, leaves, target, lo);
    }
  }

  lemma MthOfNone(h: Hash)
    ensures Mth(h, []) == h([])
  {}

  /** The entries around an absent target are accepted, whichever of the two exist. */
  lemma AcceptsAround(h: Hash, leaves: seq<Bytes>, target: Bytes, lo: nat)
    requires lo <= |leaves| < Pow256(SIZE_WIDTH)
    requires forall i | 0 <= i < lo :: Less(leaves[i], target)
    requires lo < |leaves| ==> Less(target, leaves[lo])
    ensures Verify(h, target,
                   Proof(|leaves|, if lo > 0 then Some(EntryAt(h, leaves, lo - 1)) else None,
                         if lo < |leaves| then Some(EntryAt(h, leaves, lo)) else None),
                   h(CommitPreimage(|leaves|, Mth(h, leaves)))) == Accept
  {
    hide Check, Mth, AuditPath, Pow256, BigEndian;
    if leaves == [] { MthOfNone(h); }
    if lo > 0 { EntryComplete(h, leaves, lo - 1); }
    if lo < |leaves| { EntryComplete(h, leaves, lo); }
  }

  lemma {:induction false} LowerBoundSplits(leaves: seq<Bytes>, target: Bytes)
    ensures forall i | 0 <= i < LowerBound(leaves, target) :: Less(leaves[i], target)
    ensures LowerBound(leaves, target) < |leaves| ==> !Less(leaves[LowerBound(leaves, target)], target)
  {
    if leaves != [] && Less(leaves[0], target) {
      var lo := LowerBound(leaves[1..], target);
      LowerBoundSplits(leaves[1..], target);
      forall i | 0 <= i < lo + 1 ensures Less(leaves[i], target) {
        if i > 0 { assert leaves[i] == leaves[1..][i - 1]; }
      }
    }
  }

  // ----------------------------------------------------- when the verifier raises

  /** The entries the verifier gets as far as checking. */
  function Consulted(proof: Proof): seq<Entry> {
    match (proof.predecessor, proof.successor)
    case (None, None) => []
    case (None, Some(succ)) => if succ.index == 0 then [succ] else []
    case (Some(pred), None) => if pred.index == proof.treeSize - 1 then [pred] else []
    case (Some(pred), Some(succ)) => if succ.index == pred.index + 1 then [pred, succ] else []
  }

  /** The entry's index lies in the tree and its path is as long as that position's. */
  predicate Fitting(e: Entry, size: int) {
    0 <= e.index < size && |e.path| == PathLength(e.index, size - 1)
  }

  /** The documented "never raises" fails, and exactly here, whatever the hash, the leaves, the
      target and the root: the claimed size does not fit eight bytes, and some consulted entry's
      path has the length its index has in a tree of that size. */
  lemma RaisesExactlyWhen(h: Hash, target: Bytes, proof: Proof, root: Bytes)
    ensures Verify(h, target, proof, root) == Overflow <==>
              proof.treeSize >= Pow256(SIZE_WIDTH)
              && exists e :: e in Consulted(proof) && Fitting(e, proof.treeSize)
  {
    hide Reconstruct, Pow256, PathLength;
    forall e | proof.predecessor == Some(e) || proof.successor == Some(e)
      ensures Reconstruct(h, e.leaf, e.index, proof.treeSize, e.path).Some? <==> Fitting(e, proof.treeSize)
    {
      ReconstructShape(h, e.leaf, e.index, proof.treeSize, e.path);
    }
    assert Pow256(SIZE_WIDTH) > 0 by { Pow256Positive(SIZE_WIDTH); }
    assert forall e :: e in Consulted(proof) ==> proof.predecessor == Some(e) || proof.successor == Some(e);
  }

  lemma {:induction false} Pow256Positive(w: nat)
    ensures Pow256(w) > 0
  {
    if w > 0 { Pow256Positive(w - 1); }
  }

  /** At the first leaf of a full tree of 2^k leaves, any k siblings fit. */
  lemma {:induction false} LeftmostClimb(h: Hash, node: Digest, k: nat, path: seq<Bytes>)
    requires |path| == k
    ensures Climb(h, node, 0, Shl1(k) - 1, path).Some?
    decreases k
  {
    if k > 0 { LeftmostClimb(h, Node(h, node, path[0]), k - 1, path[1..]); }
  }

  /** A proof that makes the verifier raise, whatever the hash, the target and the root. */
  lemma RaisingProof(h: Hash, target: Bytes, root: Bytes)
    ensures var e := Entry([], 0, seq(64, i => []));
            Verify(h, target, Proof(Shl1(64), None, Some(e)), root) == Overflow
  {
    hide Climb, Verify, Pow256, Shl1;
    var e := Entry([], 0, seq(64, i => []));
    var proof := Proof(Shl1(64), None, Some(e));
    LeftmostClimb(h, Leaf(h, []), 64, e.path);
    ReconstructShape(h, e.leaf, 0, Shl1(64), e.path);
    Shl1Bytes(SIZE_WIDTH);
    assert Consulted(proof) == [e] && e in Consulted(proof);
    RaisesExactlyWhen(h, target, proof, root);
  }

  lemma {:induction false} Shl1Bytes(w: nat)
    ensures Shl1(8 * w) == Pow256(w)
  {
    if w > 0 {
      Shl1Bytes(w - 1);
      var k := 8 * (w - 1);
      assert Shl1(k + 2) == 4 * Shl1(k) && Shl1(k + 4) == 4 * Shl1(k + 2);
      assert Shl1(k + 6) == 4 * Shl1(k + 4) && Shl1(k + 8) == 4 * Shl1(k + 6);
    }
  }

  // ---------------------------------------------------------------- binding

  /** Two leaf lists of one length with one tree hash: the first difference on the way down. */
  function BindingAudit(h: Hash, a: seq<Bytes>, b: seq<Bytes>): Option<(Bytes, Bytes)>
    requires |a| == |b|
    decreases |a|
  {
    if |a| == 0 then None
    else if |a| == 1 then (if a[0] == b[0] then None else Some((LeafPreimage(a[0]), LeafPreimage(b[0]))))
    else
      var k := Split(|a|);
      var p := NodePreimage(Mth(h, a[..k]), Mth(h, a[k..]));
      var q := NodePreimage(Mth(h, b[..k]), Mth(h, b[k..]));
      if p != q then Some((p, q))
      else FirstOf(BindingAudit(h, a[..k], b[..k]), BindingAudit(h, a[k..], b[k..]))
  }

  lemma MthUnfold(h: Hash, a: seq<Bytes>)
    ensures |a| == 1 ==> Mth(h, a) == Leaf(h, a[0])
    ensures |a| > 1 ==> Mth(h, a) == Node(h, Mth(h, a[..Split(|a|)]), Mth(h, a[Split(|a|)..]))
  {}

  lemma {:induction false} MthBinding(h: Hash, a: seq<Bytes>, b: seq<Bytes>)
    requires |a| == |b| && Mth(h, a) == Mth(h, b)
    ensures var r := BindingAudit(h, a, b); if r.Some? then Collides(h, r.value) else a == b
    decreases |a|
  {
    hide Mth, Split;
    MthUnfold(h, a);
    MthUnfold(h, b);
    if |a| == 1 {
      if LeafPreimage(a[0]) == LeafPreimage(b[0]) { LeafPreimageInjective(a[0], b[0]); }
    } else if |a| > 1 {
      var k := Split(|a|);
      var al, ar, bl, br := Mth(h, a[..k]), Mth(h, a[k..]), Mth(h, b[..k]), Mth(h, b[k..]);
      if NodePreimage(al, ar) == NodePreimage(bl, br) {
        NodePreimageInjective(al, ar, bl, br);
        MthBinding(h, a[..k], b[..k]);
        MthBinding(h, a[k..], b[k..]);
        assert a == a[..k] + a[k..] && b == b[..k] + b[k..];
      }
    }
  }

  function RootAudit(h: Hash, a: seq<Bytes>, b: seq<Bytes>): Option<(Bytes, Bytes)> {
    var p, q := CommitPreimage(|a|, Mth(h, a)), CommitPreimage(|b|, Mth(h, b));
    if p != q then Some((p, q)) else if |a| == |b| then BindingAudit(h, a, b) else None
  }

  /** A published root names one set of refs, or the audit returns a collision. */
  lemma RootBinding(h: Hash, x: seq<Bytes>, y: seq<Bytes>)
    requires BuildRoot(h, x).Some? && BuildRoot(h, x) == BuildRoot(h, y)
    ensures var r := RootAudit(h, SortedSet(x), SortedSet(y));
            if r.Some? then Collides(h, r.value) else ToSet(x) == ToSet(y)
  {
    hide Mth, CommitPreimage, BindingAudit, Pow256;
    var a, b := SortedSet(x), SortedSet(y);
    if CommitPreimage(|a|, Mth(h, a)) == CommitPreimage(|b|, Mth(h, b)) {
      CommitPreimageInjective(|a|, Mth(h, a), |b|, Mth(h, b));
      MthBinding(h, a, b);
      SortedSetSpec(x);
      SortedSetSpec(y);
    }
  }
}
