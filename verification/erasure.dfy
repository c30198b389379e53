/** What both engines share: shard rows, the routing table, admission of a batch, and the
    certificates built from the shard's sparse Merkle tree. */
module Erasure {
  import opened Hashing
  import opened Ordering
  import opened SparseMerkle
  import opened SparseTree
  import opened SparseProof
  import opened SparseTheorems
  import opened TreeCache

  /** One row of a shard file: the training columns, and whose row it is in which slice. */
  datatype Row = Row(columns: seq<real>, ref: Key, slice: nat)
  type Records = seq<Row>

  /** An entry of routing.json. */
  datatype Route = Route(shard: int, minSlice: nat)
  type Routing = map<Key, Route>

  // ------------------------------------------------------------------- rows

  function RefsOf(rows: Records): (refs: seq<Key>)
    ensures |refs| == |rows| && forall i | 0 <= i < |rows| :: refs[i] == rows[i].ref
  {
    seq(|rows|, i requires 0 <= i < |rows| => rows[i].ref)
  }

  function Present(rows: Records): set<Key> {
    set r | r in rows :: r.ref
  }

  lemma RefsPresent(rows: Records)
    ensures ToSet(RefsOf(rows)) == Present(rows)
  {
    forall k ensures k in ToSet(RefsOf(rows)) <==> k in Present(rows) {
      if k in RefsOf(rows) {
        var i :| 0 <= i < |rows| && RefsOf(rows)[i] == k;
        assert rows[i] in rows;
      }
      if k in Present(rows) {
        var r :| r in rows && r.ref == k;
        var i :| 0 <= i < |rows| && rows[i] == r;
        assert RefsOf(rows)[i] == k;
      }
    }
  }

  /** `{k: v[keep] ...}` with keep = rows not owned by `gone`: dropped, not flagged. */
  function Retain(rows: Records, gone: set<Key>): Records {
    if rows == [] then []
    else (if rows[0].ref in gone then [] else [rows[0]]) + Retain(rows[1..], gone)
  }

  lemma {:induction false} RetainMembers(rows: Records, gone: set<Key>, r: Row)
    ensures r in Retain(rows, gone) <==> r in rows && r.ref !in gone
  {
    if rows != [] {
      RetainMembers(rows[1..], gone, r);
      assert rows == [rows[0]] + rows[1..];
    }
  }

  lemma RetainPresent(rows: Records, gone: set<Key>)
    ensures Present(Retain(rows, gone)) == Present(rows) - gone
  {
    forall r: Row { RetainMembers(rows, gone, r); }
  }

  lemma {:induction false} RetainSize(rows: Records, gone: set<Key>)
    ensures |Retain(rows, gone)| <= |rows|
    ensures |Retain(rows, gone)| == |rows| <==> Present(rows) !! gone
  {
    if rows != [] {
      RetainSize(rows[1..], gone);
      assert rows == [rows[0]] + rows[1..];
      assert Present(rows) == {rows[0].ref} + Present(rows[1..]);
    }
  }

  /** Purging in two steps is purging once. */
  lemma {:induction false} RetainTwice(rows: Records, a: set<Key>, b: set<Key>)
    ensures Retain(Retain(rows, a), b) == Retain(rows, a + b)
  {
    if rows != [] {
      RetainTwice(rows[1..], a, b);
      var rest := Retain(rows[1..], a);
      if rows[0].ref in a { assert Retain(rows, a) == rest; } else { assert ([rows[0]] + rest)[1..] == rest; }
    }
  }

  /** Only which of the subjects present go matters. */
  lemma {:induction false} RetainSame(rows: Records, p: set<Key>, q: set<Key>)
    requires forall k | k in Present(rows) :: k in p <==> k in q
    ensures Retain(rows, p) == Retain(rows, q)
  {
    if rows != [] {
      assert rows == [rows[0]] + rows[1..];
      assert rows[0].ref in Present(rows) && forall k | k in Present(rows[1..]) :: k in Present(rows);
      RetainSame(rows[1..], p, q);
    }
  }

  /** `records["slice_idx"] <= upto`: the rows a slice trains on. */
  function UpTo(rows: Records, upto: int): Records {
    if rows == [] then []
    else (if rows[0].slice <= upto then [rows[0]] else []) + UpTo(rows[1..], upto)
  }

  lemma {:induction false} UpToMembers(rows: Records, upto: int, r: Row)
    ensures r in UpTo(rows, upto) <==> r in rows && r.slice <= upto
  {
    if rows != [] {
      UpToMembers(rows[1..], upto, r);
      assert rows == [rows[0]] + rows[1..];
    }
  }

  /** The last slice trains on every row. */
  lemma {:induction false} UpToLast(rows: Records, upto: int)
    requires forall r | r in rows :: r.slice <= upto
    ensures UpTo(rows, upto) == rows
  {
    if rows != [] {
      assert rows[0] in rows && forall r | r in rows[1..] :: r in rows;
      UpToLast(rows[1..], upto);
    }
  }

  /** Rows of subjects in later slices are invisible to earlier ones. */
  lemma {:induction false} UpToIgnores(rows: Records, gone: set<Key>, upto: int)
    requires forall r | r in rows && r.ref in gone :: r.slice > upto
    ensures UpTo(Retain(rows, gone), upto) == UpTo(rows, upto)
  {
    if rows != [] {
      assert rows[0] in rows && forall r | r in rows[1..] :: r in rows;
      UpToIgnores(rows[1..], gone, upto);
      var rest := Retain(rows[1..], gone);
      if rows[0].ref in gone { assert Retain(rows, gone) == rest; } else { assert ([rows[0]] + rest)[1..] == rest; }
    }
  }

  /** The rows `keep` holds of, at these ascending positions, and no others. */
  ghost predicate SiftedAt(rows: Records, kept: Records, keep: Row -> bool, at: seq<nat>) {
    |at| == |kept|
    && (forall i, j | 0 <= i < j < |at| :: at[i] < at[j])
    && (forall i | 0 <= i < |at| :: at[i] < |rows| && kept[i] == rows[at[i]] && keep(kept[i]))
    && forall k: nat | k < |rows| && keep(rows[k]) :: k in at
  }

  /** A boolean mask: kept in place and order, with every repetition. */
  ghost predicate Sifted(rows: Records, kept: Records, keep: Row -> bool) {
    exists at: seq<nat> :: SiftedAt(rows, kept, keep, at)
  }

  /** Every position one further on. */
  function OneOn(at: seq<nat>): (r: seq<nat>)
    ensures |r| == |at| && forall i | 0 <= i < |at| :: r[i] == at[i] + 1
  {
    seq(|at|, i requires 0 <= i < |at| => at[i] + 1)
  }

  lemma OneOnHas(at: seq<nat>, k: nat)
    requires k in at
    ensures k + 1 in OneOn(at)
  {
    var i :| 0 <= i < |at| && at[i] == k;
    assert OneOn(at)[i] == k + 1;
  }

  lemma SiftedCons(r: Row, rows: Records, kept: Records, keep: Row -> bool)
    requires Sifted(rows, kept, keep)
    ensures Sifted([r] + rows, (if keep(r) then [r] else []) + kept, keep)
  {
    hide SiftedAt;
    var at: seq<nat> :| SiftedAt(rows, kept, keep, at);
    if keep(r) { KeptFirst(r, rows, kept, keep, at); } else { DroppedFirst(r, rows, kept, keep, at); }
    assert [] + kept == kept;
  }

  lemma KeptFirst(r: Row, rows: Records, kept: Records, keep: Row -> bool, at: seq<nat>)
    requires SiftedAt(rows, kept, keep, at) && keep(r)
    ensures SiftedAt([r] + rows, [r] + kept, keep, [0] + OneOn(at))
  {
    hide OneOn;
    var both, all := [r] + rows, [0] + OneOn(at);
    ZeroFirst(at);
    forall i | 0 <= i < |all| ensures all[i] < |both| && ([r] + kept)[i] == both[all[i]] {
      if i > 0 { assert all[i] == at[i - 1] + 1; }
    }
    forall k: nat | k < |both| && keep(both[k]) ensures k in all {
      assert k > 0 ==> both[k] == rows[k - 1] && k - 1 in at;
    }
  }

  lemma ZeroFirst(at: seq<nat>)
    requires forall i, j | 0 <= i < j < |at| :: at[i] < at[j]
    ensures var all := [0] + OneOn(at);
            (forall i, j | 0 <= i < j < |all| :: all[i] < all[j])
            && forall k: nat :: k in all <==> k == 0 || k - 1 in at
  {
    var all := [0] + OneOn(at);
    forall k: nat ensures k in all <==> k == 0 || k - 1 in at {
      if k > 0 && k - 1 in at { OneOnHas(at, k - 1); }
      if k == 0 { assert all[0] == 0; }
    }
  }

  lemma DroppedFirst(r: Row, rows: Records, kept: Records, keep: Row -> bool, at: seq<nat>)
    requires SiftedAt(rows, kept, keep, at) && !keep(r)
    ensures SiftedAt([r] + rows, kept, keep, OneOn(at))
  {
    hide OneOn;
    var both, all := [r] + rows, OneOn(at);
    forall i | 0 <= i < |all| ensures all[i] < |both| && kept[i] == both[all[i]] { assert all[i] == at[i] + 1; }
    forall k: nat | k < |both| && keep(both[k]) ensures k in all {
      assert k > 0 && both[k] == rows[k - 1] && k - 1 in at;
      OneOnHas(at, k - 1);
    }
  }

  lemma NothingSifted(keep: Row -> bool)
    ensures Sifted([], [], keep)
  {
    assert SiftedAt([], [], keep, []);
  }

  function NotOf(gone: set<Key>): Row -> bool { (r: Row) => r.ref !in gone }

  function UpToSlice(upto: int): Row -> bool { (r: Row) => r.slice <= upto }

  /** `{k: v[keep] ...}` is a mask. */
  lemma {:induction false} RetainSifts(rows: Records, gone: set<Key>)
    ensures Sifted(rows, Retain(rows, gone), NotOf(gone))
  {
    hide Sifted;
    if rows == [] {
      NothingSifted(NotOf(gone));
    } else {
      RetainSifts(rows[1..], gone);
      SiftedCons(rows[0], rows[1..], Retain(rows[1..], gone), NotOf(gone));
      assert [rows[0]] + rows[1..] == rows;
    }
  }

  /** So is `np.flatnonzero(records["slice_idx"] <= upto)`. */
  lemma {:induction false} UpToSifts(rows: Records, upto: int)
    ensures Sifted(rows, UpTo(rows, upto), UpToSlice(upto))
  {
    hide Sifted;
    if rows == [] {
      NothingSifted(UpToSlice(upto));
    } else {
      UpToSifts(rows[1..], upto);
      SiftedCons(rows[0], rows[1..], UpTo(rows[1..], upto), UpToSlice(upto));
      assert [rows[0]] + rows[1..] == rows;
    }
  }

  /** What training sees of a row: not whose it is. */
  function Columns(rows: Records): (m: seq<seq<real>>)
    ensures |m| == |rows| && forall i | 0 <= i < |rows| :: m[i] == rows[i].columns
  {
    seq(|rows|, i requires 0 <= i < |rows| => rows[i].columns)
  }

  // --------------------------------------------------------------- admission

  datatype Admission =
    | Admitted(shard: int, minSlice: nat)
    | NoSubjects
    | UnknownRef
    | SpansShards

  function MinSlice(routing: Routing, refs: seq<Key>): (m: nat)
    requires refs != [] && forall k | k in refs :: k in routing
    ensures forall k | k in refs :: m <= routing[k].minSlice
    ensures exists k :: k in refs && m == routing[k].minSlice
  {
    var first := routing[refs[0]].minSlice;
    if |refs| == 1 then first
    else
      assert refs == [refs[0]] + refs[1..];
      assert forall k | k in refs[1..] :: k in refs;
      var rest := MinSlice(routing, refs[1..]);
      if first <= rest then first else rest
  }

  /** The checks both `rebuild_batch_by_ref` functions make before they touch a file. */
  function Admit(routing: Routing, refs: seq<Key>): Admission {
    if refs == [] then NoSubjects
    else if exists k :: k in refs && k !in routing then UnknownRef
    else if exists k :: k in refs && routing[k].shard != routing[refs[0]].shard then SpansShards
    else Admitted(routing[refs[0]].shard, MinSlice(routing, refs))
  }

  predicate NoRepeats<T(==)>(s: seq<T>) {
    forall i, j | 0 <= i < j < |s| :: s[i] != s[j]
  }

  lemma NoRepeatsCons(refs: seq<Key>)
    requires refs != []
    ensures NoRepeats(refs) <==> NoRepeats(refs[1..]) && refs[0] !in refs[1..]
  {
    var rest := refs[1..];
    assert forall i | 0 <= i < |rest| :: rest[i] == refs[i + 1];
    if refs[0] in rest {
      var i :| 0 <= i < |rest| && rest[i] == refs[0];
      assert refs[0] == refs[i + 1];
    } else if NoRepeats(rest) {
      forall i, j | 0 <= i < j < |refs| ensures refs[i] != refs[j] {
        assert refs[j] == rest[j - 1] && rest[j - 1] in rest;
        if i > 0 { assert refs[i] == rest[i - 1]; }
      }
    }
  }

  /** `routing.pop(ref)` for each ref; a repeated ref raises KeyError on its second pop. */
  function PopAll(routing: Routing, refs: seq<Key>): Option<Routing> {
    if refs == [] then Some(routing)
    else if refs[0] !in routing then None
    else PopAll(routing - {refs[0]}, refs[1..])
  }

  lemma {:induction false} PopAllSpec(routing: Routing, refs: seq<Key>)
    requires forall k | k in refs :: k in routing
    ensures PopAll(routing, refs).Some? <==> NoRepeats(refs)
    ensures NoRepeats(refs) ==> PopAll(routing, refs) == Some(routing - ToSet(refs))
    decreases |refs|
  {
    if refs != [] {
      var k, rest := refs[0], refs[1..];
      assert refs == [k] + rest;
      NoRepeatsCons(refs);
      if k in rest {
        PopAllMissing(routing - {k}, rest, k);
      } else {
        PopAllSpec(routing - {k}, rest);
        assert routing - ToSet(refs) == (routing - {k}) - ToSet(rest);
      }
    } else {
      assert routing - ToSet(refs) == routing;
    }
  }

  lemma {:induction false} PopAllMissing(routing: Routing, refs: seq<Key>, k: Key)
    requires k in refs && k !in routing
    ensures PopAll(routing, refs).None?
    decreases |refs|
  {
    if refs[0] in routing {
      assert refs == [refs[0]] + refs[1..];
      PopAllMissing(routing - {refs[0]}, refs[1..], k);
    }
  }

  method AdmitBatch(routing: Routing, refs: seq<Key>) returns (a: Admission)
    ensures a == Admit(routing, refs)
    ensures a.NoSubjects? <==> refs == []
    ensures a.UnknownRef? <==> exists k :: k in refs && k !in routing
    ensures a.Admitted? || a.SpansShards? ==> refs != [] && forall k | k in refs :: k in routing
    ensures a.SpansShards? ==> exists k, l :: k in refs && l in refs && routing[k].shard != routing[l].shard
    ensures a.Admitted? ==>
              (forall k | k in refs :: routing[k].shard == a.shard && a.minSlice <= routing[k].minSlice)
              && exists k :: k in refs && routing[k].minSlice == a.minSlice
  {
    if refs == [] { return NoSubjects; }
    for i := 0 to |refs|
      invariant forall j | 0 <= j < i :: refs[j] in routing
    {
      if refs[i] !in routing { return UnknownRef; }
    }
    for i := 0 to |refs|
      invariant forall j | 0 <= j < i :: routing[refs[j]].shard == routing[refs[0]].shard
    {
      if routing[refs[i]].shard != routing[refs[0]].shard { return SpansShards; }
    }
    return Admitted(routing[refs[0]].shard, MinSlice(routing, refs));
  }

  method PopRoutes(routing: Routing, refs: seq<Key>) returns (r: Option<Routing>)
    ensures r == PopAll(routing, refs)
  {
    var left := routing;
    for i := 0 to |refs|
      invariant PopAll(left, refs[i..]) == PopAll(routing, refs)
    {
      assert refs[i..][0] == refs[i] && refs[i..][1..] == refs[i + 1..];
      if refs[i] !in left { return None; }
      left := left - {refs[i]};
    }
    r := Some(left);
  }

  lemma AdmittedFacts(routing: Routing, refs: seq<Key>)
    requires Admit(routing, refs).Admitted?
    ensures refs != [] && forall k | k in refs :: k in routing
    ensures forall k | k in refs ::
              routing[k].shard == Admit(routing, refs).shard && routing[k].minSlice >= Admit(routing, refs).minSlice
  {}

  // ---------------------------------------------------- routing and the disk

  type Shards = map<int, Records>

  /** Every row on disk is routed, to its own shard and its own slice. */
  ghost predicate Routed(shards: Shards, routing: Routing, numSlices: nat) {
    forall s, r: Row | s in shards && r in shards[s] ::
      r.ref in routing && routing[r.ref] == Route(s, r.slice) && r.slice < numSlices
  }

  /** The rows of a shard whose subjects are routed are routed to it and to their own slices. */
  ghost predicate Matches(rows: Records, s: int, routing: Routing, numSlices: nat) {
    forall r | r in rows && r.ref in routing :: routing[r.ref] == Route(s, r.slice) && r.slice < numSlices
  }

  lemma RoutedMatches(shards: Shards, routing: Routing, numSlices: nat, s: int)
    requires Routed(shards, routing, numSlices) && s in shards
    ensures Matches(shards[s], s, routing, numSlices)
  {}

  /** Every routed subject has rows in its shard. */
  ghost predicate NoStale(shards: Shards, routing: Routing) {
    forall k | k in routing :: routing[k].shard in shards && k in Present(shards[routing[k].shard])
  }

  function Purged(shards: Shards, s: int, refs: seq<Key>): Shards
    requires s in shards
  {
    shards[s := Retain(shards[s], ToSet(refs))]
  }

  /** The batch's minimum slice lies at or before every row it purges. */
  lemma PurgedSlices(rows: Records, routing: Routing, numSlices: nat, refs: seq<Key>)
    requires Admit(routing, refs).Admitted? && Matches(rows, Admit(routing, refs).shard, routing, numSlices)
    ensures var m := Admit(routing, refs).minSlice;
            (forall r: Row | r in rows && r.ref in ToSet(refs) :: r.slice >= m)
            && (|Retain(rows, ToSet(refs))| != |rows| ==> m < numSlices)
  {
    AdmittedFacts(routing, refs);
    RetainSize(rows, ToSet(refs));
    if |Retain(rows, ToSet(refs))| != |rows| {
      var k :| k in Present(rows) && k in ToSet(refs);
      var r :| r in rows && r.ref == k;
      assert k in refs && r.ref in routing;
    }
  }

  /** Purging a batch and popping its routes, or not getting as far as popping, keeps rows routed. */
  lemma RoutedAfter(shards: Shards, routing: Routing, numSlices: nat, refs: seq<Key>, after: Routing)
    requires Routed(shards, routing, numSlices) && Admit(routing, refs).Admitted?
    requires Admit(routing, refs).shard in shards
    requires after == routing || after == routing - ToSet(refs)
    ensures Routed(Purged(shards, Admit(routing, refs).shard, refs), after, numSlices)
  {
    var shard := Admit(routing, refs).shard;
    var purged := Purged(shards, shard, refs);
    AdmittedFacts(routing, refs);
    forall s, r: Row | s in purged && r in purged[s]
      ensures r.ref in after && after[r.ref] == Route(s, r.slice) && r.slice < numSlices
    {
      RetainMembers(shards[shard], ToSet(refs), r);
      assert r in shards[s];
      if r.ref in ToSet(refs) { assert r.ref in refs && s == shard; }
    }
  }

  /** Every subject routed to shard s has rows in it. */
  ghost predicate NoStaleIn(rows: Records, s: int, routing: Routing) {
    forall k | k in routing && routing[k].shard == s :: k in Present(rows)
  }

  /** Popping is what keeps the table free of stale entries: purging alone leaves some. */
  lemma NoStaleInAfter(rows: Records, routing: Routing, refs: seq<Key>)
    requires Admit(routing, refs).Admitted? && NoStaleIn(rows, Admit(routing, refs).shard, routing)
    ensures var s, left := Admit(routing, refs).shard, Retain(rows, ToSet(refs));
            ToSet(refs) <= Present(rows) && |left| != |rows|
            && NoStaleIn(left, s, routing - ToSet(refs)) && !NoStaleIn(left, s, routing)
  {
    AdmittedFacts(routing, refs);
    assert refs[0] in refs && refs[0] in ToSet(refs);
    forall k | k in ToSet(refs) ensures k in Present(rows) { assert k in refs; }
    RetainSize(rows, ToSet(refs));
    RetainPresent(rows, ToSet(refs));
  }

  lemma NoStaleAfter(shards: Shards, routing: Routing, refs: seq<Key>)
    requires NoStale(shards, routing) && Admit(routing, refs).Admitted?
    ensures var s := Admit(routing, refs).shard;
            s in shards && ToSet(refs) <= Present(shards[s])
            && |Retain(shards[s], ToSet(refs))| != |shards[s]|
            && NoStale(Purged(shards, s, refs), routing - ToSet(refs))
            && !NoStale(Purged(shards, s, refs), routing)
  {
    AdmittedFacts(routing, refs);
    assert refs[0] in refs;
    NoStaleInAfter(shards[Admit(routing, refs).shard], routing, refs);
  }

  // ------------------------------------------------------------ certificates

  /** The signed statement, without its constants and timestamps. `resumedFrom` is None for
      a fresh start and otherwise the slice whose state was kept. */
  datatype Manifest = Manifest(ref: Key, shard: int, resumedFrom: Option<int>,
                               datasetRoot: Digest, absenceProof: Proof, resultWeights: Digest)

  /** The tree after the removal and one absence proof per ref; ValueError if `remove` or
      `prove_absence` raises. */
  function Certify(h: Hash, before: SparseMerkleTree, refs: seq<Key>): Result<(SparseMerkleTree, map<Key, Proof>)>
    requires Fits(before.root, 0)
  {
    match Remove(h, before, refs)
    case ValueError => ValueError
    case Ok(tree) =>
      if Fits(tree.root, 0) && forall k | k in refs :: Prove(h, tree, k).Ok? then
        Ok((tree, map k | k in refs :: Prove(h, tree, k).value))
      else ValueError
  }

  /** A certificate is true of the refs left on disk: it names their root, and its proof for its
      own subject is accepted against that root. */
  ghost predicate CertificateTrue(h: Hash, k: Key, root: Digest, proof: Proof, left: seq<Key>) {
    root == BuildRoot(h, left) && k !in left && Accepts(h, k, proof, root)
  }

  /** From a tree that stands for the refs on disk, certifying a batch of them succeeds and every
      certificate is true of what is left. */
  lemma CertifyTrue(h: Hash, before: SparseMerkleTree, rows: Records, refs: seq<Key>)
    requires before.Valid(h) && before.present == Present(rows) && ToSet(refs) <= Present(rows)
    ensures Certify(h, before, refs).Ok?
    ensures var (tree, proofs) := Certify(h, before, refs).value;
            tree.Valid(h) && tree.present == Present(Retain(rows, ToSet(refs)))
            && proofs.Keys == ToSet(refs)
            && forall k | k in refs ::
                 CertificateTrue(h, k, tree.root.hash, proofs[k], RefsOf(Retain(rows, ToSet(refs))))
  {
    RemoveRefines(h, before, refs);
    var tree := Remove(h, before, refs).value;
    var left := RefsOf(Retain(rows, ToSet(refs)));
    RetainPresent(rows, ToSet(refs));
    RefsPresent(Retain(rows, ToSet(refs)));
    RootOfSet(h, tree, left);
    forall k | k in refs
      ensures Prove(h, tree, k).Ok? && CertificateTrue(h, k, tree.root.hash, Prove(h, tree, k).value, left)
    {
      AbsenceComplete(h, tree, k);
      assert k in ToSet(refs) && (k in left <==> k in ToSet(left));
    }
  }

  /** Whatever the tree held, a certified batch leaves a valid tree behind. */
  lemma CertifyValid(h: Hash, before: SparseMerkleTree, refs: seq<Key>)
    requires before.Valid(h) && Certify(h, before, refs).Ok?
    ensures Certify(h, before, refs).value.0.Valid(h)
  {
    RemoveRefines(h, before, refs);
  }

  function Manifests(shard: int, minSlice: nat, root: Digest, weights: Digest, proofs: map<Key, Proof>)
    : map<Key, Manifest>
  {
    map k | k in proofs ::
      Manifest(k, shard, if minSlice > 0 then Some(minSlice - 1) else None, root, proofs[k], weights)
  }

  /** How the part after training ends: certificates issued and routes popped, or an exception,
      which on a repeated ref comes after the cache is written. */
  datatype Conclusion =
    | Issued(entries: Entries, routing: Routing, manifests: map<Key, Manifest>)
    | TreeRaised
    | PopRaised(entries: Entries)

  function Conclude(h: Hash, routing: Routing, entries: Entries, before: SparseMerkleTree, a: Admission,
                    refs: seq<Key>, weights: Digest): Conclusion
    requires Fits(before.root, 0) && a.Admitted?
  {
    match Certify(h, before, refs)
    case ValueError => TreeRaised
    case Ok((tree, proofs)) =>
      var cached := entries[a.shard := tree];
      match PopAll(routing, refs)
      case None => PopRaised(cached)
      case Some(left) => Issued(cached, left, Manifests(a.shard, a.minSlice, tree.root.hash, weights, proofs))
  }

  method ConcludeBatch(cache: Cache, routing: Routing, before: SparseMerkleTree, a: Admission,
                       refs: seq<Key>, weights: Digest) returns (r: Conclusion)
    requires cache.Valid() && before.Valid(cache.h) && a.Admitted?
    modifies cache
    ensures cache.Valid()
    ensures r == Conclude(cache.h, routing, old(cache.entries), before, a, refs, weights)
    ensures cache.entries == if r.TreeRaised? then old(cache.entries) else r.entries
  {
    var certified := Certify(cache.h, before, refs);
    if certified.ValueError? { return TreeRaised; }
    var (tree, proofs) := certified.value;
    CertifyValid(cache.h, before, refs);
    cache.CacheTree(a.shard, tree);
    var manifests := Manifests(a.shard, a.minSlice, tree.root.hash, weights, proofs);
    var left := PopRoutes(routing, refs);
    if left.None? { return PopRaised(cache.entries); }
    r := Issued(cache.entries, left.value, manifests);
  }

  /** Every manifest of a batch is true of the files it leaves behind: it names the root of exactly
      the refs in the shard file, proves its own subject absent from them, and names `weights`. */
  ghost predicate ManifestsTrue(h: Hash, a: Admission, refs: seq<Key>, left: Records, weights: Digest,
                                manifests: map<Key, Manifest>)
  {
    a.Admitted? && manifests.Keys == ToSet(refs)
    && forall k | k in refs ::
         var m := manifests[k];
         m.ref == k && m.shard == a.shard
         && m.resumedFrom == (if a.minSlice > 0 then Some(a.minSlice - 1) else None)
         && CertificateTrue(h, k, m.datasetRoot, m.absenceProof, RefsOf(left))
         && m.resultWeights == weights
  }

  /** The cache was given the tree of the refs left in one shard, and changed nowhere else. */
  ghost predicate Recached(was: Entries, entries: Entries, shard: int, left: Records) {
    entries.Keys == was.Keys + {shard} && entries[shard].present == Present(left)
    && forall s | s in was && s != shard :: entries[s] == was[s]
  }

  lemma ConcludeTrue(h: Hash, routing: Routing, entries: Entries, before: SparseMerkleTree, a: Admission,
                     refs: seq<Key>, weights: Digest, rows: Records)
    requires before.Valid(h) && before.present == Present(rows) && ToSet(refs) <= Present(rows)
    requires a.Admitted? && forall k | k in refs :: k in routing
    ensures var r := Conclude(h, routing, entries, before, a, refs, weights);
            (NoRepeats(refs) ==>
               r.Issued? && r.routing == routing - ToSet(refs)
               && ManifestsTrue(h, a, refs, Retain(rows, ToSet(refs)), weights, r.manifests))
            && (!NoRepeats(refs) ==> r.PopRaised?)
            && Recached(entries, r.entries, a.shard, Retain(rows, ToSet(refs)))
  {
    hide CertificateTrue, PopAll, Certify, Retain;
    CertifyTrue(h, before, rows, refs);
    PopAllSpec(routing, refs);
  }

  /** Whatever the shard, the table or the cache went through before, manifests are issued only when
      they are true: a batch whose tree stands for the rows on disk cannot issue any other. */
  lemma IssuedTrue(h: Hash, routing: Routing, entries: Entries, before: SparseMerkleTree, a: Admission,
                   refs: seq<Key>, weights: Digest, rows: Records)
    requires before.Valid(h) && before.present == Present(rows)
    requires a.Admitted? && forall k | k in refs :: k in routing
    ensures var r := Conclude(h, routing, entries, before, a, refs, weights);
            r.Issued? ==> ManifestsTrue(h, a, refs, Retain(rows, ToSet(refs)), weights, r.manifests)
  {
    hide ManifestsTrue, PopAll, Retain, CertificateTrue;
    RemoveRefines(h, before, refs);
    if Conclude(h, routing, entries, before, a, refs, weights).Issued? {
      ConcludeTrue(h, routing, entries, before, a, refs, weights, rows);
    }
  }

  /** Manifests true of one set of rows are true of another if and only if both hold the same subjects, or
      the hash collides on a computed pair. */
  lemma TrueOfSameSubjects(h: Hash, a: Admission, refs: seq<Key>, left: Records, now: Records, weights: Digest,
                           manifests: map<Key, Manifest>)
    requires refs != [] && ManifestsTrue(h, a, refs, left, weights, manifests)
    ensures Present(now) == Present(left) ==> ManifestsTrue(h, a, refs, now, weights, manifests)
    ensures ManifestsTrue(h, a, refs, now, weights, manifests) ==>
              Present(now) == Present(left)
              || (FullRoot(h, Present(now), 0) == FullRoot(h, Present(left), 0)
                  && Collides(h, BindingClash(h, Present(now), Present(left), 0)))
  {
    hide Accepts, FullRoot, BindingClash, BuildRoot;
    RefsPresent(left);
    RefsPresent(now);
    RootOfSet(h, NewTree(h, RefsOf(left)), RefsOf(left));
    RootOfSet(h, NewTree(h, RefsOf(now)), RefsOf(now));
    if ManifestsTrue(h, a, refs, now, weights, manifests) {
      assert refs[0] in refs;
      RootBinding(h, RefsOf(now), RefsOf(left));
    }
    forall k | k in refs && Present(now) == Present(left) ensures k !in RefsOf(now) {
      assert k !in RefsOf(left) && (k in RefsOf(now) <==> k in ToSet(RefsOf(now)));
      assert k in RefsOf(left) <==> k in ToSet(RefsOf(left));
    }
  }

  /** However it ends, the cache still holds valid trees and routes are popped for the whole batch
      or not at all. */
  lemma ConcludeValid(h: Hash, routing: Routing, entries: Entries, before: SparseMerkleTree, a: Admission,
                      refs: seq<Key>, weights: Digest)
    requires ValidEntries(h, entries) && before.Valid(h) && a.Admitted? && forall k | k in refs :: k in routing
    ensures var r := Conclude(h, routing, entries, before, a, refs, weights);
            (!r.TreeRaised? ==> ValidEntries(h, r.entries))
            && (r.Issued? ==> r.routing == routing - ToSet(refs) && NoRepeats(refs))
  {
    hide PopAll, Certify;
    if Certify(h, before, refs).Ok? { CertifyValid(h, before, refs); }
    PopAllSpec(routing, refs);
  }

  // ------------------------------------------------- outcomes, whole runs

  /** Why a batch raised, and what it returns when it does not. */
  datatype Error = Refused(admission: Admission) | MissingFile | NoRows | MissingCheckpoint
                 | EmptySliceZero | NoFinalSlice | TreeError | RoutingKeyError
  datatype Outcome = Done(manifests: map<Key, Manifest>, rowsPurged: int) | Raised(error: Error)

  /** The end of a batch whose shard and model are written: routing, cache and outcome. */
  function Ended(routing: Routing, entries: Entries, r: Conclusion, purged: int): (Routing, Entries, Outcome) {
    match r
    case TreeRaised => (routing, entries, Raised(TreeError))
    case PopRaised(cached) => (routing, cached, Raised(RoutingKeyError))
    case Issued(cached, left, manifests) => (left, cached, Done(manifests, purged))
  }

  /** The files every worker shares, and each worker process's own tree cache. */
  datatype World<D> = World(disk: D, caches: map<int, Entries>)
  datatype Batch = Batch(worker: int, refs: seq<Key>)

  function CacheOf(caches: map<int, Entries>, worker: int): Entries {
    if worker in caches then caches[worker] else map[]
  }

  ghost predicate ValidCaches(h: Hash, caches: map<int, Entries>) {
    forall worker :: ValidEntries(h, CacheOf(caches, worker))
  }

  lemma CachesAfter(h: Hash, caches: map<int, Entries>, worker: int, cached: Entries)
    requires ValidCaches(h, caches) && ValidEntries(h, cached)
    ensures ValidCaches(h, caches[worker := cached])
  {
    hide ValidEntries;
    var after := caches[worker := cached];
    assert forall x :: CacheOf(after, x) == if x == worker then cached else CacheOf(caches, x);
  }

  /** The cached tree was accepted for other refs than it was built for. */
  predicate Clash(h: Hash, shards: Shards, routing: Routing, entries: Entries, refs: seq<Key>) {
    var a := Admit(routing, refs);
    a.Admitted? && a.shard in shards && Collides(h, FingerprintPair(entries, a.shard, RefsOf(shards[a.shard])))
  }
}
