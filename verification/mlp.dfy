/** engine/train.py and engine/rebuild.py: SISA over a network with one checkpoint per slice.
    Fitting the preprocessor and training one slice are uninterpreted functions. A training call
    starts a fresh optimiser and carries it from slice to slice, but a checkpoint holds weights only. */
module Mlp {
  import opened Hashing
  import opened Ordering
  import opened SparseMerkle
  import opened SparseTree
  import opened TreeCache
  import opened Erasure

  type Weights = Bytes
  type Optimiser = Bytes
  type Preprocessor = Bytes

  datatype Config = Config(
    h: Hash,
    numSlices: nat,
    fit: seq<seq<real>> -> Preprocessor,
    init: Weights,
    newOptimiser: Weights -> Optimiser,
    trainSlice: (Weights, Optimiser, Preprocessor, seq<seq<real>>, nat) -> (Weights, Optimiser),
    digest: Weights -> Digest)

  type Checkpoints = map<nat, Weights>

  // --------------------------------------------------------------- training

  /** `records["slice_idx"] == 0`, slice indices being natural. */
  function SliceZero(rows: Records): Records { UpTo(rows, 0) }

  lemma SliceZeroMembers(rows: Records)
    ensures SliceZero(rows) != [] <==> exists r :: r in rows && r.slice == 0
  {
    forall r: Row { UpToMembers(rows, 0, r); }
    if SliceZero(rows) != [] { assert SliceZero(rows)[0] in SliceZero(rows); }
    if r :| r in rows && r.slice == 0 { assert r in SliceZero(rows); }
  }

  function Fit(c: Config, rows: Records): Preprocessor { c.fit(Columns(SliceZero(rows))) }

  /** The checkpoints written by the slice loop of `train_shard` from slice `from` on. */
  function Slices(c: Config, pre: Preprocessor, rows: Records, from: nat, m: Weights, o: Optimiser): (r: Checkpoints)
    ensures forall j :: j in r <==> from <= j < c.numSlices
    decreases c.numSlices - from
  {
    if from >= c.numSlices then map[]
    else
      var (m1, o1) := c.trainSlice(m, o, pre, Columns(UpTo(rows, from)), from);
      map[from := m1] + Slices(c, pre, rows, from + 1, m1, o1)
  }

  /** The last checkpoint is written after training on every row of the shard. */
  lemma LastSliceSeesAll(c: Config, pre: Preprocessor, rows: Records, m: Weights, o: Optimiser)
    requires c.numSlices >= 1 && forall r | r in rows :: r.slice < c.numSlices
    ensures Slices(c, pre, rows, c.numSlices - 1, m, o)
         == map[c.numSlices - 1 := c.trainSlice(m, o, pre, Columns(rows), c.numSlices - 1).0]
  {
    hide UpTo;
    UpToLast(rows, c.numSlices - 1);
  }

  function StartWeights(c: Config, resume: Option<Weights>): Weights {
    if resume.Some? then resume.value else c.init
  }

  function Retrain(c: Config, rows: Records, from: nat, resume: Option<Weights>): (r: Checkpoints)
    ensures forall j :: j in r <==> from <= j < c.numSlices
  {
    var m := StartWeights(c, resume);
    Slices(c, Fit(c, rows), rows, from, m, c.newOptimiser(m))
  }

  /** Each pair comes of training the one before on the rows of its slice and the slices before. */
  ghost predicate Chained(c: Config, rows: Records, from: nat, p: Preprocessor, pairs: seq<(Weights, Optimiser)>) {
    forall k | 0 <= k < |pairs| - 1 ::
      pairs[k + 1] == c.trainSlice(pairs[k].0, pairs[k].1, p, Columns(UpTo(rows, from + k)), from + k)
  }

  /** Weights and optimiser along the slices, from `w` and a fresh optimiser. */
  ghost predicate Follows(c: Config, rows: Records, from: nat, w: Weights, p: Preprocessor,
                          pairs: seq<(Weights, Optimiser)>)
  {
    from + |pairs| == c.numSlices + 1 && pairs != [] && pairs[0] == (w, c.newOptimiser(w))
    && Chained(c, rows, from, p, pairs)
  }

  /** The checkpoint of each slice from `from` on holds the weights after it; the others are as they were. */
  ghost predicate Holds(c: Config, from: nat, pairs: seq<(Weights, Optimiser)>, was: Checkpoints, now: Checkpoints) {
    from + |pairs| == c.numSlices + 1
    && (forall j | from <= j < c.numSlices :: j in now && now[j] == pairs[j - from + 1].0)
    && forall j | j < from || j >= c.numSlices :: (j in now <==> j in was) && (j in was ==> now[j] == was[j])
  }

  lemma {:induction false} SlicesFollow(c: Config, pre: Preprocessor, rows: Records, from: nat, m: Weights,
                                        o: Optimiser) returns (pairs: seq<(Weights, Optimiser)>)
    requires from <= c.numSlices
    ensures |pairs| == c.numSlices - from + 1 && pairs[0] == (m, o) && Chained(c, rows, from, pre, pairs)
    ensures forall j | from <= j < c.numSlices :: Slices(c, pre, rows, from, m, o)[j] == pairs[j - from + 1].0
    decreases c.numSlices - from
  {
    hide UpTo, Chained;
    pairs := [(m, o)];
    if from < c.numSlices {
      var (m1, o1) := c.trainSlice(m, o, pre, Columns(UpTo(rows, from)), from);
      var rest := SlicesFollow(c, pre, rows, from + 1, m1, o1);
      pairs := [(m, o)] + rest;
      ChainedCons(c, rows, from, pre, m, o, rest);
      forall j | from <= j < c.numSlices ensures Slices(c, pre, rows, from, m, o)[j] == pairs[j - from + 1].0 {
        if j > from { assert pairs[j - from + 1] == rest[j - from]; }
      }
    } else {
      ChainedAlone(c, rows, from, pre, m, o);
    }
  }

  lemma ChainedAlone(c: Config, rows: Records, from: nat, p: Preprocessor, m: Weights, o: Optimiser)
    ensures Chained(c, rows, from, p, [(m, o)])
  {}

  lemma ChainedCons(c: Config, rows: Records, from: nat, p: Preprocessor, m: Weights, o: Optimiser,
                    rest: seq<(Weights, Optimiser)>)
    requires rest != [] && Chained(c, rows, from + 1, p, rest)
    requires rest[0] == c.trainSlice(m, o, p, Columns(UpTo(rows, from)), from)
    ensures Chained(c, rows, from, p, [(m, o)] + rest)
  {
    hide UpTo;
    var pairs := [(m, o)] + rest;
    forall k | 0 <= k < |pairs| - 1
      ensures pairs[k + 1] == c.trainSlice(pairs[k].0, pairs[k].1, p, Columns(UpTo(rows, from + k)), from + k)
    {
      if k > 0 { assert pairs[k] == rest[k - 1] && pairs[k + 1] == rest[k]; }
    }
  }

  /** `train_shard` from slice `from` on: resuming means starting from the weights handed over. */
  lemma RetrainFollows(c: Config, rows: Records, from: nat, resume: Option<Weights>, was: Checkpoints)
    requires from <= c.numSlices
    ensures var w, p := if resume.Some? then resume.value else c.init, c.fit(Columns(UpTo(rows, 0)));
            exists pairs: seq<(Weights, Optimiser)> ::
              Follows(c, rows, from, w, p, pairs)
              && Holds(c, from, pairs, was, Overwrite(was, Retrain(c, rows, from, resume)))
  {
    hide UpTo, Slices;
    var w := if resume.Some? then resume.value else c.init;
    var p := c.fit(Columns(UpTo(rows, 0)));
    var pairs := SlicesFollow(c, p, rows, from, w, c.newOptimiser(w));
    assert Follows(c, rows, from, w, p, pairs);
    assert Holds(c, from, pairs, was, Overwrite(was, Retrain(c, rows, from, resume)));
  }

  /** Later checkpoints overwrite earlier ones. */
  function Overwrite(a: Checkpoints, b: Checkpoints): Checkpoints { a + b }

  // ------------------------------------------------------------------ purge

  /** The purge loop: None stands for the ValueError on a ref without rows. */
  function PurgeAll(rows: Records, refs: seq<Key>): Option<Records>
    decreases |refs|
  {
    if refs == [] then Some(rows)
    else
      var left := Retain(rows, {refs[0]});
      if |left| == |rows| then None else PurgeAll(left, refs[1..])
  }

  /** It succeeds exactly on distinct refs that all have rows, and then purges them all. */
  lemma {:induction false} PurgeAllSpec(rows: Records, refs: seq<Key>)
    ensures PurgeAll(rows, refs).Some? <==> NoRepeats(refs) && ToSet(refs) <= Present(rows)
    ensures PurgeAll(rows, refs).Some? ==> PurgeAll(rows, refs).value == Retain(rows, ToSet(refs))
    decreases |refs|
  {
    if refs == [] {
      RetainNothing(rows);
      assert ToSet(refs) == {};
    } else {
      var k, rest := refs[0], refs[1..];
      var left := Retain(rows, {k});
      assert refs == [k] + rest;
      RetainSize(rows, {k});
      RetainPresent(rows, {k});
      PurgeAllSpec(left, rest);
      NoRepeatsCons(refs);
      RetainTwice(rows, {k}, ToSet(rest));
      assert {k} + ToSet(rest) == ToSet(refs);
      assert k in ToSet(refs);
      assert k in ToSet(rest) <==> k in rest;
    }
  }

  lemma {:induction false} RetainNothing(rows: Records)
    ensures Retain(rows, {}) == rows
  {
    if rows != [] { RetainNothing(rows[1..]); }
  }

  // -------------------------------------------------------------- one batch

  datatype Disk = Disk(shards: Shards, preprocs: map<int, Preprocessor>, checkpoints: map<int, Checkpoints>,
                       routing: Routing)

  function CheckpointsOf(checkpoints: map<int, Checkpoints>, s: int): Checkpoints {
    if s in checkpoints then checkpoints[s] else map[]
  }

  function Finished(d: Disk, entries: Entries, r: Conclusion, purged: int): (Disk, Entries, Outcome) {
    var (routing, cached, outcome) := Ended(d.routing, entries, r, purged);
    (d.(routing := routing), cached, outcome)
  }

  /** The files after training shard s, whose purged rows are saved already. */
  function Trained(c: Config, saved: Disk, s: int, left: Records, from: nat, resume: Option<Weights>): Disk {
    saved.(preprocs := saved.preprocs[s := Fit(c, left)],
           checkpoints := saved.checkpoints[s := Overwrite(CheckpointsOf(saved.checkpoints, s),
                                                           Retrain(c, left, from, resume))])
  }

  /** The files after purging shard s to `left` and training it. */
  function TrainedDisk(c: Config, d: Disk, s: int, left: Records, from: nat, resume: Option<Weights>): Disk {
    Trained(c, d.(shards := d.shards[s := left]), s, left, from, resume)
  }

  /** The batch from the moment the purged shard file is saved. */
  function AfterPurge(c: Config, saved: Disk, entries: Entries, before: SparseMerkleTree, a: Admission, left: Records,
                      refs: seq<Key>, purged: int): (Disk, Entries, Outcome)
    requires a.Admitted? && Fits(before.root, 0)
  {
    var ck, m := CheckpointsOf(saved.checkpoints, a.shard), a.minSlice;
    if m > 0 && m - 1 !in ck then (saved, entries, Raised(MissingCheckpoint))
    else if SliceZero(left) == [] then (saved, entries, Raised(EmptySliceZero))
    else
      var trained := Trained(c, saved, a.shard, left, m, if m > 0 then Some(ck[m - 1]) else None);
      if m >= c.numSlices then (trained, entries, Raised(NoFinalSlice))
      else
        var weights := c.digest(trained.checkpoints[a.shard][c.numSlices - 1]);
        Finished(trained, entries, Conclude(c.h, saved.routing, entries, before, a, refs, weights), purged)
  }

  /** `rebuild_batch_by_ref`, errors and the writes that precede them included. */
  function Rebuild(c: Config, d: Disk, entries: Entries, refs: seq<Key>): (Disk, Entries, Outcome)
    requires ValidEntries(c.h, entries)
  {
    var a := Admit(d.routing, refs);
    if !a.Admitted? then (d, entries, Raised(Refused(a)))
    else if a.shard !in d.shards then (d, entries, Raised(MissingFile))
    else
      var rows := d.shards[a.shard];
      TreeForAgrees(c.h, entries, a.shard, RefsOf(rows));
      var before := TreeFor(c.h, entries, a.shard, RefsOf(rows));
      match PurgeAll(rows, refs)
      case None => (d, entries, Raised(NoRows))
      case Some(left) =>
        AfterPurge(c, d.(shards := d.shards[a.shard := left]), entries, before, a, left, refs, |rows| - |left|)
  }

  /** The files of a deployment, shared by its workers. */
  class Store {
    var shards: Shards
    var preprocs: map<int, Preprocessor>
    var checkpoints: map<int, Checkpoints>
    var routing: Routing

    ghost function Contents(): Disk
      reads this
    {
      Disk(shards, preprocs, checkpoints, routing)
    }

    constructor (shards: Shards, routing: Routing)
      ensures Contents() == Disk(shards, map[], map[], routing)
    {
      this.shards, this.preprocs, this.checkpoints, this.routing := shards, map[], map[], routing;
    }
  }

  /** `train_shard`: fits, writes the preprocessor, then trains slice by slice, writing a checkpoint
      after each. False stands for the ValueError of fitting on no rows, before anything is written. */
  method TrainShard(c: Config, store: Store, s: int, rows: Records, from: nat, resume: Option<Weights>)
    returns (ok: bool)
    requires from > 0 ==> resume.Some?
    modifies store
    ensures ok <==> SliceZero(rows) != []
    ensures store.Contents()
         == if ok then Trained(c, old(store.Contents()), s, rows, from, resume) else old(store.Contents())
  {
    hide Slices, Overwrite, Retrain, Fit, UpTo, SliceZero;
    if SliceZero(rows) == [] { return false; }
    var pre := Fit(c, rows);
    var model := StartWeights(c, resume);
    var opt := c.newOptimiser(model);
    store.preprocs := store.preprocs[s := pre];
    var saved := CheckpointsOf(store.checkpoints, s);
    ghost var all := Overwrite(saved, Retrain(c, rows, from, resume));
    store.checkpoints := store.checkpoints[s := saved];
    SlicesFrom(c, rows, from, resume);
    var slice: nat := from;
    while slice < c.numSlices
      invariant store.shards == old(store.shards) && store.routing == old(store.routing)
      invariant store.preprocs == old(store.preprocs)[s := pre]
      invariant store.checkpoints == old(store.checkpoints)[s := saved]
      invariant Overwrite(saved, Slices(c, pre, rows, slice, model, opt)) == all
      decreases c.numSlices - slice
    {
      SliceStep(c, pre, rows, slice, model, opt, saved);
      var (m1, o1) := c.trainSlice(model, opt, pre, Columns(UpTo(rows, slice)), slice);
      model, opt := m1, o1;
      saved := Overwrite(saved, map[slice := model]);
      store.checkpoints := store.checkpoints[s := saved];
      slice := slice + 1;
    }
    SlicesEnd(c, pre, rows, slice, model, opt, saved);
    ok := true;
  }

  lemma SlicesFrom(c: Config, rows: Records, from: nat, resume: Option<Weights>)
    ensures var m := StartWeights(c, resume);
            Retrain(c, rows, from, resume) == Slices(c, Fit(c, rows), rows, from, m, c.newOptimiser(m))
  {}

  lemma SlicesEnd(c: Config, pre: Preprocessor, rows: Records, j: nat, m: Weights, o: Optimiser, saved: Checkpoints)
    requires j >= c.numSlices
    ensures Overwrite(saved, Slices(c, pre, rows, j, m, o)) == saved
  {}

  lemma SliceStep(c: Config, pre: Preprocessor, rows: Records, j: nat, m: Weights, o: Optimiser, saved: Checkpoints)
    requires j < c.numSlices
    ensures var (m1, o1) := c.trainSlice(m, o, pre, Columns(UpTo(rows, j)), j);
            Overwrite(saved, Slices(c, pre, rows, j, m, o))
            == Overwrite(Overwrite(saved, map[j := m1]), Slices(c, pre, rows, j + 1, m1, o1))
  {
    var (m1, o1) := c.trainSlice(m, o, pre, Columns(UpTo(rows, j)), j);
    var rest := Slices(c, pre, rows, j + 1, m1, o1);
    assert Slices(c, pre, rows, j, m, o) == Overwrite(map[j := m1], rest);
    OverwriteAssociative(saved, map[j := m1], rest);
  }

  lemma OverwriteAssociative(x: Checkpoints, y: Checkpoints, z: Checkpoints)
    ensures Overwrite(x, Overwrite(y, z)) == Overwrite(Overwrite(x, y), z)
  {}

  method Purge(rows: Records, refs: seq<Key>) returns (r: Option<Records>)
    ensures r == PurgeAll(rows, refs)
  {
    var records := rows;
    for i := 0 to |refs|
      invariant PurgeAll(records, refs[i..]) == PurgeAll(rows, refs)
    {
      assert refs[i..][0] == refs[i] && refs[i..][1..] == refs[i + 1..];
      var left := Retain(records, {refs[i]});
      if |left| == |records| { return None; }
      records := left;
    }
    r := Some(records);
  }

  /** `rebuild_batch_by_ref` over the shared files and this worker's tree cache. */
  method RebuildBatchByRef(c: Config, store: Store, cache: Cache, refs: seq<Key>) returns (outcome: Outcome)
    requires cache.Valid() && cache.h == c.h
    modifies store, cache
    ensures cache.Valid()
    ensures (store.Contents(), cache.entries, outcome) == Rebuild(c, old(store.Contents()), old(cache.entries), refs)
  {
    hide Admit, Retain, PurgeAll, AfterPurge, TreeFor, ValidEntries;
    var a := AdmitBatch(store.routing, refs);
    if !a.Admitted? { return Raised(Refused(a)); }
    if a.shard !in store.shards { return Raised(MissingFile); }
    var rows := store.shards[a.shard];
    var before := cache.TreeForShard(a.shard, RefsOf(rows));
    var purged := Purge(rows, refs);
    if purged.None? { return Raised(NoRows); }
    store.shards := store.shards[a.shard := purged.value];
    outcome := TrainAndConclude(c, store, cache, before, a, purged.value, refs, |rows| - |purged.value|);
  }

  method TrainAndConclude(c: Config, store: Store, cache: Cache, before: SparseMerkleTree, a: Admission, left: Records,
                          refs: seq<Key>, purged: int) returns (outcome: Outcome)
    requires cache.Valid() && cache.h == c.h && before.Valid(c.h) && a.Admitted?
    modifies store, cache
    ensures cache.Valid()
    ensures (store.Contents(), cache.entries, outcome)
         == AfterPurge(c, old(store.Contents()), old(cache.entries), before, a, left, refs, purged)
  {
    hide Retrain, Conclude, SliceZero, Fit, Overwrite, Trained;
    ghost var saved := store.Contents();
    var ck, m := CheckpointsOf(store.checkpoints, a.shard), a.minSlice;
    if m > 0 && m - 1 !in ck { return Raised(MissingCheckpoint); }
    var resume := if m > 0 then Some(ck[m - 1]) else None;
    var ok := TrainShard(c, store, a.shard, left, m, resume);
    if !ok { return Raised(EmptySliceZero); }
    if m >= c.numSlices { return Raised(NoFinalSlice); }
    TrainedHasFinal(c, saved, a.shard, left, m, resume);
    var weights := c.digest(store.checkpoints[a.shard][c.numSlices - 1]);
    var end := ConcludeBatch(cache, store.routing, before, a, refs, weights);
    match end {
      case TreeRaised => return Raised(TreeError);
      case PopRaised(_) => return Raised(RoutingKeyError);
      case Issued(_, routing, manifests) =>
        store.routing := routing;
        return Done(manifests, purged);
    }
  }

  lemma TrainedHasFinal(c: Config, saved: Disk, s: int, rows: Records, from: nat, resume: Option<Weights>)
    ensures var t := Trained(c, saved, s, rows, from, resume);
            t.shards == saved.shards && t.routing == saved.routing && s in t.checkpoints
            && (from < c.numSlices ==> c.numSlices - 1 in t.checkpoints[s])
  {}

  lemma RetrainReaches(c: Config, rows: Records, from: nat, resume: Option<Weights>, saved: Checkpoints)
    ensures forall j :: j in Overwrite(saved, Retrain(c, rows, from, resume)) <==> j in saved || from <= j < c.numSlices
  {}
}
