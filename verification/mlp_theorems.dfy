/** What the network engine guarantees. A rebuilt network is not a clean retrain, because the
    optimiser restarts at the resume point; instead, nothing stored depends on an erased row. */
module MlpTheorems {
  import opened Hashing
  import opened Ordering
  import opened SparseMerkle
  import opened SparseTree
  import opened TreeCache
  import opened Erasure
  import opened Mlp

  // ---------------------------------------------- what one batch does to disk

  /** Every routed subject's shard has all its checkpoints. */
  ghost predicate Complete(c: Config, d: Disk) {
    forall k | k in d.routing ::
      forall j | 0 <= j < c.numSlices :: j in CheckpointsOf(d.checkpoints, d.routing[k].shard)
  }

  ghost predicate Healthy(c: Config, d: Disk) {
    Routed(d.shards, d.routing, c.numSlices) && NoStale(d.shards, d.routing) && Complete(c, d)
  }

  /** Some subject of slice 0 stays: what a caller can check before submitting the batch. */
  predicate SliceZeroSurvives(rows: Records, refs: seq<Key>) {
    exists r :: r in rows && r.slice == 0 && r.ref !in refs
  }

  lemma SliceZeroLeft(rows: Records, refs: seq<Key>)
    ensures SliceZero(Retain(rows, ToSet(refs))) != [] <==> SliceZeroSurvives(rows, refs)
  {
    var left := Retain(rows, ToSet(refs));
    SliceZeroMembers(left);
    forall r: Row { RetainMembers(rows, ToSet(refs), r); }
    forall k ensures k in ToSet(refs) <==> k in refs {}
    if SliceZeroSurvives(rows, refs) {
      var r :| r in rows && r.slice == 0 && r.ref !in refs;
      assert r in left;
    }
    if SliceZero(left) != [] {
      var r :| r in left && r.slice == 0;
      assert r in rows && r.ref !in refs;
    }
  }

  function ResumeOf(d: Disk, a: Admission): Option<Weights>
    requires a.Admitted?
  {
    var ck := CheckpointsOf(d.checkpoints, a.shard);
    if a.minSlice > 0 && a.minSlice - 1 in ck then Some(ck[a.minSlice - 1]) else None
  }

  /** The weights a completed batch reports. */
  function FinalWeights(c: Config, d: Disk, s: int): Weights {
    var ck := CheckpointsOf(d.checkpoints, s);
    if c.numSlices > 0 && c.numSlices - 1 in ck then ck[c.numSlices - 1] else []
  }

  /** The trained state an admitted, purgeable batch reaches when slice 0 survives. */
  lemma RebuildTrains(c: Config, d: Disk, entries: Entries, refs: seq<Key>)
    requires ValidEntries(c.h, entries) && Healthy(c, d)
    requires Admit(d.routing, refs).Admitted? && NoRepeats(refs)
    ensures var a := Admit(d.routing, refs);
            a.shard in d.shards && ToSet(refs) <= Present(d.shards[a.shard])
            && var rows := d.shards[a.shard]; var left := Retain(rows, ToSet(refs));
               var before := TreeFor(c.h, entries, a.shard, RefsOf(rows));
               before.Valid(c.h)
               && (if SliceZeroSurvives(rows, refs) then
                     var trained := TrainedDisk(c, d, a.shard, left, a.minSlice, ResumeOf(d, a));
                     Rebuild(c, d, entries, refs)
                     == Finished(trained, entries,
                                 Conclude(c.h, d.routing, entries, before, a, refs,
                                          c.digest(FinalWeights(c, trained, a.shard))),
                                 |rows| - |left|)
                   else
                     Rebuild(c, d, entries, refs)
                     == (d.(shards := d.shards[a.shard := left]), entries, Raised(EmptySliceZero)))
  {
    hide Retain, MinSlice, TreeFor, Conclude, Finished, Retrain, Overwrite, PurgeAll, SliceZero, SliceZeroSurvives, Fit;
    var a := Admit(d.routing, refs);
    AdmittedFacts(d.routing, refs);
    NoStaleAfter(d.shards, d.routing, refs);
    RoutedMatches(d.shards, d.routing, c.numSlices, a.shard);
    PurgedSlices(d.shards[a.shard], d.routing, c.numSlices, refs);
    var rows := d.shards[a.shard];
    PurgeAllSpec(rows, refs);
    SliceZeroLeft(rows, refs);
    TreeForAgrees(c.h, entries, a.shard, RefsOf(rows));
    assert refs[0] in refs;
    RetrainReaches(c, Retain(rows, ToSet(refs)), a.minSlice, ResumeOf(d, a), CheckpointsOf(d.checkpoints, a.shard));
  }

  lemma CompleteAfter(c: Config, d: Disk, a: Admission, left: Records, after: Disk)
    requires a.Admitted? && Complete(c, d)
    requires after.checkpoints == TrainedDisk(c, d, a.shard, left, a.minSlice, ResumeOf(d, a)).checkpoints
    requires after.routing.Keys <= d.routing.Keys && forall k | k in after.routing :: after.routing[k] == d.routing[k]
    ensures Complete(c, after)
  {
    hide Retrain, Overwrite;
    RetrainReaches(c, left, a.minSlice, ResumeOf(d, a), CheckpointsOf(d.checkpoints, a.shard));
    forall k, j | k in after.routing && 0 <= j < c.numSlices
      ensures j in CheckpointsOf(after.checkpoints, after.routing[k].shard)
    {
      assert k in d.routing && j in CheckpointsOf(d.checkpoints, d.routing[k].shard);
    }
  }

  /** What an admitted batch does to a healthy deployment, in its three cases. A repeated ref is
      refused before anything is written. A batch that empties slice 0 raises after the purged
      shard is written and leaves routing stale. Any other batch completes and keeps the
      deployment healthy, with every manifest true of the disk. */
  lemma RebuildOutcome(c: Config, d: Disk, entries: Entries, refs: seq<Key>)
    requires ValidEntries(c.h, entries) && Healthy(c, d)
    requires Admit(d.routing, refs).Admitted? && !Clash(c.h, d.shards, d.routing, entries, refs)
    ensures var (after, cached, outcome) := Rebuild(c, d, entries, refs); var a := Admit(d.routing, refs);
            a.shard in d.shards
            && (Healthy(c, after) <==> !NoRepeats(refs) || SliceZeroSurvives(d.shards[a.shard], refs))
            && (!NoRepeats(refs) ==> after == d && outcome == Raised(NoRows))
            && (NoRepeats(refs) && !SliceZeroSurvives(d.shards[a.shard], refs) ==> outcome == Raised(EmptySliceZero))
            && (NoRepeats(refs) && SliceZeroSurvives(d.shards[a.shard], refs) ==>
                  outcome.Done? && after.shards == Purged(d.shards, a.shard, refs)
                  && after.routing == d.routing - ToSet(refs)
                  && Recached(entries, cached, a.shard, after.shards[a.shard])
                  && ManifestsTrue(c.h, a, refs, after.shards[a.shard],
                                   c.digest(FinalWeights(c, after, a.shard)), outcome.manifests))
  {
    hide Retain, MinSlice, TreeFor, Conclude, Routed, NoStale, Complete, ManifestsTrue, Rebuild,
         SliceZeroSurvives, Retrain, Overwrite, Fit, Recached;
    var a := Admit(d.routing, refs);
    AdmittedFacts(d.routing, refs);
    NoStaleAfter(d.shards, d.routing, refs);
    var rows := d.shards[a.shard];
    if !NoRepeats(refs) {
      RepeatsRefused(c, d, entries, refs);
    } else {
      RebuildTrains(c, d, entries, refs);
      RoutedAfter(d.shards, d.routing, c.numSlices, refs, d.routing - ToSet(refs));
      if SliceZeroSurvives(rows, refs) {
        var left := Retain(rows, ToSet(refs));
        TreeForAgrees(c.h, entries, a.shard, RefsOf(rows));
        RefsPresent(rows);
        var trained := TrainedDisk(c, d, a.shard, left, a.minSlice, ResumeOf(d, a));
        ConcludeTrue(c.h, d.routing, entries, TreeFor(c.h, entries, a.shard, RefsOf(rows)), a, refs,
                     c.digest(FinalWeights(c, trained, a.shard)), rows);
        CompleteAfter(c, d, a, left, trained.(routing := d.routing - ToSet(refs)));
      }
    }
  }

  lemma RepeatsRefused(c: Config, d: Disk, entries: Entries, refs: seq<Key>)
    requires ValidEntries(c.h, entries) && Admit(d.routing, refs).Admitted? && !NoRepeats(refs)
    requires Admit(d.routing, refs).shard in d.shards
    ensures Rebuild(c, d, entries, refs) == (d, entries, Raised(NoRows))
  {
    hide PurgeAll, TreeFor, Conclude, MinSlice, Retrain, NoRepeats;
    PurgeAllSpec(d.shards[Admit(d.routing, refs).shard], refs);
  }

  // --------------------------------------------------------- noninterference

  /** No subject of `pending` in shard s sits in slice j or before. */
  ghost predicate Clear(routing: Routing, pending: set<Key>, s: int, j: nat) {
    forall k | k in pending && k in routing && routing[k].shard == s :: routing[k].minSlice > j
  }

  /** Two deployments that may differ in the rows of pending subjects, and in nothing trained
      before one of those subjects' slices. */
  ghost predicate Alike(c: Config, a: Disk, b: Disk, pending: set<Key>) {
    && a.routing == b.routing && a.shards.Keys == b.shards.Keys
    && (forall s | s in a.shards ::
          Retain(a.shards[s], pending) == Retain(b.shards[s], pending)
          && Present(a.shards[s]) == Present(b.shards[s]))
    && (forall s | s in a.shards && Clear(a.routing, pending, s, 0) ::
          s in a.preprocs && s in b.preprocs && a.preprocs[s] == b.preprocs[s])
    && (forall s, j | s in a.shards && Clear(a.routing, pending, s, j) && j in CheckpointsOf(a.checkpoints, s) ::
          j in CheckpointsOf(b.checkpoints, s)
          && CheckpointsOf(a.checkpoints, s)[j] == CheckpointsOf(b.checkpoints, s)[j])
    && (forall s | s in a.shards :: SameSlices(c, CheckpointsOf(a.checkpoints, s), CheckpointsOf(b.checkpoints, s)))
  }

  ghost predicate SameSlices(c: Config, x: Checkpoints, y: Checkpoints) {
    forall j :: (j in x <==> j in y) && (j in x ==> j < c.numSlices)
  }

  /** Up to a clear slice, both shards show training the same rows. */
  lemma SameView(a: Records, b: Records, routing: Routing, pending: set<Key>, s: int, j: nat)
    requires Retain(a, pending) == Retain(b, pending) && Clear(routing, pending, s, j)
    requires RowsRouted(a, routing, s) && RowsRouted(b, routing, s)
    ensures UpTo(a, j) == UpTo(b, j)
  {
    UpToIgnores(a, pending, j);
    UpToIgnores(b, pending, j);
  }

  /** Training that starts from one state and sees the same rows up to slice j writes the same
      checkpoints up to slice j. */
  lemma {:induction false} SlicesAgree(c: Config, pre: Preprocessor, a: Records, b: Records, from: nat, j: nat,
                                       m: Weights, o: Optimiser, i: nat)
    requires from <= i <= j < c.numSlices
    requires forall k | 0 <= k <= j :: UpTo(a, k) == UpTo(b, k)
    ensures i in Slices(c, pre, a, from, m, o) && i in Slices(c, pre, b, from, m, o)
    ensures Slices(c, pre, a, from, m, o)[i] == Slices(c, pre, b, from, m, o)[i]
    decreases j - from
  {
    assert UpTo(a, from) == UpTo(b, from);
    if from < i {
      var (m1, o1) := c.trainSlice(m, o, pre, Columns(UpTo(a, from)), from);
      SlicesAgree(c, pre, a, b, from + 1, j, m1, o1, i);
    }
  }

  lemma RetrainAgrees(c: Config, a: Records, b: Records, from: nat, resume: Option<Weights>, j: nat)
    requires from <= j < c.numSlices
    requires forall k | 0 <= k <= j :: UpTo(a, k) == UpTo(b, k)
    ensures Fit(c, a) == Fit(c, b)
    ensures j in Retrain(c, a, from, resume) && j in Retrain(c, b, from, resume)
    ensures Retrain(c, a, from, resume)[j] == Retrain(c, b, from, resume)[j]
  {
    assert UpTo(a, 0) == UpTo(b, 0);
    var m := StartWeights(c, resume);
    SlicesAgree(c, Fit(c, a), a, b, from, j, m, c.newOptimiser(m), j);
  }

  /** A batch trains, rather than raising before or instead. */
  predicate Reaches(c: Config, d: Disk, refs: seq<Key>) {
    var a := Admit(d.routing, refs);
    a.Admitted? && a.shard in d.shards && PurgeAll(d.shards[a.shard], refs).Some?
    && (a.minSlice > 0 ==> a.minSlice - 1 in CheckpointsOf(d.checkpoints, a.shard))
    && SliceZero(PurgeAll(d.shards[a.shard], refs).value) != [] && a.minSlice < c.numSlices
  }

  function TrainedBy(c: Config, d: Disk, refs: seq<Key>): Disk
    requires Reaches(c, d, refs)
  {
    var a := Admit(d.routing, refs);
    TrainedDisk(c, d, a.shard, PurgeAll(d.shards[a.shard], refs).value, a.minSlice, ResumeOf(d, a))
  }

  /** The batch gets as far as saving the purged shard file. */
  predicate Saves(d: Disk, refs: seq<Key>) {
    var a := Admit(d.routing, refs);
    a.Admitted? && a.shard in d.shards && PurgeAll(d.shards[a.shard], refs).Some?
  }

  function SavedBy(d: Disk, refs: seq<Key>): Disk
    requires Saves(d, refs)
  {
    var s := Admit(d.routing, refs).shard;
    d.(shards := d.shards[s := PurgeAll(d.shards[s], refs).value])
  }

  /** What a batch that saves nothing, or saves but does not train, raises. */
  function RaisedBy(d: Disk, refs: seq<Key>): Error {
    var a := Admit(d.routing, refs);
    if !a.Admitted? then Refused(a)
    else if a.shard !in d.shards then MissingFile
    else if PurgeAll(d.shards[a.shard], refs).None? then NoRows
    else if a.minSlice > 0 && a.minSlice - 1 !in CheckpointsOf(d.checkpoints, a.shard) then MissingCheckpoint
    else EmptySliceZero
  }

  lemma RebuildRaises(c: Config, d: Disk, entries: Entries, refs: seq<Key>)
    requires ValidEntries(c.h, entries)
    ensures !Saves(d, refs) ==> Rebuild(c, d, entries, refs) == (d, entries, Raised(RaisedBy(d, refs)))
    ensures Saves(d, refs) && !Reaches(c, d, refs) && Admit(d.routing, refs).minSlice < c.numSlices ==>
              Rebuild(c, d, entries, refs) == (SavedBy(d, refs), entries, Raised(RaisedBy(d, refs)))
  {
    hide PurgeAll, TreeFor, Conclude, MinSlice, Retrain, Overwrite, SliceZero, Fit;
  }

  /** Saving means purging routed rows, so the minimum slice is one of the shard's. */
  lemma SavesInRange(c: Config, d: Disk, refs: seq<Key>)
    requires Routed(d.shards, d.routing, c.numSlices) && Saves(d, refs)
    ensures Admit(d.routing, refs).minSlice < c.numSlices
    ensures NoRepeats(refs) && SavedBy(d, refs).shards == Purged(d.shards, Admit(d.routing, refs).shard, refs)
  {
    hide PurgeAll, MinSlice, Retain, NoRepeats;
    var s := Admit(d.routing, refs).shard;
    PurgeAllSpec(d.shards[s], refs);
    RoutedMatches(d.shards, d.routing, c.numSlices, s);
    PurgedSlices(d.shards[s], d.routing, c.numSlices, refs);
    RetainSize(d.shards[s], ToSet(refs));
    assert refs[0] in refs && refs[0] in ToSet(refs);
  }

  lemma RebuildReaches(c: Config, d: Disk, entries: Entries, refs: seq<Key>)
    requires ValidEntries(c.h, entries)
    ensures !Reaches(c, d, refs) ==> Rebuild(c, d, entries, refs).2.Raised?
    ensures Reaches(c, d, refs) ==>
              var a := Admit(d.routing, refs); var rows := d.shards[a.shard];
              var before := TreeFor(c.h, entries, a.shard, RefsOf(rows));
              before.Valid(c.h)
              && Rebuild(c, d, entries, refs)
                 == Finished(TrainedBy(c, d, refs), entries,
                             Conclude(c.h, d.routing, entries, before, a, refs,
                                      c.digest(FinalWeights(c, TrainedBy(c, d, refs), a.shard))),
                             |rows| - |PurgeAll(rows, refs).value|)
  {
    hide PurgeAll, TreeFor, Conclude, MinSlice, Retrain, Overwrite, SliceZero, Fit;
    var a := Admit(d.routing, refs);
    if a.Admitted? && a.shard in d.shards {
      TreeForAgrees(c.h, entries, a.shard, RefsOf(d.shards[a.shard]));
      if Reaches(c, d, refs) {
        RetrainReaches(c, PurgeAll(d.shards[a.shard], refs).value, a.minSlice, ResumeOf(d, a),
                       CheckpointsOf(d.checkpoints, a.shard));
      }
    }
  }

  /** What a batch that trains leaves of its shard: the preprocessor fitted on the retained rows of slice 0,
      and checkpoints that follow from the stored one before its minimum slice, or from fresh weights when
      there is none before it; earlier checkpoints and other shards as they were. */
  ghost predicate Resumed(c: Config, d: Disk, after: Disk, refs: seq<Key>, s: int, m: nat) {
    var was, now := CheckpointsOf(d.checkpoints, s), CheckpointsOf(after.checkpoints, s);
    s in d.shards && (m > 0 ==> m - 1 in was)
    && var left := Retain(d.shards[s], ToSet(refs));
       var w, p := if m > 0 then was[m - 1] else c.init, c.fit(Columns(UpTo(left, 0)));
       after.shards == d.shards[s := left] && after.preprocs == d.preprocs[s := p]
       && after.checkpoints == d.checkpoints[s := now]
       && exists pairs: seq<(Weights, Optimiser)> :: Follows(c, left, m, w, p, pairs) && Holds(c, m, pairs, was, now)
  }

  lemma RebuildResumes(c: Config, d: Disk, entries: Entries, refs: seq<Key>, s: int, m: nat)
    requires ValidEntries(c.h, entries) && Admit(d.routing, refs) == Admitted(s, m) && Reaches(c, d, refs)
    ensures Resumed(c, d, Rebuild(c, d, entries, refs).0, refs, s, m)
  {
    hide PurgeAll, TreeFor, Conclude, MinSlice, Retrain, Overwrite, Rebuild, UpTo, Retain, Follows, Holds, Slices;
    RebuildReaches(c, d, entries, refs);
    PurgeAllSpec(d.shards[s], refs);
    var left, was := Retain(d.shards[s], ToSet(refs)), CheckpointsOf(d.checkpoints, s);
    RetrainFollows(c, left, m, ResumeOf(d, Admitted(s, m)), was);
  }

  /** The shard file and the table: saved or not, popped or not. */
  lemma RebuildSaves(c: Config, d: Disk, entries: Entries, refs: seq<Key>)
    requires ValidEntries(c.h, entries) && Routed(d.shards, d.routing, c.numSlices)
    ensures var (after, _, outcome) := Rebuild(c, d, entries, refs);
            (!Saves(d, refs) ==> after == d)
            && (Saves(d, refs) ==>
                  after.shards == SavedBy(d, refs).shards
                  && after.routing == if outcome.Done? then d.routing - ToSet(refs) else d.routing)
  {
    hide PurgeAll, TreeFor, Conclude, MinSlice, Retrain, Overwrite, SliceZero, Fit, Rebuild, Routed, Ended,
         ValidEntries;
    RebuildRaises(c, d, entries, refs);
    if Saves(d, refs) {
      SavesInRange(c, d, refs);
      if Reaches(c, d, refs) {
        RebuildReaches(c, d, entries, refs);
        var a := Admit(d.routing, refs);
        AdmittedFacts(d.routing, refs);
        var rows := d.shards[a.shard];
        EndedRouting(c.h, d.routing, entries, TreeFor(c.h, entries, a.shard, RefsOf(rows)), a, refs,
                     c.digest(FinalWeights(c, TrainedBy(c, d, refs), a.shard)), |rows| - |PurgeAll(rows, refs).value|);
      }
    }
  }

  ghost predicate RowsRouted(rows: Records, routing: Routing, s: int) {
    forall r | r in rows :: r.ref in routing && routing[r.ref] == Route(s, r.slice)
  }

  lemma AlikeSymmetric(c: Config, a: Disk, b: Disk, pending: set<Key>)
    requires Alike(c, a, b, pending)
    ensures Alike(c, b, a, pending)
  {
    hide Retain, Clear, Present;
    forall s, j | s in b.shards && Clear(b.routing, pending, s, j) && j in CheckpointsOf(b.checkpoints, s)
      ensures j in CheckpointsOf(a.checkpoints, s)
              && CheckpointsOf(b.checkpoints, s)[j] == CheckpointsOf(a.checkpoints, s)[j]
    {
      assert SameSlices(c, CheckpointsOf(a.checkpoints, s), CheckpointsOf(b.checkpoints, s));
    }
  }

  /** How far a batch gets, and what it raises, is the same question in both deployments. */
  lemma SavesAlike(c: Config, a: Disk, b: Disk, refs: seq<Key>, pending: set<Key>)
    requires Alike(c, a, b, pending)
    ensures Saves(a, refs) <==> Saves(b, refs)
    ensures RaisedBy(a, refs) == RaisedBy(b, refs)
  {
    hide PurgeAll, MinSlice, NoRepeats, Clear, Retain, Present;
    var ad := Admit(a.routing, refs);
    if ad.Admitted? && ad.shard in a.shards {
      PurgeAllSpec(a.shards[ad.shard], refs);
      PurgeAllSpec(b.shards[ad.shard], refs);
      assert SameSlices(c, CheckpointsOf(a.checkpoints, ad.shard), CheckpointsOf(b.checkpoints, ad.shard));
    }
  }

  lemma ReachesAlike(c: Config, a: Disk, b: Disk, refs: seq<Key>, pending: set<Key>)
    requires Routed(a.shards, a.routing, c.numSlices) && Routed(b.shards, b.routing, c.numSlices)
    requires Alike(c, a, b, pending) && Reaches(c, a, refs)
    ensures Reaches(c, b, refs)
  {
    hide PurgeAll, SliceZero, MinSlice, NoRepeats, Clear;
    var s := Admit(a.routing, refs).shard;
    var x, y := a.shards[s], b.shards[s];
    PurgeAllSpec(x, refs);
    PurgeAllSpec(y, refs);
    SliceZeroMembers(Retain(x, ToSet(refs)));
    SliceZeroMembers(Retain(y, ToSet(refs)));
    var r :| r in Retain(x, ToSet(refs)) && r.slice == 0;
    RetainMembers(x, ToSet(refs), r);
    assert r.ref in Present(y);
    var q :| q in y && q.ref == r.ref;
    RetainMembers(y, ToSet(refs), q);
    assert q.slice == 0 && q in Retain(y, ToSet(refs));
    assert SameSlices(c, CheckpointsOf(a.checkpoints, s), CheckpointsOf(b.checkpoints, s));
  }

  /** Purging the batch from both sides leaves them equal outside what is still pending. */
  lemma PurgedAlike(x: Records, y: Records, gone: set<Key>, pending: set<Key>)
    requires Retain(x, pending) == Retain(y, pending) && Present(x) == Present(y)
    ensures Retain(Retain(x, gone), pending - gone) == Retain(Retain(y, gone), pending - gone)
    ensures Present(Retain(x, gone)) == Present(Retain(y, gone))
  {
    RetainTwice(x, gone, pending - gone);
    RetainTwice(y, gone, pending - gone);
    RetainTwice(x, pending, gone);
    RetainTwice(y, pending, gone);
    assert gone + (pending - gone) == pending + gone;
    RetainPresent(x, gone);
    RetainPresent(y, gone);
  }

  lemma RowsOf(shards: Shards, routing: Routing, n: nat, s: int)
    requires Routed(shards, routing, n) && s in shards
    ensures RowsRouted(shards[s], routing, s)
  {}

  lemma RetainRouted(rows: Records, routing: Routing, s: int, gone: set<Key>)
    requires RowsRouted(rows, routing, s)
    ensures RowsRouted(Retain(rows, gone), routing - gone, s)
  {
    forall r: Row { RetainMembers(rows, gone, r); }
  }

  /** What stays pending after a batch is clear of slice j only if the batch and what was pending
      before agree on everything before its own minimum slice. */
  lemma ClearBefore(routing: Routing, refs: seq<Key>, pending: set<Key>, s: int, j: nat)
    requires Admit(routing, refs).Admitted?
    requires Clear(routing - ToSet(refs), pending - ToSet(refs), s, j)
    requires s != Admit(routing, refs).shard || j < Admit(routing, refs).minSlice
    ensures Clear(routing, pending, s, j)
  {
    AdmittedFacts(routing, refs);
    forall k | k in pending && k in routing && routing[k].shard == s ensures routing[k].minSlice > j {
      if k in ToSet(refs) {
        assert k in refs;
      } else {
        assert k in pending - ToSet(refs) && k in routing - ToSet(refs);
      }
    }
  }

  lemma ClearDown(routing: Routing, pending: set<Key>, s: int, j: nat, i: nat)
    requires Clear(routing, pending, s, j) && i <= j
    ensures Clear(routing, pending, s, i)
  {}

  /** In the shard the batch touched: views, preprocessor and every clear checkpoint agree again. */
  lemma TouchedShard(c: Config, x: Records, y: Records, routing: Routing, pending: set<Key>, s: int, m: nat,
                     rx: Option<Weights>, ry: Option<Weights>, j: nat)
    requires Retain(x, pending) == Retain(y, pending)
    requires RowsRouted(x, routing, s) && RowsRouted(y, routing, s)
    requires Clear(routing, pending, s, j) && m <= j < c.numSlices && rx == ry
    ensures Fit(c, x) == Fit(c, y)
    ensures j in Retrain(c, x, m, rx) && j in Retrain(c, y, m, ry) && Retrain(c, x, m, rx)[j] == Retrain(c, y, m, ry)[j]
  {
    forall k | 0 <= k <= j ensures UpTo(x, k) == UpTo(y, k) {
      ClearDown(routing, pending, s, j, k);
      SameView(x, y, routing, pending, s, k);
    }
    RetrainAgrees(c, x, y, m, rx, j);
  }

  lemma FitAgrees(c: Config, x: Records, y: Records, routing: Routing, pending: set<Key>, s: int)
    requires Retain(x, pending) == Retain(y, pending)
    requires RowsRouted(x, routing, s) && RowsRouted(y, routing, s) && Clear(routing, pending, s, 0)
    ensures Fit(c, x) == Fit(c, y)
  {
    SameView(x, y, routing, pending, s, 0);
  }

  // the next lemmas establish one clause of Alike each, for the states after a batch

  lemma ShardsAlike(c: Config, a: Disk, b: Disk, refs: seq<Key>, pending: set<Key>, s: int)
    requires Routed(a.shards, a.routing, c.numSlices) && Routed(b.shards, b.routing, c.numSlices)
    requires Alike(c, a, b, pending) && Admit(a.routing, refs).Admitted? && s in a.shards
    ensures var shard, gone := Admit(a.routing, refs).shard, ToSet(refs);
            s != shard ==> Retain(a.shards[s], pending - gone) == Retain(b.shards[s], pending - gone)
    ensures var shard, gone := Admit(a.routing, refs).shard, ToSet(refs);
            s == shard ==>
              Retain(Retain(a.shards[s], gone), pending - gone) == Retain(Retain(b.shards[s], gone), pending - gone)
              && Present(Retain(a.shards[s], gone)) == Present(Retain(b.shards[s], gone))
  {
    hide Retain, MinSlice, Clear, SameSlices;
    var gone := ToSet(refs);
    AdmittedFacts(a.routing, refs);
    PurgedAlike(a.shards[s], b.shards[s], gone, pending);
    if s != Admit(a.routing, refs).shard {
      forall k | k in Present(a.shards[s]) ensures k !in gone {
        var r :| r in a.shards[s] && r.ref == k;
        assert k in gone ==> k in refs;
      }
      RetainSame(a.shards[s], pending, pending - gone);
      RetainSame(b.shards[s], pending, pending - gone);
    }
  }

  /** Both resume from the same state: nothing pending lies before the batch's slice. */
  lemma ResumeAlike(c: Config, a: Disk, b: Disk, refs: seq<Key>, pending: set<Key>, j: nat)
    requires Alike(c, a, b, pending) && Reaches(c, a, refs)
    requires Clear(a.routing - ToSet(refs), pending - ToSet(refs), Admit(a.routing, refs).shard, j)
    requires j >= Admit(a.routing, refs).minSlice
    ensures ResumeOf(a, Admit(a.routing, refs)) == ResumeOf(b, Admit(a.routing, refs))
  {
    hide Retain, MinSlice, PurgeAll, Clear, SliceZero, Present;
    var ad, gone := Admit(a.routing, refs), ToSet(refs);
    assert SameSlices(c, CheckpointsOf(a.checkpoints, ad.shard), CheckpointsOf(b.checkpoints, ad.shard));
    if ad.minSlice > 0 {
      ClearDown(a.routing - gone, pending - gone, ad.shard, j, ad.minSlice - 1);
      ClearBefore(a.routing, refs, pending, ad.shard, ad.minSlice - 1);
    }
  }

  lemma CheckpointsAlike(c: Config, a: Disk, b: Disk, refs: seq<Key>, pending: set<Key>, s: int, j: nat)
    requires Routed(a.shards, a.routing, c.numSlices) && Routed(b.shards, b.routing, c.numSlices)
    requires Alike(c, a, b, pending) && Reaches(c, a, refs) && Reaches(c, b, refs) && s in a.shards
    requires Clear(a.routing - ToSet(refs), pending - ToSet(refs), s, j)
    requires j in CheckpointsOf(TrainedBy(c, a, refs).checkpoints, s)
    ensures j in CheckpointsOf(TrainedBy(c, b, refs).checkpoints, s)
    ensures CheckpointsOf(TrainedBy(c, a, refs).checkpoints, s)[j]
         == CheckpointsOf(TrainedBy(c, b, refs).checkpoints, s)[j]
  {
    hide Retain, MinSlice, PurgeAll, Clear, SliceZero, Retrain, Fit, NoRepeats, Routed, Present, ResumeOf;
    var ad, gone := Admit(a.routing, refs), ToSet(refs);
    var x, y := CheckpointsOf(a.checkpoints, ad.shard), CheckpointsOf(b.checkpoints, ad.shard);
    if s != ad.shard || j < ad.minSlice {
      ClearBefore(a.routing, refs, pending, s, j);
    } else {
      assert SameSlices(c, x, y);
      PurgeAllSpec(a.shards[s], refs);
      PurgeAllSpec(b.shards[s], refs);
      ShardsAlike(c, a, b, refs, pending, s);
      RowsOf(a.shards, a.routing, c.numSlices, s);
      RowsOf(b.shards, b.routing, c.numSlices, s);
      RetainRouted(a.shards[s], a.routing, s, gone);
      RetainRouted(b.shards[s], b.routing, s, gone);
      ResumeAlike(c, a, b, refs, pending, j);
      TouchedShard(c, Retain(a.shards[s], gone), Retain(b.shards[s], gone), a.routing - gone, pending - gone, s,
                   ad.minSlice, ResumeOf(a, ad), ResumeOf(b, ad), j);
    }
  }

  lemma PreprocsAlike(c: Config, a: Disk, b: Disk, refs: seq<Key>, pending: set<Key>, s: int)
    requires Routed(a.shards, a.routing, c.numSlices) && Routed(b.shards, b.routing, c.numSlices)
    requires Alike(c, a, b, pending) && Reaches(c, a, refs) && Reaches(c, b, refs) && s in a.shards
    requires Clear(a.routing - ToSet(refs), pending - ToSet(refs), s, 0)
    ensures var p, q := TrainedBy(c, a, refs).preprocs, TrainedBy(c, b, refs).preprocs;
            s in p && s in q && p[s] == q[s]
  {
    hide Retain, MinSlice, PurgeAll, Clear, SliceZero, Retrain, Fit, NoRepeats;
    var ad, gone := Admit(a.routing, refs), ToSet(refs);
    if s != ad.shard {
      ClearBefore(a.routing, refs, pending, s, 0);
    } else {
      PurgeAllSpec(a.shards[s], refs);
      PurgeAllSpec(b.shards[s], refs);
      ShardsAlike(c, a, b, refs, pending, s);
      RowsOf(a.shards, a.routing, c.numSlices, s);
      RowsOf(b.shards, b.routing, c.numSlices, s);
      RetainRouted(a.shards[s], a.routing, s, gone);
      RetainRouted(b.shards[s], b.routing, s, gone);
      FitAgrees(c, Retain(a.shards[s], gone), Retain(b.shards[s], gone), a.routing - gone, pending - gone, s);
    }
  }

  /** The files after a completed batch. */
  function AfterDone(c: Config, d: Disk, refs: seq<Key>): Disk
    requires Reaches(c, d, refs)
  {
    TrainedBy(c, d, refs).(routing := d.routing - ToSet(refs))
  }

  lemma SameSlicesAfter(c: Config, x: Checkpoints, y: Checkpoints, p: Checkpoints, q: Checkpoints, m: nat)
    requires SameSlices(c, x, y)
    requires (forall j :: j in p <==> m <= j < c.numSlices) && (forall j :: j in q <==> m <= j < c.numSlices)
    ensures SameSlices(c, Overwrite(x, p), Overwrite(y, q))
  {}

  lemma AfterAlike(c: Config, a: Disk, b: Disk, refs: seq<Key>, pending: set<Key>)
    requires Routed(a.shards, a.routing, c.numSlices) && Routed(b.shards, b.routing, c.numSlices)
    requires Alike(c, a, b, pending) && Reaches(c, a, refs) && Reaches(c, b, refs)
    ensures Alike(c, AfterDone(c, a, refs), AfterDone(c, b, refs), pending - ToSet(refs))
  {
    hide Retain, MinSlice, PurgeAll, Clear, SliceZero, Retrain, Fit, NoRepeats, SameSlices, Overwrite;
    var x, y := AfterDone(c, a, refs), AfterDone(c, b, refs);
    var ad, gone := Admit(a.routing, refs), ToSet(refs);
    PurgeAllSpec(a.shards[ad.shard], refs);
    PurgeAllSpec(b.shards[ad.shard], refs);
    forall s | s in x.shards
      ensures Retain(x.shards[s], pending - gone) == Retain(y.shards[s], pending - gone)
              && Present(x.shards[s]) == Present(y.shards[s])
    {
      ShardsAlike(c, a, b, refs, pending, s);
    }
    forall s | s in x.shards && Clear(x.routing, pending - gone, s, 0)
      ensures s in x.preprocs && s in y.preprocs && x.preprocs[s] == y.preprocs[s]
    {
      PreprocsAlike(c, a, b, refs, pending, s);
    }
    forall s, j | s in x.shards && Clear(x.routing, pending - gone, s, j) && j in CheckpointsOf(x.checkpoints, s)
      ensures j in CheckpointsOf(y.checkpoints, s)
              && CheckpointsOf(x.checkpoints, s)[j] == CheckpointsOf(y.checkpoints, s)[j]
    {
      CheckpointsAlike(c, a, b, refs, pending, s, j);
    }
    forall s | s in x.shards ensures SameSlices(c, CheckpointsOf(x.checkpoints, s), CheckpointsOf(y.checkpoints, s)) {
      var p, q := CheckpointsOf(a.checkpoints, s), CheckpointsOf(b.checkpoints, s);
      assert SameSlices(c, p, q);
      SameSlicesAfter(c, p, q, Retrain(c, PurgeAll(a.shards[ad.shard], refs).value, ad.minSlice, ResumeOf(a, ad)),
                      Retrain(c, PurgeAll(b.shards[ad.shard], refs).value, ad.minSlice, ResumeOf(b, ad)), ad.minSlice);
    }
  }

  lemma RetainPending(x: Records, y: Records, gone: set<Key>, pending: set<Key>)
    requires Retain(x, pending) == Retain(y, pending)
    ensures Retain(Retain(x, gone), pending) == Retain(Retain(y, gone), pending)
  {
    RetainTwice(x, gone, pending);
    RetainTwice(y, gone, pending);
    RetainTwice(x, pending, gone);
    RetainTwice(y, pending, gone);
    assert gone + pending == pending + gone;
  }

  /** Purging both sides alike, whatever becomes of the batch, adds no difference. */
  lemma SavedAlike(c: Config, a: Disk, b: Disk, refs: seq<Key>, pending: set<Key>)
    requires Alike(c, a, b, pending) && Saves(a, refs) && Saves(b, refs)
    ensures Alike(c, SavedBy(a, refs), SavedBy(b, refs), pending)
  {
    hide Retain, MinSlice, PurgeAll, Clear, NoRepeats, SameSlices, Present;
    var s, gone := Admit(a.routing, refs).shard, ToSet(refs);
    PurgeAllSpec(a.shards[s], refs);
    PurgeAllSpec(b.shards[s], refs);
    RetainPending(a.shards[s], b.shards[s], gone, pending);
    RetainPresent(a.shards[s], gone);
    RetainPresent(b.shards[s], gone);
  }

  lemma ClearAfter(routing: Routing, gone: set<Key>, pending: set<Key>, s: int, j: nat)
    requires Clear(routing, pending, s, j)
    ensures Clear(routing - gone, pending - gone, s, j)
  {}

  /** Nor does training both sides, should the batch raise only after that. */
  lemma TrainedAlike(c: Config, a: Disk, b: Disk, refs: seq<Key>, pending: set<Key>)
    requires Routed(a.shards, a.routing, c.numSlices) && Routed(b.shards, b.routing, c.numSlices)
    requires Alike(c, a, b, pending) && Reaches(c, a, refs) && Reaches(c, b, refs)
    ensures Alike(c, TrainedBy(c, a, refs), TrainedBy(c, b, refs), pending)
  {
    hide Retain, MinSlice, PurgeAll, Clear, SliceZero, Retrain, Fit, NoRepeats, SameSlices, Overwrite, Present;
    var x, y, gone := TrainedBy(c, a, refs), TrainedBy(c, b, refs), ToSet(refs);
    SavedAlike(c, a, b, refs, pending);
    AfterAlike(c, a, b, refs, pending);
    forall s | s in x.shards && Clear(x.routing, pending, s, 0)
      ensures s in x.preprocs && s in y.preprocs && x.preprocs[s] == y.preprocs[s]
    {
      ClearAfter(x.routing, gone, pending, s, 0);
    }
    forall s, j | s in x.shards && Clear(x.routing, pending, s, j) && j in CheckpointsOf(x.checkpoints, s)
      ensures j in CheckpointsOf(y.checkpoints, s)
              && CheckpointsOf(x.checkpoints, s)[j] == CheckpointsOf(y.checkpoints, s)[j]
    {
      ClearAfter(x.routing, gone, pending, s, j);
    }
  }

  /** The tree handed out depends on which subjects are on disk, not on their rows. */
  lemma SameTree(h: Hash, entries: Entries, s: int, x: Records, y: Records)
    requires Present(x) == Present(y)
    ensures TreeFor(h, entries, s, RefsOf(x)) == TreeFor(h, entries, s, RefsOf(y))
  {
    RefsPresent(x);
    RefsPresent(y);
    var p: seq<Key>, q: seq<Key> := AsKeys(RefsOf(x)), AsKeys(RefsOf(y));
    assert ToSet(p) == ToSet(q);
    forall k: Bytes ensures k in ToSet<Bytes>(p) <==> k in ToSet<Bytes>(q) {
      assert forall j: Key :: (j in p <==> j in ToSet(p)) && (j in q <==> j in ToSet(q));
    }
    AscendingUnique(p, q);
  }

  /** Nor does how the batch concludes, but for the weights the manifests name. */
  ghost predicate SameButWeights(p: map<Key, Manifest>, q: map<Key, Manifest>) {
    p.Keys == q.Keys && forall k | k in p :: p[k].(resultWeights := q[k].resultWeights) == q[k]
  }

  /** The same error, or the same certificates but for the weights they name. */
  ghost predicate SameOutcome(p: Outcome, q: Outcome) {
    if p.Raised? then q == p else q.Done? && SameButWeights(p.manifests, q.manifests)
  }

  lemma EndedWeights(h: Hash, routing: Routing, entries: Entries, before: SparseMerkleTree, a: Admission,
                     refs: seq<Key>, v: Digest, w: Digest, m: int, n: int)
    requires Fits(before.root, 0) && a.Admitted?
    ensures var p := Ended(routing, entries, Conclude(h, routing, entries, before, a, refs, v), m);
            var q := Ended(routing, entries, Conclude(h, routing, entries, before, a, refs, w), n);
            p.0 == q.0 && p.1 == q.1 && SameOutcome(p.2, q.2) && (p.2.Raised? ==> p.0 == routing)
  {
    hide Certify, PopAll;
  }

  /** The routing table a batch leaves: popped for the whole batch if it completed, or untouched. */
  lemma EndedRouting(h: Hash, routing: Routing, entries: Entries, before: SparseMerkleTree, a: Admission,
                     refs: seq<Key>, v: Digest, m: int)
    requires ValidEntries(h, entries) && before.Valid(h) && a.Admitted? && forall k | k in refs :: k in routing
    ensures var p := Ended(routing, entries, Conclude(h, routing, entries, before, a, refs, v), m);
            p.0 == if p.2.Done? then routing - ToSet(refs) else routing
  {
    hide Certify, PopAll, ValidEntries;
    ConcludeValid(h, routing, entries, before, a, refs, v);
  }

  /** One batch on both deployments, however it ends: it ends the same way on both, leaves equal caches,
      and if it completes, erases the difference its refs made. */
  lemma StepAlike(c: Config, a: Disk, b: Disk, entries: Entries, refs: seq<Key>, pending: set<Key>)
    requires ValidEntries(c.h, entries) && Alike(c, a, b, pending)
    requires Routed(a.shards, a.routing, c.numSlices) && Routed(b.shards, b.routing, c.numSlices)
    ensures var (x, ex, ox) := Rebuild(c, a, entries, refs); var (y, ey, oy) := Rebuild(c, b, entries, refs);
            SameOutcome(ox, oy) && ex == ey
            && Alike(c, x, y, if ox.Done? then pending - ToSet(refs) else pending)
            && Routed(x.shards, x.routing, c.numSlices) && Routed(y.shards, y.routing, c.numSlices)
  {
    hide Retain, MinSlice, PurgeAll, Conclude, TreeFor, Retrain, Overwrite, SliceZero, Fit, Rebuild, Routed,
         NoRepeats, SameButWeights, Clear, SameSlices, Present, Reaches, Saves, RaisedBy, Alike;
    SavesAlike(c, a, b, refs, pending);
    RebuildRaises(c, a, entries, refs);
    RebuildRaises(c, b, entries, refs);
    if Saves(a, refs) {
      SavesInRange(c, a, refs);
      SavesInRange(c, b, refs);
      SameShards(c, a, b, pending);
      AlikeSymmetric(c, a, b, pending);
      ReachesIffAlike(c, a, b, refs, pending);
      SavedRouted(c, a, refs);
      SavedRouted(c, b, refs);
      SavedAlike(c, a, b, refs, pending);
      if Reaches(c, a, refs) { TrainStepAlike(c, a, b, entries, refs, pending); }
    }
  }

  lemma SameShards(c: Config, a: Disk, b: Disk, pending: set<Key>)
    requires Alike(c, a, b, pending)
    ensures a.routing == b.routing && a.shards.Keys == b.shards.Keys
  {}

  lemma TrainingKeepsRoutes(c: Config, d: Disk, refs: seq<Key>)
    requires Reaches(c, d, refs)
    ensures TrainedBy(c, d, refs).routing == d.routing
    ensures Admit(d.routing, refs).Admitted? && Admit(d.routing, refs).shard in d.shards
  {}

  lemma SamePresent(c: Config, a: Disk, b: Disk, pending: set<Key>)
    requires Alike(c, a, b, pending)
    ensures forall s | s in a.shards :: s in b.shards && Present(a.shards[s]) == Present(b.shards[s])
  {}

  lemma ReachesIffAlike(c: Config, a: Disk, b: Disk, refs: seq<Key>, pending: set<Key>)
    requires Routed(a.shards, a.routing, c.numSlices) && Routed(b.shards, b.routing, c.numSlices)
    requires Alike(c, a, b, pending) && Alike(c, b, a, pending)
    ensures Reaches(c, a, refs) <==> Reaches(c, b, refs)
  {
    hide Alike, Reaches, Routed;
    if Reaches(c, a, refs) { ReachesAlike(c, a, b, refs, pending); }
    if Reaches(c, b, refs) { ReachesAlike(c, b, a, refs, pending); }
  }

  lemma SavedRouted(c: Config, d: Disk, refs: seq<Key>)
    requires Routed(d.shards, d.routing, c.numSlices) && Saves(d, refs)
    ensures Routed(SavedBy(d, refs).shards, d.routing, c.numSlices)
    ensures Routed(SavedBy(d, refs).shards, d.routing - ToSet(refs), c.numSlices)
  {
    hide Routed, PurgeAll, MinSlice, NoRepeats, Retain;
    SavesInRange(c, d, refs);
    RoutedAfter(d.shards, d.routing, c.numSlices, refs, d.routing);
    RoutedAfter(d.shards, d.routing, c.numSlices, refs, d.routing - ToSet(refs));
  }

  lemma TrainStepAlike(c: Config, a: Disk, b: Disk, entries: Entries, refs: seq<Key>, pending: set<Key>)
    requires ValidEntries(c.h, entries) && Alike(c, a, b, pending)
    requires Routed(a.shards, a.routing, c.numSlices) && Routed(b.shards, b.routing, c.numSlices)
    requires Reaches(c, a, refs) && Reaches(c, b, refs)
    ensures var (x, ex, ox) := Rebuild(c, a, entries, refs); var (y, ey, oy) := Rebuild(c, b, entries, refs);
            SameOutcome(ox, oy) && ex == ey
            && Alike(c, x, y, if ox.Done? then pending - ToSet(refs) else pending)
            && Routed(x.shards, x.routing, c.numSlices) && Routed(y.shards, y.routing, c.numSlices)
  {
    hide Retain, MinSlice, PurgeAll, Conclude, TreeFor, Retrain, Overwrite, SliceZero, Fit, Rebuild, Routed,
         NoRepeats, SameOutcome, Clear, SameSlices, Present, Ended, ValidEntries, Alike, TrainedBy, FinalWeights;
    SameShards(c, a, b, pending);
    SamePresent(c, a, b, pending);
    TrainingKeepsRoutes(c, a, refs);
    TrainingKeepsRoutes(c, b, refs);
    RebuildReaches(c, a, entries, refs);
    RebuildReaches(c, b, entries, refs);
    var ad := Admit(a.routing, refs);
    AdmittedFacts(a.routing, refs);
    var xs, ys := a.shards[ad.shard], b.shards[ad.shard];
    SameTree(c.h, entries, ad.shard, xs, ys);
    var before := TreeFor(c.h, entries, ad.shard, RefsOf(xs));
    var v := c.digest(FinalWeights(c, TrainedBy(c, a, refs), ad.shard));
    var w := c.digest(FinalWeights(c, TrainedBy(c, b, refs), ad.shard));
    var m, n := |xs| - |PurgeAll(xs, refs).value|, |ys| - |PurgeAll(ys, refs).value|;
    EndedWeights(c.h, a.routing, entries, before, ad, refs, v, w, m, n);
    EndedRouting(c.h, a.routing, entries, before, ad, refs, v, m);
    var p := Ended(a.routing, entries, Conclude(c.h, a.routing, entries, before, ad, refs, v), m);
    WrittenAlike(c, a, b, refs, pending, p.0, p.2.Done?);
    KindSame(Rebuild(c, a, entries, refs).2, Rebuild(c, b, entries, refs).2);
  }

  /** The files after training, with the routes popped or not. */
  lemma WrittenAlike(c: Config, a: Disk, b: Disk, refs: seq<Key>, pending: set<Key>, routing: Routing, done: bool)
    requires Alike(c, a, b, pending) && Reaches(c, a, refs) && Reaches(c, b, refs)
    requires Routed(a.shards, a.routing, c.numSlices) && Routed(b.shards, b.routing, c.numSlices)
    requires routing == if done then a.routing - ToSet(refs) else a.routing
    ensures var x, y := TrainedBy(c, a, refs).(routing := routing), TrainedBy(c, b, refs).(routing := routing);
            Alike(c, x, y, if done then pending - ToSet(refs) else pending)
            && Routed(x.shards, routing, c.numSlices) && Routed(y.shards, routing, c.numSlices)
  {
    hide Retain, MinSlice, PurgeAll, Retrain, Overwrite, SliceZero, Fit, Routed, NoRepeats, Clear, SameSlices, Present;
    if done { AfterAlike(c, a, b, refs, pending); } else { TrainedAlike(c, a, b, refs, pending); }
    SavedRouted(c, a, refs);
    SavedRouted(c, b, refs);
  }

  lemma KindSame(p: Outcome, q: Outcome)
    ensures SameOutcome(p, q) ==> (p.Done? <==> q.Done?)
  {}

  // ------------------------------------------------------------- whole runs

  lemma RebuildKeepsCache(c: Config, d: Disk, entries: Entries, refs: seq<Key>)
    requires ValidEntries(c.h, entries)
    ensures ValidEntries(c.h, Rebuild(c, d, entries, refs).1)
  {
    hide PurgeAll, TreeFor, Conclude, MinSlice, Retrain, Overwrite, SliceZero, Fit, ValidEntries, TrainedBy;
    RebuildReaches(c, d, entries, refs);
    if Reaches(c, d, refs) {
      var a := Admit(d.routing, refs);
      AdmittedFacts(d.routing, refs);
      ConcludeValid(c.h, d.routing, entries, TreeFor(c.h, entries, a.shard, RefsOf(d.shards[a.shard])), a, refs,
                    c.digest(FinalWeights(c, TrainedBy(c, d, refs), a.shard)));
    }
  }

  function Step(c: Config, w: World<Disk>, b: Batch): (after: World<Disk>)
    requires ValidCaches(c.h, w.caches)
    ensures ValidCaches(c.h, after.caches)
  {
    RebuildKeepsCache(c, w.disk, CacheOf(w.caches, b.worker), b.refs);
    var (disk, cached, _) := Rebuild(c, w.disk, CacheOf(w.caches, b.worker), b.refs);
    CachesAfter(c.h, w.caches, b.worker, cached);
    World(disk, w.caches[b.worker := cached])
  }

  function Run(c: Config, w: World<Disk>, batches: seq<Batch>): (after: World<Disk>)
    requires ValidCaches(c.h, w.caches)
    ensures ValidCaches(c.h, after.caches)
  {
    if batches == [] then w else Step(c, Run(c, w, batches[..|batches| - 1]), batches[|batches| - 1])
  }

  predicate AllDone(c: Config, w: World<Disk>, batches: seq<Batch>)
    requires ValidCaches(c.h, w.caches)
  {
    batches == []
    || (var init, b := batches[..|batches| - 1], batches[|batches| - 1];
        AllDone(c, w, init)
        && Rebuild(c, Run(c, w, init).disk, CacheOf(Run(c, w, init).caches, b.worker), b.refs).2.Done?)
  }

  /** A batch to be carried out, not refused before anything is written. */
  predicate Proper(w: World<Disk>, b: Batch) {
    Admit(w.disk.routing, b.refs).Admitted? && NoRepeats(b.refs)
  }

  /** If proper, the batch leaves slice 0 a row and its shard's cached tree is not another set's. */
  predicate SafeFor(c: Config, d: Disk, entries: Entries, refs: seq<Key>) {
    Admit(d.routing, refs).Admitted? && NoRepeats(refs) ==>
      var a := Admit(d.routing, refs);
      a.shard in d.shards && SliceZeroSurvives(d.shards[a.shard], refs)
      && !Clash(c.h, d.shards, d.routing, entries, refs)
  }

  predicate Safe(c: Config, w: World<Disk>, b: Batch) { SafeFor(c, w.disk, CacheOf(w.caches, b.worker), b.refs) }

  predicate AllSafe(c: Config, w: World<Disk>, batches: seq<Batch>)
    requires ValidCaches(c.h, w.caches)
  {
    batches == []
    || (var init := batches[..|batches| - 1];
        AllSafe(c, w, init) && Safe(c, Run(c, w, init), batches[|batches| - 1]))
  }

  predicate AllProper(c: Config, w: World<Disk>, batches: seq<Batch>)
    requires ValidCaches(c.h, w.caches)
  {
    batches == []
    || (var init := batches[..|batches| - 1];
        AllProper(c, w, init) && Proper(Run(c, w, init), batches[|batches| - 1]))
  }

  /** A safe batch on a healthy deployment completes with true manifests exactly when proper, and
      otherwise is refused untouched. */
  lemma SafeOutcome(c: Config, d: Disk, entries: Entries, refs: seq<Key>)
    requires ValidEntries(c.h, entries) && Healthy(c, d)
    requires SafeFor(c, d, entries, refs)
    ensures var (after, _, outcome) := Rebuild(c, d, entries, refs); var a := Admit(d.routing, refs);
            Healthy(c, after)
            && if a.Admitted? && NoRepeats(refs) then
                 outcome.Done? && a.shard in after.shards
                 && ManifestsTrue(c.h, a, refs, after.shards[a.shard], c.digest(FinalWeights(c, after, a.shard)),
                                  outcome.manifests)
               else after == d && outcome.Raised?
  {
    hide Routed, Complete, ManifestsTrue, Rebuild, SliceZeroSurvives, FinalWeights, Recached, MinSlice;
    var a := Admit(d.routing, refs);
    if !a.Admitted? {
      RefusedUntouched(c, d, entries, refs);
    } else if NoRepeats(refs) {
      RebuildOutcome(c, d, entries, refs);
    } else {
      AdmittedFacts(d.routing, refs);
      assert refs[0] in refs;
      RepeatsRefused(c, d, entries, refs);
    }
  }

  lemma RefusedUntouched(c: Config, d: Disk, entries: Entries, refs: seq<Key>)
    requires ValidEntries(c.h, entries) && !Admit(d.routing, refs).Admitted?
    ensures Rebuild(c, d, entries, refs) == (d, entries, Raised(Refused(Admit(d.routing, refs))))
  {}

  /** Runs of safe batches keep the deployment healthy, and complete exactly if all were proper. */
  lemma {:induction false} RunHealthy(c: Config, w: World<Disk>, batches: seq<Batch>)
    requires ValidCaches(c.h, w.caches) && Healthy(c, w.disk) && AllSafe(c, w, batches)
    ensures Healthy(c, Run(c, w, batches).disk)
    ensures AllDone(c, w, batches) <==> AllProper(c, w, batches)
  {
    hide Healthy, Rebuild, ManifestsTrue, FinalWeights, SafeFor, Admit;
    if batches != [] {
      var init, b := batches[..|batches| - 1], batches[|batches| - 1];
      RunHealthy(c, w, init);
      var before := Run(c, w, init);
      SafeOutcome(c, before.disk, CacheOf(before.caches, b.worker), b.refs);
    }
  }

  /** Whatever the files went through before, a batch that completes issues manifests that are true of
      the files it leaves and name the digest of the weights it stored, or the fingerprint collided. */
  lemma DoneManifestsTrue(c: Config, d: Disk, entries: Entries, refs: seq<Key>)
    requires ValidEntries(c.h, entries)
    ensures var (after, _, outcome) := Rebuild(c, d, entries, refs); var a := Admit(d.routing, refs);
            outcome.Done? ==>
              a.Admitted? && a.shard in d.shards && a.shard in after.shards
              && outcome.rowsPurged == |d.shards[a.shard]| - |after.shards[a.shard]|
              && (ManifestsTrue(c.h, a, refs, after.shards[a.shard], c.digest(FinalWeights(c, after, a.shard)),
                                outcome.manifests)
                  || Clash(c.h, d.shards, d.routing, entries, refs))
  {
    hide PurgeAll, TreeFor, Conclude, MinSlice, Retrain, Overwrite, SliceZero, Fit, ValidEntries, ManifestsTrue,
         Retain, Rebuild;
    RebuildReaches(c, d, entries, refs);
    if Reaches(c, d, refs) {
      var a := Admit(d.routing, refs);
      var rows := d.shards[a.shard];
      AdmittedFacts(d.routing, refs);
      PurgeAllSpec(rows, refs);
      RefsPresent(rows);
      TreeForAgrees(c.h, entries, a.shard, RefsOf(rows));
      if !Clash(c.h, d.shards, d.routing, entries, refs) {
        IssuedTrue(c.h, d.routing, entries, TreeFor(c.h, entries, a.shard, RefsOf(rows)), a, refs,
                   c.digest(FinalWeights(c, TrainedBy(c, d, refs), a.shard)), rows);
      }
    }
  }

  /** So along every run, after errors and an emptied slice 0 too, every manifest any batch issues is
      true of the disk. */
  lemma RunManifestsTrue(c: Config, w: World<Disk>, batches: seq<Batch>, n: nat)
    requires ValidCaches(c.h, w.caches) && n < |batches|
    ensures var before, refs := Run(c, w, batches[..n]), batches[n].refs;
            var entries := CacheOf(before.caches, batches[n].worker);
            var (after, _, outcome) := Rebuild(c, before.disk, entries, refs);
            var a := Admit(before.disk.routing, refs);
            after == Run(c, w, batches[..n + 1]).disk
            && (outcome.Done? ==>
                  a.Admitted? && a.shard in after.shards
                  && (ManifestsTrue(c.h, a, refs, after.shards[a.shard], c.digest(FinalWeights(c, after, a.shard)),
                                    outcome.manifests)
                      || Clash(c.h, before.disk.shards, before.disk.routing, entries, refs)))
  {
    hide Rebuild, ManifestsTrue, Clash, FinalWeights;
    assert batches[..n + 1][..n] == batches[..n];
    var before := Run(c, w, batches[..n]);
    DoneManifestsTrue(c, before.disk, CacheOf(before.caches, batches[n].worker), batches[n].refs);
  }

  /** And after a run of safe batches the next safe batch is refused untouched or completes. */
  lemma RunRefusedOrDone(c: Config, w: World<Disk>, batches: seq<Batch>, b: Batch)
    requires ValidCaches(c.h, w.caches) && Healthy(c, w.disk) && AllSafe(c, w, batches)
             && Safe(c, Run(c, w, batches), b)
    ensures var before := Run(c, w, batches);
            var (after, _, outcome) := Rebuild(c, before.disk, CacheOf(before.caches, b.worker), b.refs);
            var a := Admit(before.disk.routing, b.refs);
            if Proper(before, b) then
              outcome.Done? && a.shard in after.shards
              && ManifestsTrue(c.h, a, b.refs, after.shards[a.shard], c.digest(FinalWeights(c, after, a.shard)),
                               outcome.manifests)
            else after == before.disk && outcome.Raised?
  {
    hide Healthy, Rebuild, ManifestsTrue, FinalWeights, SafeFor, Admit, Run;
    RunHealthy(c, w, batches);
    var before := Run(c, w, batches);
    SafeOutcome(c, before.disk, CacheOf(before.caches, b.worker), b.refs);
  }

  function OutcomeOf(c: Config, w: World<Disk>, b: Batch): Outcome
    requires ValidCaches(c.h, w.caches)
  {
    Rebuild(c, w.disk, CacheOf(w.caches, b.worker), b.refs).2
  }

  /** How each batch of a run ends. */
  function Outcomes(c: Config, w: World<Disk>, batches: seq<Batch>): (r: seq<Outcome>)
    requires ValidCaches(c.h, w.caches)
    ensures |r| == |batches|
  {
    if batches == [] then []
    else
      var init := batches[..|batches| - 1];
      Outcomes(c, w, init) + [OutcomeOf(c, Run(c, w, init), batches[|batches| - 1])]
  }

  /** The subjects of the batches that completed. */
  function Erased(c: Config, w: World<Disk>, batches: seq<Batch>): set<Key>
    requires ValidCaches(c.h, w.caches)
  {
    if batches == [] then {}
    else
      var init, b := batches[..|batches| - 1], batches[|batches| - 1];
      Erased(c, w, init) + (if OutcomeOf(c, Run(c, w, init), b).Done? then ToSet(b.refs) else {})
  }

  ghost predicate SameOutcomes(p: seq<Outcome>, q: seq<Outcome>) {
    |p| == |q| && forall i | 0 <= i < |p| :: SameOutcome(p[i], q[i])
  }

  /** Any batches at all, completed, refused or failing half-way, on both deployments: every batch ends
      the same way on both, and what still differs is owed to subjects no completed batch erased. */
  lemma {:induction false} RunAlike(c: Config, v: World<Disk>, w: World<Disk>, batches: seq<Batch>, pending: set<Key>)
    requires ValidCaches(c.h, v.caches) && v.caches == w.caches && Alike(c, v.disk, w.disk, pending)
    requires Routed(v.disk.shards, v.disk.routing, c.numSlices) && Routed(w.disk.shards, w.disk.routing, c.numSlices)
    ensures SameOutcomes(Outcomes(c, v, batches), Outcomes(c, w, batches))
    ensures Erased(c, v, batches) == Erased(c, w, batches)
    ensures var x, y := Run(c, v, batches), Run(c, w, batches);
            x.caches == y.caches && Alike(c, x.disk, y.disk, pending - Erased(c, v, batches))
            && Routed(x.disk.shards, x.disk.routing, c.numSlices) && Routed(y.disk.shards, y.disk.routing, c.numSlices)
  {
    hide Rebuild, Routed, Alike, SameOutcome;
    if batches == [] {
      assert pending - Erased(c, v, batches) == pending;
    } else {
      var init, b := batches[..|batches| - 1], batches[|batches| - 1];
      RunAlike(c, v, w, init, pending);
      var x, y := Run(c, v, init), Run(c, w, init);
      var left := pending - Erased(c, v, init);
      StepAlike(c, x.disk, y.disk, CacheOf(x.caches, b.worker), b.refs, left);
      KindSame(OutcomeOf(c, x, b), OutcomeOf(c, y, b));
      assert left - ToSet(b.refs) == pending - (Erased(c, v, init) + ToSet(b.refs));
      assert left == pending - (Erased(c, v, init) + {});
    }
  }

  /** A deployment trained from scratch, shard by shard. */
  ghost predicate Bootstrapped(c: Config, d: Disk) {
    d.preprocs.Keys == d.shards.Keys && d.checkpoints.Keys == d.shards.Keys
    && forall s | s in d.shards ::
         d.preprocs[s] == Fit(c, d.shards[s]) && d.checkpoints[s] == Retrain(c, d.shards[s], 0, None)
  }

  lemma BootstrappedHealthy(c: Config, d: Disk)
    requires Bootstrapped(c, d) && Routed(d.shards, d.routing, c.numSlices) && NoStale(d.shards, d.routing)
    ensures Healthy(c, d)
  {
    hide Routed, Present;
    forall k, j | k in d.routing && 0 <= j < c.numSlices
      ensures j in CheckpointsOf(d.checkpoints, d.routing[k].shard)
    {
      assert d.routing[k].shard in d.shards;
    }
  }

  lemma BootstrappedAlike(c: Config, a: Disk, b: Disk, pending: set<Key>)
    requires Bootstrapped(c, a) && Bootstrapped(c, b)
    requires Routed(a.shards, a.routing, c.numSlices) && Routed(b.shards, b.routing, c.numSlices)
    requires a.routing == b.routing && a.shards.Keys == b.shards.Keys
    requires forall s | s in a.shards ::
               Retain(a.shards[s], pending) == Retain(b.shards[s], pending)
               && Present(a.shards[s]) == Present(b.shards[s])
    ensures Alike(c, a, b, pending)
  {
    hide Retain, Clear, Retrain, Fit, Present;
    forall s | s in a.shards && Clear(a.routing, pending, s, 0) ensures a.preprocs[s] == b.preprocs[s] {
      RowsOf(a.shards, a.routing, c.numSlices, s);
      RowsOf(b.shards, b.routing, c.numSlices, s);
      FitAgrees(c, a.shards[s], b.shards[s], a.routing, pending, s);
    }
    forall s, j | s in a.shards && Clear(a.routing, pending, s, j) && j in CheckpointsOf(a.checkpoints, s)
      ensures CheckpointsOf(a.checkpoints, s)[j] == CheckpointsOf(b.checkpoints, s)[j]
    {
      RowsOf(a.shards, a.routing, c.numSlices, s);
      RowsOf(b.shards, b.routing, c.numSlices, s);
      TouchedShard(c, a.shards[s], b.shards[s], a.routing, pending, s, 0, None, None, j);
    }
  }

  /** Noninterference over whole runs: train two corpora that agree except in the rows of some
      subjects, with one frozen shard and slice assignment, and run the same batches on both, whatever
      becomes of them. Every batch ends the same way on both; and once each of those subjects was in a
      batch that completed, shard files, preprocessors and the checkpoints of every slice are
      identical: nothing stored depends on an erased row. */
  lemma NothingErasedRemains(c: Config, a: Disk, b: Disk, caches: map<int, Entries>, batches: seq<Batch>,
                             secret: set<Key>)
    requires Bootstrapped(c, a) && Bootstrapped(c, b)
    requires Routed(a.shards, a.routing, c.numSlices) && Routed(b.shards, b.routing, c.numSlices)
    requires a.routing == b.routing && a.shards.Keys == b.shards.Keys
    requires forall s | s in a.shards ::
               Retain(a.shards[s], secret) == Retain(b.shards[s], secret)
               && Present(a.shards[s]) == Present(b.shards[s])
    requires ValidCaches(c.h, caches)
    ensures SameOutcomes(Outcomes(c, World(a, caches), batches), Outcomes(c, World(b, caches), batches))
    ensures secret <= Erased(c, World(a, caches), batches) ==>
              var x, y := Run(c, World(a, caches), batches), Run(c, World(b, caches), batches);
              x.caches == y.caches && SameStored(x.disk, y.disk)
  {
    hide Bootstrapped, Routed, Run, Outcomes, Erased, Step, SameOutcomes, Alike, SameStored;
    BootstrappedAlike(c, a, b, secret);
    var v, w := World(a, caches), World(b, caches);
    RunAlike(c, v, w, batches, secret);
    if secret <= Erased(c, v, batches) {
      assert secret - Erased(c, v, batches) == {};
      AlikeIsEqual(c, Run(c, v, batches).disk, Run(c, w, batches).disk);
    }
  }

  /** Shard files, routing, preprocessors and checkpoints are the same. */
  ghost predicate SameStored(x: Disk, y: Disk) {
    x.shards == y.shards && x.routing == y.routing
    && forall s | s in x.shards ::
         s in x.preprocs && s in y.preprocs && x.preprocs[s] == y.preprocs[s]
         && CheckpointsOf(x.checkpoints, s) == CheckpointsOf(y.checkpoints, s)
  }

  lemma AlikeIsEqual(c: Config, x: Disk, y: Disk)
    requires Alike(c, x, y, {})
    ensures SameStored(x, y)
  {
    forall s | s in x.shards ensures s in y.shards && x.shards[s] == y.shards[s] {
      RetainNothing(x.shards[s]);
      RetainNothing(y.shards[s]);
      assert Retain(x.shards[s], {}) == Retain(y.shards[s], {});
    }
    assert x.shards == y.shards;
    forall s | s in x.shards
      ensures s in x.preprocs && s in y.preprocs && x.preprocs[s] == y.preprocs[s]
              && CheckpointsOf(x.checkpoints, s) == CheckpointsOf(y.checkpoints, s)
    {
      NothingPending(x.routing, s, 0);
      var p, q := CheckpointsOf(x.checkpoints, s), CheckpointsOf(y.checkpoints, s);
      assert SameSlices(c, p, q);
      forall j: nat ensures j in p ==> j in q && p[j] == q[j] { NothingPending(x.routing, s, j); }
      assert p.Keys == q.Keys;
      assert p == q;
    }
  }

  lemma NothingPending(routing: Routing, s: int, j: nat)
    ensures Clear(routing, {}, s, j)
  {}

  /** A deployment of one subject, trained from scratch. */
  function Lone(c: Config, row: Row): Disk {
    Disk(map[0 := [row]], map[0 := Fit(c, [row])], map[0 := Retrain(c, [row], 0, None)],
         map[row.ref := Route(0, row.slice)])
  }

  /** Erasing that subject, of slice 0: the batch raises after the emptied shard file is saved. The
      subject stays routed, and every later batch for it is refused. */
  lemma LastOfSliceZero(c: Config, row: Row)
    requires row.slice == 0 < c.numSlices
    ensures Bootstrapped(c, Lone(c, row)) && Healthy(c, Lone(c, row))
    ensures var (after, _, outcome) := Rebuild(c, Lone(c, row), map[], [row.ref]);
            outcome == Raised(EmptySliceZero) && after.shards == map[0 := []]
            && after.routing == Lone(c, row).routing && !Healthy(c, after)
            && Rebuild(c, after, map[], [row.ref]) == (after, map[], Raised(NoRows))
  {
    hide Fit, Retrain, Rebuild, PurgeAll, ManifestsTrue;
    var d, refs := Lone(c, row), [row.ref];
    assert row in d.shards[0] && row.ref in Present(d.shards[0]);
    BootstrappedHealthy(c, d);
    assert refs[0] in refs;
    assert Admit(d.routing, refs) == Admitted(0, 0);
    RebuildOutcome(c, d, map[], refs);
    RebuildRaises(c, d, map[], refs);
    PurgeAllSpec([row], refs);
    PurgeAllSpec([], refs);
    assert row.ref in ToSet(refs) && Retain([row], ToSet(refs)) == [];
    var after := SavedBy(d, refs);
    assert after.shards == map[0 := []] && after.routing == d.routing;
    RebuildRaises(c, after, map[], refs);
  }
}
