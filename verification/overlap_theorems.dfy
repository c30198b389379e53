/** What overlapping rebuilds keep and what they lose. */
module OverlapTheorems {
  import opened Hashing
  import opened Ordering
  import opened SparseMerkle
  import opened SparseTree
  import opened SparseTheorems
  import opened TreeCache
  import opened Erasure
  import opened Overlap
  import Gbdt
  import Mlp
  import MlpTheorems

  // ------------------------------------------- when every erasure lasts

  /** The subjects of the batches that saved shard s. */
  function PurgedFrom<M>(f: Retrainer<M>, files: Files<M>, run: seq<Event>, n: nat, s: int): set<Key>
    requires n <= |run|
  {
    if n == 0 then {}
    else
      PurgedFrom(f, files, run, n - 1, s)
      + (if SavesRows(f, files, run, n - 1, s) then ToSet(StageAt(f, files, run, n - 1).refs) else {})
  }

  /** The subjects of the batches that published. */
  function Popped<M>(f: Retrainer<M>, files: Files<M>, run: seq<Event>, n: nat): set<Key>
    requires n <= |run|
  {
    if n == 0 then {}
    else
      Popped(f, files, run, n - 1)
      + (if Publishes(f, files, run, n - 1) then ToSet(StageAt(f, files, run, n - 1).refs) else {})
  }

  lemma {:induction false} PurgedGrows<M>(f: Retrainer<M>, files: Files<M>, run: seq<Event>, m: nat, n: nat, s: int)
    requires m <= n <= |run|
    ensures PurgedFrom(f, files, run, m, s) <= PurgedFrom(f, files, run, n, s)
  {
    hide SavesRows, StageAt;
    if m < n { PurgedGrows(f, files, run, m, n - 1, s); }
  }

  lemma {:induction false} PoppedGrows<M>(f: Retrainer<M>, files: Files<M>, run: seq<Event>, m: nat, n: nat)
    requires m <= n <= |run|
    ensures Popped(f, files, run, m) <= Popped(f, files, run, n)
  {
    hide Publishes, StageAt;
    if m < n { PoppedGrows(f, files, run, m, n - 1); }
  }

  /** The shard file holds its first rows but for the subjects purged from it. */
  ghost predicate FileKept<M>(f: Retrainer<M>, files: Files<M>, run: seq<Event>, s: int, n: nat)
    requires n <= |run|
  {
    Rows(f, files, run, n, s) == Retain(Rows(f, files, run, 0, s), PurgedFrom(f, files, run, n, s))
  }

  ghost predicate TableKept<M>(f: Retrainer<M>, files: Files<M>, run: seq<Event>, n: nat)
    requires n <= |run|
  {
    Table(f, files, run, n) == files.routing - Popped(f, files, run, n)
  }

  /** Whatever was purged from the shard between this batch's read and its save, it purges too. */
  ghost predicate SavesInTime<M>(f: Retrainer<M>, files: Files<M>, run: seq<Event>, j: nat, s: int)
    requires j < |run|
  {
    SavesRows(f, files, run, j, s) ==>
      var st := StageAt(f, files, run, j);
      st.rowsAt <= j
      && forall k | k in PurgedFrom(f, files, run, j, s) && k !in PurgedFrom(f, files, run, st.rowsAt, s)
                    && k in Present(Rows(f, files, run, 0, s)) :: k in st.refs
  }

  /** Whatever was popped from the table between this batch's read and its publication, it pops too. */
  ghost predicate PublishesInTime<M>(f: Retrainer<M>, files: Files<M>, run: seq<Event>, j: nat)
    requires j < |run|
  {
    Publishes(f, files, run, j) ==>
      var st := StageAt(f, files, run, j);
      st.routingAt <= j
      && forall k | k in Popped(f, files, run, j) && k !in Popped(f, files, run, st.routingAt)
                    && k in files.routing :: k in st.refs
  }

  /** A shard file loses exactly what its batches purged, at every moment, if and only if every save of it
      is in time. */
  lemma FilesKeptExactly<M>(f: Retrainer<M>, files: Files<M>, run: seq<Event>, s: int)
    ensures (forall n | 0 <= n <= |run| :: FileKept(f, files, run, s, n))
       <==> forall j | 0 <= j < |run| :: SavesInTime(f, files, run, j, s)
  {
    hide FileKept, SavesInTime;
    if forall n | 0 <= n <= |run| :: FileKept(f, files, run, s, n) {
      forall j | 0 <= j < |run| ensures SavesInTime(f, files, run, j, s) { KeptInTime(f, files, run, s, j); }
    }
    if forall j | 0 <= j < |run| :: SavesInTime(f, files, run, j, s) {
      forall n | 0 <= n <= |run| ensures FileKept(f, files, run, s, n) { InTimeKept(f, files, run, s, n); }
    }
  }

  lemma KeptInTime<M>(f: Retrainer<M>, files: Files<M>, run: seq<Event>, s: int, j: nat)
    requires j < |run| && forall n | 0 <= n <= |run| :: FileKept(f, files, run, s, n)
    ensures SavesInTime(f, files, run, j, s)
  {
    hide SavesRows, StageAt, Rows, Present, Retain, PurgedFrom;
    if SavesRows(f, files, run, j, s) {
      RowsStep(f, files, run, j, s);
      var st, first := StageAt(f, files, run, j), Rows(f, files, run, 0, s);
      assert FileKept(f, files, run, s, st.rowsAt) && FileKept(f, files, run, s, j + 1);
      RetainPresent(first, PurgedFrom(f, files, run, st.rowsAt, s));
      RetainPresent(first, PurgedFrom(f, files, run, j + 1, s));
      RetainPresent(Rows(f, files, run, st.rowsAt, s), ToSet(st.refs));
      PurgedGrows(f, files, run, j, j + 1, s);
      forall k ensures k in ToSet(st.refs) <==> k in st.refs {}
    }
  }

  lemma {:induction false} InTimeKept<M>(f: Retrainer<M>, files: Files<M>, run: seq<Event>, s: int, n: nat)
    requires n <= |run| && forall j | 0 <= j < |run| :: SavesInTime(f, files, run, j, s)
    ensures FileKept(f, files, run, s, n)
  {
    hide SavesRows, StageAt, Rows, Present, Retain;
    var first := Rows(f, files, run, 0, s);
    if n == 0 {
      Mlp.RetainNothing(first);
    } else {
      var j := n - 1;
      RowsStep(f, files, run, j, s);
      if SavesRows(f, files, run, j, s) {
        var st := StageAt(f, files, run, j);
        assert SavesInTime(f, files, run, j, s);
        InTimeKept(f, files, run, s, st.rowsAt);
        var before := PurgedFrom(f, files, run, st.rowsAt, s);
        RetainTwice(first, before, ToSet(st.refs));
        PurgedGrows(f, files, run, st.rowsAt, j, s);
        forall k ensures k in ToSet(st.refs) <==> k in st.refs {}
        RetainSame(first, before + ToSet(st.refs), PurgedFrom(f, files, run, n, s));
      } else {
        InTimeKept(f, files, run, s, j);
        assert PurgedFrom(f, files, run, n, s) == PurgedFrom(f, files, run, j, s);
      }
    }
  }

  /** routing.json loses exactly what was popped, at every moment, if and only if every publication, of
      whatever shard, is in time. */
  lemma TableKeptExactly<M>(f: Retrainer<M>, files: Files<M>, run: seq<Event>)
    ensures (forall n | 0 <= n <= |run| :: TableKept(f, files, run, n))
       <==> forall j | 0 <= j < |run| :: PublishesInTime(f, files, run, j)
  {
    hide TableKept, PublishesInTime;
    if forall n | 0 <= n <= |run| :: TableKept(f, files, run, n) {
      forall j | 0 <= j < |run| ensures PublishesInTime(f, files, run, j) { TableInTime(f, files, run, j); }
    }
    if forall j | 0 <= j < |run| :: PublishesInTime(f, files, run, j) {
      forall n | 0 <= n <= |run| ensures TableKept(f, files, run, n) { InTimeTable(f, files, run, n); }
    }
  }

  lemma TableInTime<M>(f: Retrainer<M>, files: Files<M>, run: seq<Event>, j: nat)
    requires j < |run| && forall n | 0 <= n <= |run| :: TableKept(f, files, run, n)
    ensures PublishesInTime(f, files, run, j)
  {
    hide Publishes, StageAt, Table, Popped;
    if Publishes(f, files, run, j) {
      TableStep(f, files, run, j);
      var st := StageAt(f, files, run, j);
      assert TableKept(f, files, run, st.routingAt) && TableKept(f, files, run, j + 1);
      PoppedGrows(f, files, run, j, j + 1);
      forall k ensures k in ToSet(st.refs) <==> k in st.refs {}
      forall k | k in Popped(f, files, run, j) && k !in Popped(f, files, run, st.routingAt) && k in files.routing
        ensures k in st.refs
      {
        assert k in Table(f, files, run, st.routingAt) && k !in Table(f, files, run, j + 1);
      }
    }
  }

  lemma {:induction false} InTimeTable<M>(f: Retrainer<M>, files: Files<M>, run: seq<Event>, n: nat)
    requires n <= |run| && forall j | 0 <= j < |run| :: PublishesInTime(f, files, run, j)
    ensures TableKept(f, files, run, n)
  {
    hide Publishes, StageAt, Table;
    if n == 0 {
      FirstTable(f, files, run);
      assert files.routing - {} == files.routing;
    } else {
      var j := n - 1;
      TableStep(f, files, run, j);
      if Publishes(f, files, run, j) {
        var st := StageAt(f, files, run, j);
        assert PublishesInTime(f, files, run, j);
        InTimeTable(f, files, run, st.routingAt);
        PoppedGrows(f, files, run, st.routingAt, j);
        forall k ensures k in ToSet(st.refs) <==> k in st.refs {}
        assert Table(f, files, run, n) == files.routing - Popped(f, files, run, n);
      } else {
        InTimeTable(f, files, run, j);
        assert Popped(f, files, run, n) == Popped(f, files, run, j);
      }
    }
  }

  lemma FirstTable<M>(f: Retrainer<M>, files: Files<M>, run: seq<Event>)
    ensures Table(f, files, run, 0) == files.routing
    ensures forall s | s in files.shards :: Rows(f, files, run, 0, s) == files.shards[s]
  {
    AtStart(f, files, run);
  }

  // --------------------------------------------------- routing and the files

  lemma {:induction false} SameFiles<M>(f: Retrainer<M>, files: Files<M>, run: seq<Event>, n: nat)
    requires n <= |run|
    ensures At(f, files, run, n).files.shards.Keys == files.shards.Keys
    ensures At(f, files, run, n).files.models.Keys == files.models.Keys
  {
    hide At;
    if n == 0 {
      AtStart(f, files, run);
    } else {
      SameFiles(f, files, run, n - 1);
      AtStep(f, files, run, n - 1);
      var w := run[n - 1].worker;
      if w in At(f, files, run, n - 1).stages {
        var st := At(f, files, run, n - 1).stages[w];
        StagesFaithful(f, files, run, n - 1);
        if st.rows.Some? { SameFiles(f, files, run, st.rowsAt); }
        if st.model.Some? { SameFiles(f, files, run, st.modelAt); }
      }
    }
  }

  /** No batch is between its save and its publication, or died there. */
  ghost predicate Settled<M>(f: Retrainer<M>, files: Files<M>, run: seq<Event>, n: nat)
    requires n <= |run|
  {
    forall k | k in files.routing ::
      k in Popped(f, files, run, n) <==> k in PurgedFrom(f, files, run, n, files.routing[k].shard)
  }

  /** Where nothing is late, whenever no batch is half-way, every routed subject has its rows and every
      row its route. */
  lemma TightWhenSettled<M>(f: Retrainer<M>, files: Files<M>, run: seq<Event>, n: nat, numSlices: nat)
    requires Routed(files.shards, files.routing, numSlices) && NoStale(files.shards, files.routing)
    requires n <= |run| && Settled(f, files, run, n) && TableKept(f, files, run, n)
    requires forall s | s in files.shards :: FileKept(f, files, run, s, n)
    ensures var now := At(f, files, run, n).files;
            Routed(now.shards, now.routing, numSlices) && NoStale(now.shards, now.routing)
  {
    hide At, Popped, PurgedFrom, Retain, Present;
    var now := At(f, files, run, n).files;
    SameFiles(f, files, run, n);
    FirstTable(f, files, run);
    forall s | s in files.shards
      ensures now.shards[s] == Retain(files.shards[s], PurgedFrom(f, files, run, n, s))
      ensures Present(now.shards[s]) == Present(files.shards[s]) - PurgedFrom(f, files, run, n, s)
    {
      assert FileKept(f, files, run, s, n);
      RetainPresent(files.shards[s], PurgedFrom(f, files, run, n, s));
    }
    assert now.routing == files.routing - Popped(f, files, run, n);
    forall s, r: Row | s in now.shards && r in now.shards[s]
      ensures r.ref in now.routing && now.routing[r.ref] == Route(s, r.slice) && r.slice < numSlices
    {
      RetainMembers(files.shards[s], PurgedFrom(f, files, run, n, s), r);
      assert r in files.shards[s] && r.ref in files.routing && files.routing[r.ref].shard == s;
    }
    forall k | k in now.routing
      ensures now.routing[k].shard in now.shards && k in Present(now.shards[now.routing[k].shard])
    {
      assert k in files.routing && files.routing[k].shard in files.shards;
    }
  }

  /** Rows and routes only ever leave, so what stands matches what stood first. */
  lemma {:induction false} OnlyLeave<M>(f: Retrainer<M>, files: Files<M>, run: seq<Event>, n: nat, s: int)
    requires n <= |run|
    ensures forall r | r in Rows(f, files, run, n, s) :: r in Rows(f, files, run, 0, s)
    ensures forall k | k in Table(f, files, run, n) ::
              k in files.routing && Table(f, files, run, n)[k] == files.routing[k]
  {
    hide SavesRows, Publishes, StageAt, Rows, Table, Retain;
    if n == 0 {
      FirstTable(f, files, run);
    } else {
      OnlyLeave(f, files, run, n - 1, s);
      RowsStep(f, files, run, n - 1, s);
      TableStep(f, files, run, n - 1);
      var st := StageAt(f, files, run, n - 1);
      if SavesRows(f, files, run, n - 1, s) {
        OnlyLeave(f, files, run, st.rowsAt, s);
        forall r: Row { RetainMembers(Rows(f, files, run, st.rowsAt, s), ToSet(st.refs), r); }
      }
      if Publishes(f, files, run, n - 1) { OnlyLeave(f, files, run, st.routingAt, s); }
    }
  }

  // ------------------------------------------------------------- manifests

  /** What an overlapped batch certifies, leaving with a tree that stood for the rows it read: manifests are
      issued only if true of the rows it wrote, and so of those in the file at any moment n if and only if
      the same subjects have rows there then. */
  lemma OverlappedManifests<M>(h: Hash, f: Retrainer<M>, files: Files<M>, run: seq<Event>, j: nat, n: nat,
                               entries: Entries, before: SparseMerkleTree, rows: Records, weights: Digest)
    requires j < |run| && n <= |run| && Publishes(f, files, run, j) && StageAt(f, files, run, j).rows == Some(rows)
    requires before.Valid(h) && before.present == Present(rows)
    ensures var st := StageAt(f, files, run, j);
            var a, left, now := st.Admission(), Retain(rows, ToSet(st.refs)), Rows(f, files, run, n, st.Shard());
            a.Admitted?
            && var r := Conclude(h, st.routing, entries, before, a, st.refs, weights);
               r.Issued? ==>
                 ManifestsTrue(h, a, st.refs, left, weights, r.manifests)
                 && (Present(now) == Present(left) ==> ManifestsTrue(h, a, st.refs, now, weights, r.manifests))
                 && (ManifestsTrue(h, a, st.refs, now, weights, r.manifests) ==>
                       Present(now) == Present(left)
                       || (FullRoot(h, Present(now), 0) == FullRoot(h, Present(left), 0)
                           && Collides(h, BindingClash(h, Present(now), Present(left), 0))))
  {
    hide Conclude, ManifestsTrue, Retain, Present, FullRoot, BindingClash, Rows, At, Drops;
    StagesFaithful(f, files, run, j);
    var st := StageAt(f, files, run, j);
    AdmittedFacts(st.routing, st.refs);
    var r := Conclude(h, st.routing, entries, before, st.Admission(), st.refs, weights);
    IssuedTrue(h, st.routing, entries, before, st.Admission(), st.refs, weights, rows);
    if r.Issued? {
      TrueOfSameSubjects(h, st.Admission(), st.refs, st.Left(), Rows(f, files, run, n, st.Shard()), weights,
                         r.manifests);
    }
  }

  // ------------------------------------- one batch alone is the engine's batch

  function Alone(w: int, refs: seq<Key>): seq<Event> {
    [Begin(w, refs), ReadRows(w), ReadModel(w), SaveRows(w), SaveModel(w), Publish(w)]
  }

  /** A batch that nobody interrupts: what it reads, saves and publishes, one after the other. */
  lemma AloneRuns<M>(f: Retrainer<M>, files: Files<M>, w: int, refs: seq<Key>)
    requires Admit(files.routing, refs).Admitted?
    requires var s := Admit(files.routing, refs).shard;
             s in files.shards && s in files.models && Drops(files.shards[s], refs)
    ensures var a := Admit(files.routing, refs); var left := Retain(files.shards[a.shard], ToSet(refs));
            var saved := files.(shards := files.shards[a.shard := left],
                                models := files.models[a.shard := f(files.models[a.shard], left, a.minSlice)]);
            At(f, files, Alone(w, refs), 5).files == saved
            && At(f, files, Alone(w, refs), 6).files == saved.(routing := files.routing - ToSet(refs))
  {
    hide At, Retain, MinSlice, Admit;
    var run := Alone(w, refs);
    AtStart(f, files, run);
    AtStep(f, files, run, 0);
    AtStep(f, files, run, 1);
    AtStep(f, files, run, 2);
    AtStep(f, files, run, 3);
    AtStep(f, files, run, 4);
    AtStep(f, files, run, 5);
  }

  /** The boosted-forest engine: roll back, boost on. */
  function Forest(c: Gbdt.Config): Retrainer<Gbdt.Booster> {
    (b: Gbdt.Booster, left: Records, m: nat) =>
      Gbdt.ResumeHasBooster(c, left, m, b);
      Gbdt.TrainShard(c, left, m, Gbdt.Rollback(c, b, m)).value
  }

  function ForestFiles(d: Gbdt.Disk): Files<Gbdt.Booster> { Files(d.shards, d.boosters, d.routing) }

  /** The boosted-forest batch is such a run, cut short after the save if it raises there. */
  lemma ForestBatchIsRun(c: Gbdt.Config, d: Gbdt.Disk, entries: Entries, refs: seq<Key>, w: int)
    requires ValidEntries(c.h, entries)
    ensures var (after, _, outcome) := Gbdt.Rebuild(c, d, entries, refs);
            after == d
            || ForestFiles(after) == At(Forest(c), ForestFiles(d), Alone(w, refs), if outcome.Done? then 6 else 5).files
  {
    hide Gbdt.Rebuild, At, Gbdt.TrainShard, Gbdt.Rollback, MinSlice, ValidEntries;
    Gbdt.RebuildKeepsRoutes(c, d, entries, refs);
    Gbdt.RebuildSaves(c, d, entries, refs);
    if Gbdt.Rebuild(c, d, entries, refs).0 != d { AloneRuns(Forest(c), ForestFiles(d), w, refs); }
  }

  /** The network engine's shard files and table; its weights are not followed here. */
  function NetworkFiles(d: Mlp.Disk): Files<()> { Files(d.shards, map s | s in d.shards :: (), d.routing) }

  function Network(): Retrainer<()> { (m: (), left: Records, slice: nat) => () }

  lemma NetworkBatchIsRun(c: Mlp.Config, d: Mlp.Disk, entries: Entries, refs: seq<Key>, w: int)
    requires ValidEntries(c.h, entries) && Routed(d.shards, d.routing, c.numSlices)
    ensures var (after, _, outcome) := Mlp.Rebuild(c, d, entries, refs);
            after == d
            || NetworkFiles(after)
               == At(Network(), NetworkFiles(d), Alone(w, refs), if outcome.Done? then 6 else 5).files
  {
    hide Mlp.Rebuild, At, MinSlice, ValidEntries, Mlp.PurgeAll, MlpTheorems.Reaches, Routed, NoRepeats;
    MlpTheorems.RebuildSaves(c, d, entries, refs);
    if MlpTheorems.Saves(d, refs) {
      MlpTheorems.SavesInRange(c, d, refs);
      SavingDrops(d, refs);
      AloneRuns(Network(), NetworkFiles(d), w, refs);
    }
  }

  lemma SavingDrops(d: Mlp.Disk, refs: seq<Key>)
    requires MlpTheorems.Saves(d, refs)
    ensures Drops(d.shards[Admit(d.routing, refs).shard], refs)
  {
    hide Mlp.PurgeAll, MinSlice, NoRepeats;
    var rows := d.shards[Admit(d.routing, refs).shard];
    Mlp.PurgeAllSpec(rows, refs);
    RetainSize(rows, ToSet(refs));
    assert refs[0] in refs && refs[0] in ToSet(refs);
  }

  // ------------------------------------------------------- two workers too many

  lemma AdmitOne(routing: Routing, k: Key)
    requires k in routing
    ensures Admit(routing, [k]) == Admitted(routing[k].shard, routing[k].minSlice) && ToSet([k]) == {k}
  {
    assert [k][0] in [k];
    assert forall x | x in [k] :: x == k;
  }

  /** Worker 1 erases k and worker 2 erases l, each reading before the other writes. */
  function Crossed(k: Key, l: Key): seq<Event> {
    [Begin(1, [k]), ReadRows(1), ReadModel(1), Begin(2, [l]), ReadRows(2), ReadModel(2),
     SaveRows(1), SaveModel(1), Publish(1), SaveRows(2), SaveModel(2), Publish(2)]
  }

  /** A batch that has read everything at once. */
  function Read<M>(files: Files<M>, k: Key, at: nat): Stage<M>
    requires k in files.routing && files.routing[k].shard in files.shards && files.routing[k].shard in files.models
  {
    var s := files.routing[k].shard;
    Stage([k], files.routing, at, Some(files.shards[s]), at + 1, Some(files.models[s]), at + 2, false, 0, false)
  }

  /** Three reads in a row. */
  lemma Reads<M>(f: Retrainer<M>, files: Files<M>, run: seq<Event>, n: nat, w: int, k: Key)
    requires n + 3 <= |run| && run[n] == Begin(w, [k]) && run[n + 1] == ReadRows(w) && run[n + 2] == ReadModel(w)
    requires var now := At(f, files, run, n).files;
             k in now.routing && now.routing[k].shard in now.shards && now.routing[k].shard in now.models
    ensures var before, after := At(f, files, run, n), At(f, files, run, n + 3);
            after.files == before.files && after.stages == before.stages[w := Read(before.files, k, n)]
  {
    hide At, Admit;
    StagesFaithful(f, files, run, n);
    StagesFaithful(f, files, run, n + 1);
    StagesFaithful(f, files, run, n + 2);
    AdmitOne(At(f, files, run, n).files.routing, k);
    AtStep(f, files, run, n);
    AtStep(f, files, run, n + 1);
    AtStep(f, files, run, n + 2);
  }

  /** Three writes in a row. */
  lemma Finishes<M>(f: Retrainer<M>, files: Files<M>, run: seq<Event>, n: nat, w: int)
    requires n + 3 <= |run| && run[n] == SaveRows(w) && run[n + 1] == SaveModel(w) && run[n + 2] == Publish(w)
    requires CanSaveRows(At(f, files, run, n), w) && !At(f, files, run, n).stages[w].stored
    ensures var before, after := At(f, files, run, n), At(f, files, run, n + 3); var st := before.stages[w];
            st.Admission().Admitted?
            && after.files == Files(before.files.shards[st.Shard() := st.Left()],
                                    before.files.models[st.Shard() :=
                                      f(st.model.value, st.Left(), st.Admission().minSlice)],
                                    st.routing - ToSet(st.refs))
            && after.stages == before.stages - {w}
  {
    hide At, Admit, Retain;
    StagesFaithful(f, files, run, n);
    AtStep(f, files, run, n);
    AtStep(f, files, run, n + 1);
    AtStep(f, files, run, n + 2);
  }

  /** Both batches have read, and nothing is written yet; then one after the other writes everything. */
  lemma CrossedRuns<M>(f: Retrainer<M>, files: Files<M>, k: Key, l: Key)
    requires k in files.routing && files.routing[k].shard in files.shards && files.routing[k].shard in files.models
    requires l in files.routing && files.routing[l].shard in files.shards && files.routing[l].shard in files.models
    requires Drops(files.shards[files.routing[k].shard], [k]) && Drops(files.shards[files.routing[l].shard], [l])
    ensures var s, t := files.routing[k].shard, files.routing[l].shard;
            var left, right := Retain(files.shards[s], {k}), Retain(files.shards[t], {l});
            var done, end := At(f, files, Crossed(k, l), 9).files, At(f, files, Crossed(k, l), 12).files;
            done.shards == files.shards[s := left] && done.routing == files.routing - {k}
            && end.shards == done.shards[t := right] && end.routing == files.routing - {l}
  {
    hide At, Retain, Drops;
    var run := Crossed(k, l);
    AdmitOne(files.routing, k);
    AdmitOne(files.routing, l);
    AtStart(f, files, run);
    Reads(f, files, run, 0, 1, k);
    Reads(f, files, run, 3, 2, l);
    Finishes(f, files, run, 6, 1);
    Finishes(f, files, run, 9, 2);
  }

  /** On one shard: k's batch completed, yet k's row is back in the file and k back in the table, and the
      two agree, as if only the other batch had ever run. */
  lemma ErasureUndone<M>(f: Retrainer<M>, m: M, k: Key, l: Key)
    requires k != l
    ensures var a, b := Row([], k, 0), Row([], l, 0);
            var files := Files(map[0 := [a, b]], map[0 := m], map[k := Route(0, 0), l := Route(0, 0)]);
            var done, end := At(f, files, Crossed(k, l), 9).files, At(f, files, Crossed(k, l), 12).files;
            done.shards == map[0 := [b]] && done.routing == map[l := Route(0, 0)]
            && end.shards == map[0 := [a]] && end.routing == map[k := Route(0, 0)]
            && Routed(end.shards, end.routing, 1) && NoStale(end.shards, end.routing)
  {
    hide At, Crossed;
    var a, b := Row([], k, 0), Row([], l, 0);
    var routing := map[k := Route(0, 0), l := Route(0, 0)];
    var files := Files(map[0 := [a, b]], map[0 := m], routing);
    RetainPair(a, b);
    assert routing - {k} == map[l := Route(0, 0)] && routing - {l} == map[k := Route(0, 0)];
    SingletonSet(k);
    SingletonSet(l);
    CrossedRuns(f, files, k, l);
    LoneTight(a);
  }

  lemma SingletonSet(k: Key)
    ensures ToSet([k]) == {k}
  {
    assert [k][0] in [k];
    assert forall x | x in [k] :: x == k;
  }

  lemma LoneTight(a: Row)
    requires a.slice == 0
    ensures Routed(map[0 := [a]], map[a.ref := Route(0, 0)], 1) && NoStale(map[0 := [a]], map[a.ref := Route(0, 0)])
  {
    assert a in [a];
  }

  lemma RetainPair(a: Row, b: Row)
    requires a.ref != b.ref
    ensures Retain([a, b], {a.ref}) == [b] && Retain([a, b], {b.ref}) == [a]
  {
    assert [a, b][1..] == [b] && [b][1..] == [];
    assert Retain([b], {a.ref}) == [b] && Retain([b], {b.ref}) == [];
  }

  /** Two shards of two subjects each, all in slice 0. */
  function TwoShards<M>(m: M, k: Key, x: Key, l: Key, y: Key): Files<M> {
    Files(map[0 := [Row([], k, 0), Row([], x, 0)], 1 := [Row([], l, 0), Row([], y, 0)]], map[0 := m, 1 := m],
          map[k := Route(0, 0), x := Route(0, 0), l := Route(1, 0), y := Route(1, 0)])
  }

  lemma TwoShardsTight<M>(m: M, k: Key, x: Key, l: Key, y: Key)
    requires k != l && x != y && x != k && x != l && y != k && y != l
    ensures var files := TwoShards(m, k, x, l, y);
            Routed(files.shards, files.routing, 1) && NoStale(files.shards, files.routing)
  {
    var files := TwoShards(m, k, x, l, y);
    assert Row([], k, 0) in files.shards[0] && Row([], x, 0) in files.shards[0];
    assert Row([], l, 0) in files.shards[1] && Row([], y, 0) in files.shards[1];
  }

  /** On two shards, each keeping a subject of slice 0, so that both engines get through: both files lose
      the row asked for, but k's popped route is back, with no row to it. */
  lemma RouteReturns<M>(f: Retrainer<M>, m: M, k: Key, x: Key, l: Key, y: Key)
    requires k != l && x != y && x != k && x != l && y != k && y != l
    ensures var files := TwoShards(m, k, x, l, y);
            var end := At(f, files, Crossed(k, l), 12).files;
            Routed(files.shards, files.routing, 1) && NoStale(files.shards, files.routing)
            && end.shards == map[0 := [Row([], x, 0)], 1 := [Row([], y, 0)]]
            && end.routing == files.routing - {l} && k in end.routing && !NoStale(end.shards, end.routing)
  {
    hide At, Crossed, Routed, NoStale, Retain, Drops;
    var files := TwoShards(m, k, x, l, y);
    TwoShardsTight(m, k, x, l, y);
    TwoShardsPurged(m, k, x, l, y);
    CrossedRuns(f, files, k, l);
  }

  lemma TwoShardsPurged<M>(m: M, k: Key, x: Key, l: Key, y: Key)
    requires k != l && x != y && x != k && x != l && y != k && y != l
    ensures var files, c, d := TwoShards(m, k, x, l, y), Row([], x, 0), Row([], y, 0);
            Retain(files.shards[0], {k}) == [c] && Drops(files.shards[0], [k])
            && Retain(files.shards[1], {l}) == [d] && Drops(files.shards[1], [l])
            && files.shards[0 := [c]][1 := [d]] == map[0 := [c], 1 := [d]]
            && !NoStale(map[0 := [c], 1 := [d]], files.routing - {l})
  {
    hide Retain;
    RetainPair(Row([], k, 0), Row([], x, 0));
    RetainPair(Row([], l, 0), Row([], y, 0));
    SingletonSet(k);
    SingletonSet(l);
    var files := TwoShards(m, k, x, l, y);
    assert k in files.routing - {l} && k !in Present([Row([], x, 0)]);
  }
}
