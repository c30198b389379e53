/** Which booster stands beside which rows when rebuilds overlap. A shard's rows and its booster are two
    files, read one after the other and written one after the other. */
module OverlapModels {
  import opened Hashing
  import opened Ordering
  import opened Erasure
  import opened Overlap
  import opened OverlapTheorems
  import opened Boosting
  import Gbdt

  // --------------------------------------------------- who wrote which file

  function Model<M>(f: Retrainer<M>, files: Files<M>, run: seq<Event>, n: nat, s: int): Option<M>
    requires n <= |run|
  {
    var at := At(f, files, run, n).files.models;
    if s in at then Some(at[s]) else None
  }

  /** The moment after the rows of shard s were last written, 0 if they are the first. */
  function RowsBy<M>(f: Retrainer<M>, files: Files<M>, run: seq<Event>, n: nat, s: int): (v: nat)
    requires n <= |run|
    ensures v <= n
  {
    if n == 0 then 0 else if SavesRows(f, files, run, n - 1, s) then n else RowsBy(f, files, run, n - 1, s)
  }

  /** The moment after the batch whose model is in place wrote its rows, 0 if the model is the first. */
  function ModelBy<M>(f: Retrainer<M>, files: Files<M>, run: seq<Event>, n: nat, s: int): nat
    requires n <= |run|
  {
    if n == 0 then 0
    else if SavesModel(f, files, run, n - 1, s) then StageAt(f, files, run, n - 1).savedAt + 1
    else ModelBy(f, files, run, n - 1, s)
  }

  /** Rows and model in place are one batch's. */
  predicate Paired<M>(f: Retrainer<M>, files: Files<M>, run: seq<Event>, n: nat, s: int)
    requires n <= |run|
  {
    RowsBy(f, files, run, n, s) == ModelBy(f, files, run, n, s)
  }

  /** The rows and the model that event j's batch read are one batch's. */
  predicate ReadsPair<M>(f: Retrainer<M>, files: Files<M>, run: seq<Event>, j: nat, s: int)
    requires j < |run|
  {
    SavesModel(f, files, run, j, s) ==>
      var st := StageAt(f, files, run, j);
      st.rowsAt <= |run| && st.modelAt <= |run|
      && RowsBy(f, files, run, st.rowsAt, s) == ModelBy(f, files, run, st.modelAt, s)
  }

  /** A model is what its batch made of the rows and the model it read; otherwise it stays. */
  lemma ModelStep<M>(f: Retrainer<M>, files: Files<M>, run: seq<Event>, j: nat, s: int)
    requires j < |run|
    ensures if SavesModel(f, files, run, j, s) then
              var st := StageAt(f, files, run, j);
              st.Admission().Admitted? && st.Shard() == s && st.routingAt < st.rowsAt < st.modelAt < st.savedAt < j
              && st.routing == Table(f, files, run, st.routingAt)
              && st.rows == Some(Rows(f, files, run, st.rowsAt, s)) && Drops(st.rows.value, st.refs)
              && st.model.Some? && st.model == Model(f, files, run, st.modelAt, s)
              && SavesRows(f, files, run, st.savedAt, s) && Rows(f, files, run, st.savedAt + 1, s) == st.Left()
              && Model(f, files, run, j + 1, s) == Some(f(st.model.value, st.Left(), st.Admission().minSlice))
            else Model(f, files, run, j + 1, s) == Model(f, files, run, j, s)
  {
    hide At, Retain, Admit, Drops;
    AtStep(f, files, run, j);
    StagesFaithful(f, files, run, j);
  }

  lemma {:induction false} RowsSince<M>(f: Retrainer<M>, files: Files<M>, run: seq<Event>, n: nat, s: int)
    requires n <= |run|
    ensures Rows(f, files, run, n, s) == Rows(f, files, run, RowsBy(f, files, run, n, s), s)
  {
    hide SavesRows, StageAt, Rows;
    if n > 0 && !SavesRows(f, files, run, n - 1, s) {
      RowsStep(f, files, run, n - 1, s);
      RowsSince(f, files, run, n - 1, s);
    }
  }

  lemma {:induction false} ModelByBound<M>(f: Retrainer<M>, files: Files<M>, run: seq<Event>, n: nat, s: int)
    requires n <= |run|
    ensures ModelBy(f, files, run, n, s) <= n
  {
    hide SavesModel, StageAt;
    if n > 0 {
      ModelStep(f, files, run, n - 1, s);
      ModelByBound(f, files, run, n - 1, s);
    }
  }

  // ----------------------------------------- reads and writes that belong together

  lemma {:induction false} RowsByUntil<M>(f: Retrainer<M>, files: Files<M>, run: seq<Event>, m: nat, n: nat, s: int)
    requires m <= n <= |run|
    ensures RowsBy(f, files, run, m, s) <= RowsBy(f, files, run, n, s)
    ensures RowsBy(f, files, run, m, s) == RowsBy(f, files, run, n, s)
       <==> forall i | m <= i < n :: !SavesRows(f, files, run, i, s)
  {
    hide SavesRows;
    if m < n { RowsByUntil(f, files, run, m, n - 1, s); }
  }

  lemma {:induction false} ModelByUntil<M>(f: Retrainer<M>, files: Files<M>, run: seq<Event>, m: nat, n: nat, s: int)
    requires m <= n <= |run| && forall i | m <= i < n :: !SavesModel(f, files, run, i, s)
    ensures ModelBy(f, files, run, m, s) == ModelBy(f, files, run, n, s)
  {
    hide SavesModel, StageAt;
    if m < n { ModelByUntil(f, files, run, m, n - 1, s); }
  }

  /** Once a batch has written both, they are a pair if and only if nobody wrote rows in between. */
  lemma PairedAfter<M>(f: Retrainer<M>, files: Files<M>, run: seq<Event>, j: nat, s: int)
    requires j < |run| && SavesModel(f, files, run, j, s)
    ensures Paired(f, files, run, j + 1, s)
       <==> forall i | StageAt(f, files, run, j).savedAt < i < j :: !SavesRows(f, files, run, i, s)
  {
    hide StageAt, SavesRows, SavesModel, Rows, Model, Table;
    ModelStep(f, files, run, j, s);
    NotRows(f, files, run, j, s);
    var i := StageAt(f, files, run, j).savedAt;
    assert RowsBy(f, files, run, i + 1, s) == i + 1;
    assert RowsBy(f, files, run, j + 1, s) == RowsBy(f, files, run, j, s);
    RowsByUntil(f, files, run, i + 1, j, s);
  }

  lemma NotRows<M>(f: Retrainer<M>, files: Files<M>, run: seq<Event>, j: nat, s: int)
    requires SavesModel(f, files, run, j, s)
    ensures !SavesRows(f, files, run, j, s)
  {}

  /** A batch reads a pair if they were one when it read the rows and nobody wrote the model before it
      read that too. */
  lemma QuietReads<M>(f: Retrainer<M>, files: Files<M>, run: seq<Event>, j: nat, s: int)
    requires SavesModel(f, files, run, j, s)
    requires var st := StageAt(f, files, run, j);
             st.rowsAt <= |run| && Paired(f, files, run, st.rowsAt, s)
             && forall i | st.rowsAt <= i < st.modelAt :: !SavesModel(f, files, run, i, s)
    ensures ReadsPair(f, files, run, j, s)
  {
    hide StageAt;
    ModelStep(f, files, run, j, s);
    var st := StageAt(f, files, run, j);
    ModelByUntil(f, files, run, st.rowsAt, st.modelAt, s);
  }

  // ------------------------------------------------- boosters of settled shards

  /** However batches overlap otherwise: if each batch of a shard read a pair, every booster is the clean
      retrain of the rows its own batch wrote, and so of the rows in place whenever the two are a pair;
      resurrected rows included. */
  lemma {:induction false} PairsAreExact(c: Gbdt.Config, files: Files<Gbdt.Booster>, run: seq<Event>, n: nat, s: int)
    requires Routed(files.shards, files.routing, c.numSlices) && n <= |run|
    requires s in files.shards && s in files.models && files.models[s] == Gbdt.Clean(c, files.shards[s])
    requires forall j | 0 <= j < n :: ReadsPair(Forest(c), files, run, j, s)
    ensures var f := Forest(c); var v := ModelBy(f, files, run, n, s);
            v <= n && Model(f, files, run, n, s) == Some(Gbdt.Clean(c, Rows(f, files, run, v, s)))
            && (Paired(f, files, run, n, s) ==>
                  Model(f, files, run, n, s) == Some(Gbdt.Clean(c, Rows(f, files, run, n, s))))
  {
    hide At, Gbdt.Clean, Retain, Gbdt.TrainShard, Gbdt.Rollback, Routed, StageAt, SavesModel, SavesRows, Rows, Model;
    var f := Forest(c);
    ModelByBound(f, files, run, n, s);
    RowsSince(f, files, run, n, s);
    if n == 0 {
      FirstModel(f, files, run, s);
    } else {
      ModelStep(f, files, run, n - 1, s);
      PairsAreExact(c, files, run, n - 1, s);
      if SavesModel(f, files, run, n - 1, s) {
        var st := StageAt(f, files, run, n - 1);
        assert ReadsPair(f, files, run, n - 1, s);
        PairsAreExact(c, files, run, st.modelAt, s);
        RowsSince(f, files, run, st.rowsAt, s);
        RebuiltIsClean(c, files, run, st, s);
      }
    }
  }

  /** Event j's batch of shard s read and wrote without the others: rows and model were one batch's when it
      read the rows, nobody wrote the model before it read that, and nobody wrote rows between its writes. */
  ghost predicate Undisturbed<M>(f: Retrainer<M>, files: Files<M>, run: seq<Event>, j: nat, s: int)
    requires j < |run|
  {
    SavesModel(f, files, run, j, s) ==>
      var st := StageAt(f, files, run, j);
      st.rowsAt <= |run| && Paired(f, files, run, st.rowsAt, s)
      && (forall i | st.rowsAt <= i < st.modelAt :: !SavesModel(f, files, run, i, s))
      && forall i | st.savedAt < i < j :: !SavesRows(f, files, run, i, s)
  }

  /** So undisturbed batches, which may still overlap with others' training and bring erased rows back,
      leave the clean retrain of the rows in the file each time one is through. */
  lemma UndisturbedExact(c: Gbdt.Config, files: Files<Gbdt.Booster>, run: seq<Event>, n: nat, s: int)
    requires Routed(files.shards, files.routing, c.numSlices) && n < |run|
    requires s in files.shards && s in files.models && files.models[s] == Gbdt.Clean(c, files.shards[s])
    requires forall j | 0 <= j <= n :: Undisturbed(Forest(c), files, run, j, s)
    ensures var f := Forest(c);
            SavesModel(f, files, run, n, s) ==>
              Model(f, files, run, n + 1, s) == Some(Gbdt.Clean(c, Rows(f, files, run, n + 1, s)))
  {
    hide Gbdt.Clean, StageAt, SavesModel, SavesRows, Rows, Model, Routed, Paired, ReadsPair;
    var f := Forest(c);
    forall j | 0 <= j <= n ensures ReadsPair(f, files, run, j, s) {
      assert Undisturbed(f, files, run, j, s);
      if SavesModel(f, files, run, j, s) { QuietReads(f, files, run, j, s); } else { NoReads(f, files, run, j, s); }
    }
    if SavesModel(f, files, run, n, s) {
      assert Undisturbed(f, files, run, n, s);
      PairsAreExact(c, files, run, n + 1, s);
      PairedAfter(f, files, run, n, s);
    }
  }

  lemma NoReads<M>(f: Retrainer<M>, files: Files<M>, run: seq<Event>, j: nat, s: int)
    requires j < |run| && !SavesModel(f, files, run, j, s)
    ensures ReadsPair(f, files, run, j, s)
  {}

  lemma FirstModel<M>(f: Retrainer<M>, files: Files<M>, run: seq<Event>, s: int)
    requires s in files.shards && s in files.models
    ensures Model(f, files, run, 0, s) == Some(files.models[s]) && Rows(f, files, run, 0, s) == files.shards[s]
  {
    AtStart(f, files, run);
  }

  lemma RebuiltIsClean(c: Gbdt.Config, files: Files<Gbdt.Booster>, run: seq<Event>, st: Stage<Gbdt.Booster>, s: int)
    requires Routed(files.shards, files.routing, c.numSlices) && s in files.shards
    requires st.rowsAt <= |run| && st.routingAt <= |run| && st.Admission().Admitted? && st.Shard() == s
    requires st.routing == Table(Forest(c), files, run, st.routingAt)
    requires st.rows == Some(Rows(Forest(c), files, run, st.rowsAt, s)) && Drops(st.rows.value, st.refs)
    ensures Forest(c)(Gbdt.Clean(c, st.rows.value), st.Left(), st.Admission().minSlice) == Gbdt.Clean(c, st.Left())
  {
    hide At, Gbdt.Clean, Retain, Gbdt.TrainShard, Gbdt.Rollback, Table, Rows;
    var f, rows, a := Forest(c), st.rows.value, st.Admission();
    OnlyLeave(f, files, run, st.rowsAt, s);
    OnlyLeave(f, files, run, st.routingAt, s);
    FirstTable(f, files, run);
    forall r | r in rows && r.ref in st.routing
      ensures st.routing[r.ref] == Route(s, r.slice) && r.slice < c.numSlices
    {
      assert r in files.shards[s];
    }
    PurgedSlices(rows, st.routing, c.numSlices, st.refs);
    Gbdt.RebuildIsClean(c, rows, ToSet(st.refs), a.minSlice);
  }

  // --------------------------------------------- what the trees in place saw

  /** The engine that keeps, instead of a booster, what each slice's trees were boosted on. */
  function Histories(n: nat): Retrainer<Matrices> {
    (was: Matrices, left: Records, m: nat) => if |was| == n then Resumed(n, was, left, m) else was
  }

  function GrowStage(c: Gbdt.Config, st: Stage<Matrices>): Stage<Gbdt.Booster> {
    Stage(st.refs, st.routing, st.routingAt, st.rows, st.rowsAt,
          if st.model.Some? then Some(Grow(c, st.model.value)) else None, st.modelAt, st.saved, st.savedAt, st.stored)
  }

  function GrowFiles(c: Gbdt.Config, files: Files<Matrices>): Files<Gbdt.Booster> {
    Files(files.shards, map s | s in files.models :: Grow(c, files.models[s]), files.routing)
  }

  function GrowStages(c: Gbdt.Config, stages: map<int, Stage<Matrices>>): map<int, Stage<Gbdt.Booster>> {
    map w | w in stages :: GrowStage(c, stages[w])
  }

  function GrowState(c: Gbdt.Config, s: State<Matrices>): State<Gbdt.Booster> {
    State(GrowFiles(c, s.files), GrowStages(c, s.stages), s.clock)
  }

  lemma GrowUpdates(c: Gbdt.Config, stages: map<int, Stage<Matrices>>, w: int, st: Stage<Matrices>)
    ensures GrowStages(c, stages[w := st]) == GrowStages(c, stages)[w := GrowStage(c, st)]
    ensures GrowStages(c, stages - {w}) == GrowStages(c, stages) - {w}
  {
    hide GrowStage;
  }

  /** A matrix per slice in every history. */
  ghost predicate Sized(n: nat, s: State<Matrices>) {
    (forall k | k in s.files.models :: |s.files.models[k]| == n)
    && forall w | w in s.stages && s.stages[w].model.Some? :: |s.stages[w].model.value| == n
  }

  lemma StepGrows(c: Gbdt.Config, s: State<Matrices>, e: Event)
    requires Sized(c.numSlices, s)
    ensures Sized(c.numSlices, Step(Histories(c.numSlices), s, e))
    ensures Step(Forest(c), GrowState(c, s), e) == GrowState(c, Step(Histories(c.numSlices), s, e))
  {
    hide Step, Sized, GrowState;
    if e.SaveModel? && CanSaveModel(s, e.worker) {
      SaveModelGrows(c, s, e.worker);
    } else if e.Begin? || e.ReadRows? || e.ReadModel? {
      ReadsGrow(c, s, e);
    } else {
      WritesGrow(c, s, e);
    }
  }

  lemma SaveModelGrows(c: Gbdt.Config, s: State<Matrices>, w: int)
    requires Sized(c.numSlices, s) && CanSaveModel(s, w)
    ensures Sized(c.numSlices, Step(Histories(c.numSlices), s, SaveModel(w)))
    ensures Step(Forest(c), GrowState(c, s), SaveModel(w))
         == GrowState(c, Step(Histories(c.numSlices), s, SaveModel(w)))
  {
    hide Grow, Admit, Retain, Gbdt.TrainShard, Gbdt.Rollback, Drops;
    var st := s.stages[w];
    assert GrowStage(c, st).Admission() == st.Admission();
    ResumeGrows(c, st.model.value, st.Left(), st.Admission().minSlice);
  }

  lemma ReadsGrow(c: Gbdt.Config, s: State<Matrices>, e: Event)
    requires Sized(c.numSlices, s) && (e.Begin? || e.ReadRows? || e.ReadModel?)
    ensures Sized(c.numSlices, Step(Histories(c.numSlices), s, e))
    ensures Step(Forest(c), GrowState(c, s), e) == GrowState(c, Step(Histories(c.numSlices), s, e))
  {
    hide Grow, Admit, Retain, Forest, Histories, GrowStages, Drops;
    GrownStages(c, s.stages);
    var after := Step(Histories(c.numSlices), s, e).stages;
    if e.worker in after { GrowUpdates(c, s.stages, e.worker, after[e.worker]); }
    if e.worker in s.stages { assert GrowStage(c, s.stages[e.worker]).Admission() == s.stages[e.worker].Admission(); }
  }

  lemma GrownStages(c: Gbdt.Config, stages: map<int, Stage<Matrices>>)
    ensures forall w :: w in GrowStages(c, stages) <==> w in stages
    ensures forall w | w in stages :: GrowStages(c, stages)[w] == GrowStage(c, stages[w])
  {}

  lemma WritesGrow(c: Gbdt.Config, s: State<Matrices>, e: Event)
    requires Sized(c.numSlices, s) && (e.SaveRows? || e.Publish? || (e.SaveModel? && !CanSaveModel(s, e.worker)))
    ensures Sized(c.numSlices, Step(Histories(c.numSlices), s, e))
    ensures Step(Forest(c), GrowState(c, s), e) == GrowState(c, Step(Histories(c.numSlices), s, e))
  {
    hide Grow, Admit, Retain, Drops, Forest, Histories;
    if e.worker in s.stages { assert GrowStage(c, s.stages[e.worker]).Admission() == s.stages[e.worker].Admission(); }
  }

  /** Every booster of every run is what grows from the history in its place. */
  lemma {:induction false} RunGrows(c: Gbdt.Config, files: Files<Matrices>, run: seq<Event>, n: nat)
    requires n <= |run| && Sized(c.numSlices, State(files, map[], 0))
    ensures Sized(c.numSlices, At(Histories(c.numSlices), files, run, n))
    ensures At(Forest(c), GrowFiles(c, files), run, n) == GrowState(c, At(Histories(c.numSlices), files, run, n))
  {
    hide Grow, At, Step, Sized, GrowFiles;
    if n == 0 {
      AtStart(Histories(c.numSlices), files, run);
      AtStart(Forest(c), GrowFiles(c, files), run);
      assert GrowState(c, State(files, map[], 0)) == State(GrowFiles(c, files), map[], 0);
    } else {
      RunGrows(c, files, run, n - 1);
      AtStep(Histories(c.numSlices), files, run, n - 1);
      AtStep(Forest(c), GrowFiles(c, files), run, n - 1);
      StepGrows(c, At(Histories(c.numSlices), files, run, n - 1), run[n - 1]);
    }
  }

  /** Shard files, and for the shards in `built` what a clean retrain's trees see. */
  function FirstHistories(n: nat, shards: Shards, built: set<int>, routing: Routing): Files<Matrices>
    requires built <= shards.Keys
  {
    Files(shards, map s | s in built :: Shown(shards[s], n), routing)
  }

  /** The same with clean boosters: a deployment as built. */
  function FirstBoosters(c: Gbdt.Config, shards: Shards, built: set<int>, routing: Routing): Files<Gbdt.Booster>
    requires built <= shards.Keys
  {
    Files(shards, map s | s in built :: Gbdt.Clean(c, shards[s]), routing)
  }

  lemma FirstGrown(c: Gbdt.Config, shards: Shards, built: set<int>, routing: Routing)
    requires built <= shards.Keys
    ensures var first := FirstHistories(c.numSlices, shards, built, routing);
            GrowFiles(c, first) == FirstBoosters(c, shards, built, routing)
            && Sized(c.numSlices, State(first, map[], 0))
  {
    hide Gbdt.Clean, Grow;
    forall s | s in built ensures Gbdt.Clean(c, shards[s]) == Grow(c, Shown(shards[s], c.numSlices)) {
      CleanIsGrown(c, shards[s]);
    }
  }

  /** What shard s holds at moment n, and what the trees of its booster saw. */
  function RowsThen(slices: nat, shards: Shards, built: set<int>, routing: Routing, run: seq<Event>, n: nat, s: int)
    : Records
    requires built <= shards.Keys && n <= |run|
  {
    Rows(Histories(slices), FirstHistories(slices, shards, built, routing), run, n, s)
  }

  function SeenThen(slices: nat, shards: Shards, built: set<int>, routing: Routing, run: seq<Event>, n: nat, s: int)
    : (seen: Matrices)
    requires built <= shards.Keys && n <= |run|
  {
    var models := At(Histories(slices), FirstHistories(slices, shards, built, routing), run, n).files.models;
    if s in models then models[s] else []
  }

  /** The booster stored for shard s at moment n is the clean retrain of the rows stored for it then. */
  ghost predicate ExactThen(c: Gbdt.Config, shards: Shards, built: set<int>, routing: Routing, run: seq<Event>, n: nat,
                            s: int)
    requires built <= shards.Keys && n <= |run|
  {
    var f, first := Forest(c), FirstBoosters(c, shards, built, routing);
    Model(f, first, run, n, s) == Some(Gbdt.Clean(c, Rows(f, first, run, n, s)))
  }

  /** Whatever the overlap, a booster is what grows from its history, and beside these rows. */
  lemma BoosterThen(c: Gbdt.Config, shards: Shards, built: set<int>, routing: Routing, run: seq<Event>, n: nat, s: int)
    requires built <= shards.Keys && n <= |run| && s in built
    ensures var f, first := Forest(c), FirstBoosters(c, shards, built, routing);
            var seen := SeenThen(c.numSlices, shards, built, routing, run, n, s);
            |seen| == c.numSlices && Model(f, first, run, n, s) == Some(Grow(c, seen))
            && Rows(f, first, run, n, s) == RowsThen(c.numSlices, shards, built, routing, run, n, s)
  {
    hide Grow, At, Gbdt.Clean;
    var first := FirstHistories(c.numSlices, shards, built, routing);
    FirstGrown(c, shards, built, routing);
    RunGrows(c, first, run, n);
    SameFiles(Histories(c.numSlices), first, run, n);
  }

  /** So for one round function: exact if and only if the history grows the same booster as the rows. And
      for all of them: if and only if, slice by slice, the trees saw the rows that are in the file. */
  lemma BoostersExactly(c: Gbdt.Config, shards: Shards, built: set<int>, routing: Routing, run: seq<Event>, n: nat,
                        s: int)
    requires built <= shards.Keys && n <= |run| && s in built
    ensures var seen := SeenThen(c.numSlices, shards, built, routing, run, n, s);
            var shown := Shown(RowsThen(c.numSlices, shards, built, routing, run, n, s), c.numSlices);
            (ExactThen(c, shards, built, routing, run, n, s) <==> Grow(c, seen) == Grow(c, shown))
            && ((forall round: Round :: ExactThen(Under(c, round), shards, built, routing, run, n, s))
                <==> seen == shown || c.treesPerSlice == 0)
  {
    hide Grow, Model, Rows, Gbdt.Clean, RowsThen, SeenThen, FirstBoosters;
    var rows := RowsThen(c.numSlices, shards, built, routing, run, n, s);
    var seen, shown := SeenThen(c.numSlices, shards, built, routing, run, n, s), Shown(rows, c.numSlices);
    BoosterThen(c, shards, built, routing, run, n, s);
    CleanIsGrown(c, rows);
    forall round: Round
      ensures ExactThen(Under(c, round), shards, built, routing, run, n, s)
         <==> Grow(Under(c, round), seen) == Grow(Under(c, round), shown)
    {
      BoosterThen(Under(c, round), shards, built, routing, run, n, s);
      CleanIsGrown(Under(c, round), rows);
    }
    SameUnderAll(c, seen, shown);
  }

  // --------------------------------------------------------- three torn overlaps

  /** Rows a and b in slice 0 and c in slice 1 of one shard. */
  datatype Trio = Trio(a: Row, b: Row, c: Row)

  ghost predicate Proper(t: Trio) {
    t.a.slice == 0 && t.b.slice == 0 && t.c.slice == 1 && t.a.ref != t.b.ref && t.a.ref != t.c.ref && t.b.ref != t.c.ref
  }

  function TrioShards(t: Trio): Shards { map[0 := [t.a, t.b, t.c]] }

  function TrioRouting(t: Trio): Routing {
    map[t.a.ref := Route(0, 0), t.b.ref := Route(0, 0), t.c.ref := Route(0, 1)]
  }

  function TrioFiles<M>(t: Trio, m: M): Files<M> { Files(TrioShards(t), map[0 := m], TrioRouting(t)) }

  lemma TrioPurged(t: Trio)
    requires Proper(t)
    ensures Retain([t.a, t.b, t.c], {t.c.ref}) == [t.a, t.b] && Retain([t.a, t.b, t.c], {t.b.ref}) == [t.a, t.c]
    ensures Retain([t.a, t.c], {t.c.ref}) == [t.a]
    ensures Drops([t.a, t.b, t.c], [t.c.ref]) && Drops([t.a, t.b, t.c], [t.b.ref]) && Drops([t.a, t.c], [t.c.ref])
  {
    var a, b, c := t.a, t.b, t.c;
    SingletonSet(b.ref);
    SingletonSet(c.ref);
    RetainPair(b, c);
    RetainPair(a, c);
    assert [a, b, c][1..] == [b, c];
  }

  /** Worker 2 erases b from start to end between worker 1's read of the rows and its read of the model. */
  function TornRead(t: Trio): seq<Event> {
    [Begin(1, [t.c.ref]), ReadRows(1), Begin(2, [t.b.ref]), ReadRows(2), ReadModel(2), SaveRows(2), SaveModel(2),
     Publish(2), ReadModel(1), SaveRows(1), SaveModel(1), Publish(1)]
  }

  /** Worker 2 writes both files between worker 1's write of the rows and its write of the model. */
  function TornWrite(t: Trio): seq<Event> {
    [Begin(1, [t.c.ref]), ReadRows(1), ReadModel(1), Begin(2, [t.b.ref]), ReadRows(2), ReadModel(2),
     SaveRows(1), SaveRows(2), SaveModel(2), Publish(2), SaveModel(1), Publish(1)]
  }

  /** Worker 1 reads both files between worker 2's write of the rows and its write of the model. */
  function ReadMidWrite(t: Trio): seq<Event> {
    [Begin(2, [t.b.ref]), ReadRows(2), ReadModel(2), SaveRows(2), Begin(1, [t.c.ref]), ReadRows(1), ReadModel(1),
     SaveModel(2), Publish(2), SaveRows(1), SaveModel(1), Publish(1)]
  }

  lemma TornReadRuns<M>(f: Retrainer<M>, t: Trio, m: M)
    requires Proper(t)
    ensures var end := At(f, TrioFiles(t, m), TornRead(t), 12).files;
            end.shards == map[0 := [t.a, t.b]] && end.models == map[0 := f(f(m, [t.a, t.c], 0), [t.a, t.b], 1)]
  {
    hide At, Retain, Drops, Admit;
    var files, run := TrioFiles(t, m), TornRead(t);
    TrioPurged(t);
    AdmitOne(files.routing, t.b.ref);
    AdmitOne(files.routing, t.c.ref);
    AtStart(f, files, run);
    AtStep(f, files, run, 0);
    AtStep(f, files, run, 1);
    Reads(f, files, run, 2, 2, t.b.ref);
    Finishes(f, files, run, 5, 2);
    AtStep(f, files, run, 8);
    Finishes(f, files, run, 9, 1);
  }

  lemma TornWriteRuns<M>(f: Retrainer<M>, t: Trio, m: M)
    requires Proper(t)
    ensures var end := At(f, TrioFiles(t, m), TornWrite(t), 12).files;
            end.shards == map[0 := [t.a, t.c]] && end.models == map[0 := f(m, [t.a, t.b], 1)]
  {
    hide At, Retain, Drops, Admit;
    var files, run := TrioFiles(t, m), TornWrite(t);
    TrioPurged(t);
    AdmitOne(files.routing, t.b.ref);
    AdmitOne(files.routing, t.c.ref);
    AtStart(f, files, run);
    Reads(f, files, run, 0, 1, t.c.ref);
    Reads(f, files, run, 3, 2, t.b.ref);
    AtStep(f, files, run, 6);
    Finishes(f, files, run, 7, 2);
    AtStep(f, files, run, 10);
    AtStep(f, files, run, 11);
  }

  lemma ReadMidWriteRuns<M>(f: Retrainer<M>, t: Trio, m: M)
    requires Proper(t)
    ensures var end := At(f, TrioFiles(t, m), ReadMidWrite(t), 12).files;
            end.shards == map[0 := [t.a]] && end.models == map[0 := f(m, [t.a], 1)]
  {
    hide At, Retain, Drops, Admit;
    var files, run := TrioFiles(t, m), ReadMidWrite(t);
    TrioPurged(t);
    AdmitOne(files.routing, t.b.ref);
    AdmitOne(files.routing, t.c.ref);
    AtStart(f, files, run);
    Reads(f, files, run, 0, 2, t.b.ref);
    AtStep(f, files, run, 3);
    Reads(f, files, run, 4, 1, t.c.ref);
    AtStep(f, files, run, 7);
    AtStep(f, files, run, 8);
    Finishes(f, files, run, 9, 1);
  }

  /** What the slices show of some rows of the trio. */
  lemma TrioShown(t: Trio)
    requires Proper(t)
    ensures Shown([t.a, t.b, t.c], 2) == [Columns([t.a, t.b]), Columns([t.a, t.b, t.c])]
    ensures Shown([t.a, t.b], 2) == [Columns([t.a, t.b]), Columns([t.a, t.b])]
    ensures Shown([t.a, t.c], 2) == [Columns([t.a]), Columns([t.a, t.c])]
    ensures Shown([t.a], 2) == [Columns([t.a]), Columns([t.a])]
  {
    var a, b, c := t.a, t.b, t.c;
    assert [a, b, c][1..] == [b, c] && [b, c][1..] == [c] && [c][1..] == [];
    assert [a, b][1..] == [b] && [b][1..] == [] && [a, c][1..] == [c] && [a][1..] == [];
    assert UpTo([c], 0) == [] + UpTo([], 0) && UpTo([b], 0) == [b] + UpTo([], 0);
    assert UpTo([b, c], 0) == [b] + UpTo([c], 0) && UpTo([a], 0) == [a] + UpTo([], 0);
    assert UpTo([a, b, c], 0) == [a] + UpTo([b, c], 0) && UpTo([a, b], 0) == [a] + UpTo([b], 0);
    assert UpTo([a, c], 0) == [a] + UpTo([c], 0);
    UpToLast([a, b, c], 1);
    UpToLast([a, b], 1);
    UpToLast([a, c], 1);
    UpToLast([a], 1);
  }

  lemma TrioHistories(t: Trio)
    ensures FirstHistories(2, TrioShards(t), {0}, TrioRouting(t)) == TrioFiles(t, Shown([t.a, t.b, t.c], 2))
  {}

  /** The run leaves these rows, and a booster of this history: for some round function not the clean
      retrain of the rows. */
  ghost predicate Leaves(c: Gbdt.Config, t: Trio, run: seq<Event>, rows: Records, seen: Matrices) {
    RowsThen(2, TrioShards(t), {0}, TrioRouting(t), run, |run|, 0) == rows
    && SeenThen(2, TrioShards(t), {0}, TrioRouting(t), run, |run|, 0) == seen
    && exists round: Round :: !ExactThen(Under(c, round), TrioShards(t), {0}, TrioRouting(t), run, |run|, 0)
  }

  lemma TornLeaves(c: Gbdt.Config, t: Trio, run: seq<Event>, rows: Records, seen: Matrices)
    requires c.numSlices == 2 && c.treesPerSlice > 0 && seen != Shown(rows, 2)
    requires var end := At(Histories(2), TrioFiles(t, Shown([t.a, t.b, t.c], 2)), run, |run|).files;
             end.shards == map[0 := rows] && end.models == map[0 := seen]
    ensures Leaves(c, t, run, rows, seen)
  {
    hide At, ExactThen;
    TrioHistories(t);
    BoostersExactly(c, TrioShards(t), {0}, TrioRouting(t), run, |run|, 0);
  }

  /** Between the reads: row c is back, and the first slice's trees never saw b's row, which is there. */
  lemma TornReadShows(c: Gbdt.Config, t: Trio)
    requires Proper(t) && c.numSlices == 2 && c.treesPerSlice > 0
    ensures Leaves(c, t, TornRead(t), [t.a, t.b], [Columns([t.a]), Columns([t.a, t.b])])
  {
    hide At, Leaves;
    var first := Shown([t.a, t.b, t.c], 2);
    TrioShown(t);
    TornReadRuns(Histories(2), t, first);
    assert Resumed(2, first, [t.a, t.c], 0) == Shown([t.a, t.c], 2);
    var seen := [Columns([t.a]), Columns([t.a, t.b])];
    assert Resumed(2, Shown([t.a, t.c], 2), [t.a, t.b], 1) == seen by {
      assert Shown([t.a, t.b], 2)[1] == Gbdt.Matrix([t.a, t.b], 1);
    }
    assert |seen[0]| == 1 && |Shown([t.a, t.b], 2)[0]| == 2;
    TornLeaves(c, t, TornRead(t), [t.a, t.b], seen);
  }

  /** Between the writes: b's row is gone from the file, and every tree saw it. */
  lemma TornWriteShows(c: Gbdt.Config, t: Trio)
    requires Proper(t) && c.numSlices == 2 && c.treesPerSlice > 0
    ensures Leaves(c, t, TornWrite(t), [t.a, t.c], [Columns([t.a, t.b]), Columns([t.a, t.b])])
  {
    hide At, Leaves;
    var first := Shown([t.a, t.b, t.c], 2);
    TrioShown(t);
    TornWriteRuns(Histories(2), t, first);
    var seen := [Columns([t.a, t.b]), Columns([t.a, t.b])];
    assert Resumed(2, first, [t.a, t.b], 1) == seen by {
      assert Shown([t.a, t.b], 2)[1] == Gbdt.Matrix([t.a, t.b], 1);
    }
    assert |seen[0]| == 2 && |Shown([t.a, t.c], 2)[0]| == 1;
    TornLeaves(c, t, TornWrite(t), [t.a, t.c], seen);
  }

  /** Reading between another batch's writes: both erasures are in the file, and b is in the booster. */
  lemma ReadMidWriteShows(c: Gbdt.Config, t: Trio)
    requires Proper(t) && c.numSlices == 2 && c.treesPerSlice > 0
    ensures Leaves(c, t, ReadMidWrite(t), [t.a], [Columns([t.a, t.b]), Columns([t.a])])
  {
    hide At, Leaves;
    var first := Shown([t.a, t.b, t.c], 2);
    TrioShown(t);
    ReadMidWriteRuns(Histories(2), t, first);
    var seen := [Columns([t.a, t.b]), Columns([t.a])];
    assert Resumed(2, first, [t.a], 1) == seen by { assert Shown([t.a], 2)[1] == Gbdt.Matrix([t.a], 1); }
    assert |seen[0]| == 2 && |Shown([t.a], 2)[0]| == 1;
    TornLeaves(c, t, ReadMidWrite(t), [t.a], seen);
  }
}
