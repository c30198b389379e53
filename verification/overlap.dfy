/** Overlapping rebuilds. A batch reads routing.json, then its shard's rows, then its model; minutes later
    it writes the rows, then the model, and at last routing.json back whole. `claim_batch` gives no worker
    a shard or the table for itself, so the reads and writes of several batches may come in any order. */
module Overlap {
  import opened Hashing
  import opened Ordering
  import opened SparseMerkle
  import opened Erasure

  datatype Files<M> = Files(shards: Shards, models: map<int, M>, routing: Routing)

  /** An engine: the model so far, the rows left and the slice to resume at give the new model. */
  type Retrainer<!M> = (M, Records, nat) -> M

  /** What a worker holds of its batch, when it read it, and how far it got. */
  datatype Stage<M> = Stage(refs: seq<Key>, routing: Routing, routingAt: nat, rows: Option<Records>, rowsAt: nat,
                            model: Option<M>, modelAt: nat, saved: bool, savedAt: nat, stored: bool)
  {
    function Admission(): Admission { Admit(routing, refs) }

    function Shard(): int { if Admission().Admitted? then Admission().shard else -1 }

    function Left(): Records
      requires rows.Some?
    {
      Retain(rows.value, ToSet(refs))
    }
  }

  function Begun<M>(refs: seq<Key>, routing: Routing, at: nat): Stage<M> {
    Stage(refs, routing, at, None, 0, None, 0, false, 0, false)
  }

  datatype State<M> = State(files: Files<M>, stages: map<int, Stage<M>>, clock: nat)

  /** Read routing.json and check the refs; read the rows, then the model; write the rows back purged, then
      the new model; write the table. A batch that raises or dies has no further events. */
  datatype Event =
    | Begin(worker: int, refs: seq<Key>)
    | ReadRows(worker: int)
    | ReadModel(worker: int)
    | SaveRows(worker: int)
    | SaveModel(worker: int)
    | Publish(worker: int)

  predicate CanReadRows<M>(s: State<M>, w: int) {
    w in s.stages && s.stages[w].rows.None? && s.stages[w].Admission().Admitted?
    && s.stages[w].Shard() in s.files.shards
  }

  predicate CanReadModel<M>(s: State<M>, w: int) {
    w in s.stages && s.stages[w].rows.Some? && s.stages[w].model.None? && s.stages[w].Shard() in s.files.models
  }

  predicate CanSaveRows<M>(s: State<M>, w: int) {
    w in s.stages && s.stages[w].model.Some? && s.stages[w].rows.Some? && !s.stages[w].saved
    && Drops(s.stages[w].rows.value, s.stages[w].refs)
  }

  /** Some row goes: both engines raise before saving otherwise. */
  predicate Drops(rows: Records, refs: seq<Key>) { |Retain(rows, ToSet(refs))| != |rows| }

  predicate CanSaveModel<M>(s: State<M>, w: int) {
    w in s.stages && s.stages[w].saved && !s.stages[w].stored
    && s.stages[w].model.Some? && s.stages[w].rows.Some? && s.stages[w].Admission().Admitted?
  }

  predicate CanPublish<M>(s: State<M>, w: int) { w in s.stages && s.stages[w].stored }

  function Step<M>(f: Retrainer<M>, s: State<M>, e: Event): State<M> {
    var w, next := e.worker, s.clock + 1;
    match e
    case Begin(_, refs) =>
      State(s.files, s.stages[w := Begun(refs, s.files.routing, s.clock)], next)
    case ReadRows(_) =>
      if !CanReadRows(s, w) then s.(clock := next)
      else
        var st := s.stages[w];
        State(s.files, s.stages[w := st.(rows := Some(s.files.shards[st.Shard()]), rowsAt := s.clock)], next)
    case ReadModel(_) =>
      if !CanReadModel(s, w) then s.(clock := next)
      else
        var st := s.stages[w];
        State(s.files, s.stages[w := st.(model := Some(s.files.models[st.Shard()]), modelAt := s.clock)], next)
    case SaveRows(_) =>
      if !CanSaveRows(s, w) then s.(clock := next)
      else
        var st := s.stages[w];
        State(s.files.(shards := s.files.shards[st.Shard() := st.Left()]),
              s.stages[w := st.(saved := true, savedAt := s.clock)], next)
    case SaveModel(_) =>
      if !CanSaveModel(s, w) then s.(clock := next)
      else
        var st := s.stages[w];
        var built := f(st.model.value, st.Left(), st.Admission().minSlice);
        State(s.files.(models := s.files.models[st.Shard() := built]), s.stages[w := st.(stored := true)], next)
    case Publish(_) =>
      if !CanPublish(s, w) then s.(clock := next)
      else
        var st := s.stages[w];
        State(s.files.(routing := st.routing - ToSet(st.refs)), s.stages - {w}, next)
  }

  function Run<M>(f: Retrainer<M>, s: State<M>, run: seq<Event>): State<M> {
    if run == [] then s else Step(f, Run(f, s, run[..|run| - 1]), run[|run| - 1])
  }

  /** The state before event n, from idle workers. */
  function At<M>(f: Retrainer<M>, files: Files<M>, run: seq<Event>, n: nat): State<M>
    requires n <= |run|
  {
    Run(f, State(files, map[], 0), run[..n])
  }

  lemma AtStep<M>(f: Retrainer<M>, files: Files<M>, run: seq<Event>, n: nat)
    requires n < |run|
    ensures At(f, files, run, n + 1) == Step(f, At(f, files, run, n), run[n])
  {
    assert run[..n + 1][..n] == run[..n];
  }

  lemma AtStart<M>(f: Retrainer<M>, files: Files<M>, run: seq<Event>)
    ensures At(f, files, run, 0) == State(files, map[], 0)
  {
    assert run[..0] == [];
  }

  // ------------------------------------------------------- what a stage holds

  /** Everything a worker holds is what the files held when it read them, one read after the other. */
  ghost predicate Faithful<M>(f: Retrainer<M>, files: Files<M>, run: seq<Event>, n: nat, st: Stage<M>)
    requires n <= |run|
  {
    && st.routingAt < n && run[st.routingAt].Begin? && st.routing == At(f, files, run, st.routingAt).files.routing
    && (st.rows.Some? ==>
          && st.Admission().Admitted? && st.routingAt < st.rowsAt < n && run[st.rowsAt].ReadRows?
          && st.Shard() in At(f, files, run, st.rowsAt).files.shards
          && st.rows.value == At(f, files, run, st.rowsAt).files.shards[st.Shard()])
    && (st.model.Some? ==>
          && st.rows.Some? && st.rowsAt < st.modelAt < n && run[st.modelAt].ReadModel?
          && st.Shard() in At(f, files, run, st.modelAt).files.models
          && st.model.value == At(f, files, run, st.modelAt).files.models[st.Shard()])
    && (st.saved ==>
          && st.model.Some? && st.modelAt < st.savedAt < n && Drops(st.rows.value, st.refs)
          && SavesRows(f, files, run, st.savedAt, st.Shard())
          && st.Shard() in At(f, files, run, st.savedAt + 1).files.shards
          && At(f, files, run, st.savedAt + 1).files.shards[st.Shard()] == st.Left())
    && (st.stored ==> st.saved)
  }

  lemma {:induction false} StagesFaithful<M>(f: Retrainer<M>, files: Files<M>, run: seq<Event>, n: nat)
    requires n <= |run|
    ensures At(f, files, run, n).clock == n
    ensures forall w | w in At(f, files, run, n).stages :: Faithful(f, files, run, n, At(f, files, run, n).stages[w])
  {
    hide At, Retain, Admit, Drops;
    if n == 0 {
      AtStart(f, files, run);
    } else {
      StagesFaithful(f, files, run, n - 1);
      AtStep(f, files, run, n - 1);
    }
  }

  // --------------------------------------------------- which events write what

  /** The batch whose worker event j is about. */
  function StageAt<M>(f: Retrainer<M>, files: Files<M>, run: seq<Event>, j: nat): Stage<M>
    requires j < |run|
  {
    var at := At(f, files, run, j);
    if run[j].worker in at.stages then at.stages[run[j].worker] else Begun([], map[], 0)
  }

  /** Event j writes the rows of shard s. */
  predicate SavesRows<M>(f: Retrainer<M>, files: Files<M>, run: seq<Event>, j: nat, s: int) {
    j < |run| && run[j].SaveRows? && CanSaveRows(At(f, files, run, j), run[j].worker)
    && StageAt(f, files, run, j).Shard() == s
  }

  /** Event j writes the model of shard s. */
  predicate SavesModel<M>(f: Retrainer<M>, files: Files<M>, run: seq<Event>, j: nat, s: int) {
    j < |run| && run[j].SaveModel? && CanSaveModel(At(f, files, run, j), run[j].worker)
    && StageAt(f, files, run, j).Shard() == s
  }

  predicate Publishes<M>(f: Retrainer<M>, files: Files<M>, run: seq<Event>, j: nat) {
    j < |run| && run[j].Publish? && CanPublish(At(f, files, run, j), run[j].worker)
  }

  function Rows<M>(f: Retrainer<M>, files: Files<M>, run: seq<Event>, n: nat, s: int): Records
    requires n <= |run|
  {
    var at := At(f, files, run, n).files.shards;
    if s in at then at[s] else []
  }

  function Table<M>(f: Retrainer<M>, files: Files<M>, run: seq<Event>, n: nat): Routing
    requires n <= |run|
  {
    At(f, files, run, n).files.routing
  }

  /** A shard file is what was read for it when it was last saved, purged; otherwise it stays. */
  lemma RowsStep<M>(f: Retrainer<M>, files: Files<M>, run: seq<Event>, j: nat, s: int)
    requires j < |run|
    ensures if SavesRows(f, files, run, j, s) then
              var st := StageAt(f, files, run, j);
              st.rowsAt < j
              && Rows(f, files, run, j + 1, s) == Retain(Rows(f, files, run, st.rowsAt, s), ToSet(st.refs))
            else Rows(f, files, run, j + 1, s) == Rows(f, files, run, j, s)
  {
    hide At, Retain, Admit, Drops;
    AtStep(f, files, run, j);
    StagesFaithful(f, files, run, j);
  }

  /** Likewise the table. */
  lemma TableStep<M>(f: Retrainer<M>, files: Files<M>, run: seq<Event>, j: nat)
    requires j < |run|
    ensures if Publishes(f, files, run, j) then
              var st := StageAt(f, files, run, j);
              st.routingAt < j && Table(f, files, run, j + 1) == Table(f, files, run, st.routingAt) - ToSet(st.refs)
            else Table(f, files, run, j + 1) == Table(f, files, run, j)
  {
    hide At, Retain, Admit, Drops;
    AtStep(f, files, run, j);
    StagesFaithful(f, files, run, j);
  }

  // --------------------------------------------------- when one erasure lasts

  /** No batch that read shard s before event i, with k's rows in it, saves it after i without k. */
  ghost predicate NoLateSave<M>(f: Retrainer<M>, files: Files<M>, run: seq<Event>, i: nat, k: Key, s: int) {
    forall j | i < j < |run| && SavesRows(f, files, run, j, s) ::
      var st := StageAt(f, files, run, j);
      st.rowsAt < i && st.rowsAt <= |run| && k in Present(Rows(f, files, run, st.rowsAt, s)) ==> k in st.refs
  }

  ghost predicate OffShard<M>(f: Retrainer<M>, files: Files<M>, run: seq<Event>, i: nat, k: Key, s: int, n: nat)
    requires n <= |run|
  {
    forall m | i < m <= n :: k !in Present(Rows(f, files, run, m, s))
  }

  /** An erased subject stays off its shard file if and only if no batch that read the file before the
      erasing save, with the subject still in it, saves it afterwards without erasing the subject too. */
  lemma ErasureLasts<M>(f: Retrainer<M>, files: Files<M>, run: seq<Event>, i: nat, k: Key, s: int)
    requires SavesRows(f, files, run, i, s) && k in StageAt(f, files, run, i).refs
    ensures OffShard(f, files, run, i, k, s, |run|) <==> NoLateSave(f, files, run, i, k, s)
  {
    hide SavesRows, StageAt, Rows, Present, Retain;
    if NoLateSave(f, files, run, i, k, s) { StaysOff(f, files, run, i, k, s, |run|); }
    if OffShard(f, files, run, i, k, s, |run|) {
      forall j | i < j < |run| && SavesRows(f, files, run, j, s)
        ensures var st := StageAt(f, files, run, j);
                st.rowsAt <= |run| && k in Present(Rows(f, files, run, st.rowsAt, s)) ==> k in st.refs
      {
        RowsStep(f, files, run, j, s);
        var st := StageAt(f, files, run, j);
        RetainPresent(Rows(f, files, run, st.rowsAt, s), ToSet(st.refs));
        assert k !in Present(Rows(f, files, run, j + 1, s));
        assert k in ToSet(st.refs) <==> k in st.refs;
      }
    }
  }

  lemma {:induction false} StaysOff<M>(f: Retrainer<M>, files: Files<M>, run: seq<Event>, i: nat, k: Key, s: int,
                                       n: nat)
    requires SavesRows(f, files, run, i, s) && k in StageAt(f, files, run, i).refs
    requires NoLateSave(f, files, run, i, k, s) && n <= |run|
    ensures OffShard(f, files, run, i, k, s, n)
  {
    hide SavesRows, StageAt, Rows, Present, Retain;
    if n > i + 1 {
      StaysOff(f, files, run, i, k, s, n - 1);
      RowsStep(f, files, run, n - 1, s);
      if SavesRows(f, files, run, n - 1, s) {
        var st := StageAt(f, files, run, n - 1);
        RetainPresent(Rows(f, files, run, st.rowsAt, s), ToSet(st.refs));
        assert k in ToSet(st.refs) <==> k in st.refs;
        SaveIsNoRead(f, files, run, i, n - 1, s);
      }
    } else if n == i + 1 {
      RowsStep(f, files, run, i, s);
      var st := StageAt(f, files, run, i);
      RetainPresent(Rows(f, files, run, st.rowsAt, s), ToSet(st.refs));
      assert k in ToSet(st.refs);
    }
  }

  /** Event i, a save, is not when another batch read its rows. */
  lemma SaveIsNoRead<M>(f: Retrainer<M>, files: Files<M>, run: seq<Event>, i: nat, j: nat, s: int)
    requires SavesRows(f, files, run, i, s) && SavesRows(f, files, run, j, s) && i < j
    ensures StageAt(f, files, run, j).rowsAt != i
  {
    StagesFaithful(f, files, run, j);
  }

  /** No batch that read the table before event i, with k in it, publishes after i without k. */
  ghost predicate NoLatePublish<M>(f: Retrainer<M>, files: Files<M>, run: seq<Event>, i: nat, k: Key) {
    forall j | i < j < |run| && Publishes(f, files, run, j) ::
      var st := StageAt(f, files, run, j);
      st.routingAt < i && st.routingAt <= |run| && k in Table(f, files, run, st.routingAt) ==> k in st.refs
  }

  ghost predicate OffTable<M>(f: Retrainer<M>, files: Files<M>, run: seq<Event>, i: nat, k: Key, n: nat)
    requires n <= |run|
  {
    forall m | i < m <= n :: k !in Table(f, files, run, m)
  }

  /** The same for routing.json, which every batch on every shard rewrites whole: a popped route stays
      popped if and only if no batch at all that read the table before publishes afterwards. */
  lemma PopLasts<M>(f: Retrainer<M>, files: Files<M>, run: seq<Event>, i: nat, k: Key)
    requires Publishes(f, files, run, i) && k in StageAt(f, files, run, i).refs
    ensures OffTable(f, files, run, i, k, |run|) <==> NoLatePublish(f, files, run, i, k)
  {
    hide Publishes, StageAt, Table;
    if NoLatePublish(f, files, run, i, k) { StaysPopped(f, files, run, i, k, |run|); }
    if OffTable(f, files, run, i, k, |run|) {
      forall j | i < j < |run| && Publishes(f, files, run, j)
        ensures var st := StageAt(f, files, run, j);
                st.routingAt <= |run| && k in Table(f, files, run, st.routingAt) ==> k in st.refs
      {
        TableStep(f, files, run, j);
        assert k !in Table(f, files, run, j + 1);
        assert k in ToSet(StageAt(f, files, run, j).refs) <==> k in StageAt(f, files, run, j).refs;
      }
    }
  }

  lemma {:induction false} StaysPopped<M>(f: Retrainer<M>, files: Files<M>, run: seq<Event>, i: nat, k: Key, n: nat)
    requires Publishes(f, files, run, i) && k in StageAt(f, files, run, i).refs
    requires NoLatePublish(f, files, run, i, k) && n <= |run|
    ensures OffTable(f, files, run, i, k, n)
  {
    hide Publishes, StageAt, Table;
    if n > i + 1 {
      StaysPopped(f, files, run, i, k, n - 1);
      TableStep(f, files, run, n - 1);
      if Publishes(f, files, run, n - 1) {
        var st := StageAt(f, files, run, n - 1);
        assert k in ToSet(st.refs) <==> k in st.refs;
        PublishIsNoRead(f, files, run, i, n - 1);
      }
    } else if n == i + 1 {
      TableStep(f, files, run, i);
      assert k in ToSet(StageAt(f, files, run, i).refs);
    }
  }

  lemma PublishIsNoRead<M>(f: Retrainer<M>, files: Files<M>, run: seq<Event>, i: nat, j: nat)
    requires Publishes(f, files, run, i) && Publishes(f, files, run, j) && i < j
    ensures StageAt(f, files, run, j).routingAt != i
  {
    StagesFaithful(f, files, run, j);
  }
}
