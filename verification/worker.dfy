/** `process_claimed` (worker/jobs.py): a claimed batch is grouped by shard, each group rebuilt once,
    and every job settled. */
module Worker {
  import opened Hashing
  import opened Ordering
  import opened SparseMerkle
  import opened Erasure
  import opened JobQueue

  datatype Rebuilt = Rebuilt(weights: Digest, manifests: map<Key, Manifest>)

  /** `active.rebuild_batch_by_ref`: the deployment changes, and there is a result or an exception. */
  type Engine<!S> = (S, seq<Key>) -> (S, Option<Rebuilt>)

  /** Whether promoting a shard's result and preparing its records succeeds. */
  type Books = (int, Rebuilt) -> bool

  datatype Call = Call(shard: int, refs: seq<Key>, reply: Option<Rebuilt>, booked: bool)

  /** What the group's jobs are settled by: a result that could not be booked is none. */
  function Ending(call: Call): Option<Rebuilt> { if call.booked then call.reply else None }

  /** A result holds a manifest for every ref asked for. */
  ghost predicate Certifies<S(!new)>(rebuild: Engine<S>) {
    forall s: S, refs: seq<Key> :: rebuild(s, refs).1.Some? ==> ToSet(refs) <= rebuild(s, refs).1.value.manifests.Keys
  }

  /** The refs of one shard, in the order claimed. */
  function RefsOn(rows: seq<Claim>, shard: int): seq<Key> {
    if rows == [] then []
    else
      var last := rows[|rows| - 1];
      RefsOn(rows[..|rows| - 1], shard) + (if last.shard == shard then [last.ref] else [])
  }

  /** The deployment after some calls. */
  function After<S>(rebuild: Engine<S>, s: S, calls: seq<Call>): S {
    if calls == [] then s else rebuild(After(rebuild, s, calls[..|calls| - 1]), calls[|calls| - 1].refs).0
  }

  ghost predicate Genuine<S>(rebuild: Engine<S>, books: Books, s: S, calls: seq<Call>) {
    forall n | 0 <= n < |calls| ::
      calls[n].reply == rebuild(After(rebuild, s, calls[..n]), calls[n].refs).1
      && (calls[n].booked <==> calls[n].reply.Some? && books(calls[n].shard, calls[n].reply.value))
  }

  function Called(calls: seq<Call>): set<int> { set call | call in calls :: call.shard }

  /** One call per distinct shard, ascending, with exactly that shard's refs. */
  ghost predicate Grouped(rows: seq<Claim>, calls: seq<Call>) {
    (forall m, n | 0 <= m < n < |calls| :: calls[m].shard < calls[n].shard)
    && (forall r | r in rows :: r.shard in Called(calls))
    && forall n | 0 <= n < |calls| :: calls[n].refs != [] && calls[n].refs == RefsOn(rows, calls[n].shard)
  }

  /** How a job ends: done with its own manifest, or failed with none; its lease released. */
  ghost predicate Settled(was: Jobs, jobs: Jobs, manifests: map<Id, Manifest>, r: Claim, reply: Option<Rebuilt>) {
    r.id in was && r.id in jobs
    && match reply
       case None => jobs[r.id] == Release(was[r.id], Failed) && r.id !in manifests
       case Some(result) =>
         jobs[r.id] == Release(was[r.id], Completed) && r.id in manifests
         && r.ref in result.manifests && manifests[r.id] == result.manifests[r.ref]
  }

  ghost predicate Distinct(rows: seq<Claim>) {
    forall i, j | 0 <= i < j < |rows| :: rows[i].id != rows[j].id
  }

  ghost predicate Fresh(jobs: Jobs, manifests: map<Id, Manifest>, rows: seq<Claim>) {
    forall r | r in rows :: r.id in jobs && r.id !in manifests
  }

  function Ids(rows: seq<Claim>): set<Id> { set r | r in rows :: r.id }

  function Replies(calls: seq<Call>): map<int, Option<Rebuilt>> {
    if calls == [] then map[] else Replies(calls[..|calls| - 1])[calls[|calls| - 1].shard := Ending(calls[|calls| - 1])]
  }

  /** The jobs in `done` are settled by their shard's reply; nothing else has changed. */
  ghost predicate Progress(was: Jobs, had: map<Id, Manifest>, jobs: Jobs, manifests: map<Id, Manifest>,
                           done: seq<Claim>, replies: map<int, Option<Rebuilt>>)
  {
    jobs.Keys == was.Keys
    && (forall r | r in done :: r.shard in replies && Settled(was, jobs, manifests, r, replies[r.shard]))
    && (forall id | id !in Ids(done) :: (id in manifests <==> id in had) && (id in had ==> manifests[id] == had[id]))
    && forall id | id !in Ids(done) && id in was :: jobs[id] == was[id]
  }

  // ------------------------------------------------------------- the grouping

  lemma RefsOnLast(rows: seq<Claim>, r: Claim, shard: int)
    ensures RefsOn(rows + [r], shard) == RefsOn(rows, shard) + (if r.shard == shard then [r.ref] else [])
  {
    assert (rows + [r])[..|rows|] == rows;
  }

  lemma {:induction false} InsertKeepsRefs(rows: seq<Claim>, r: Claim, shard: int)
    requires ByShard(rows)
    ensures RefsOn(JobQueue.Insert(rows, r), shard) == RefsOn(rows, shard) + (if r.shard == shard then [r.ref] else [])
  {
    hide RefsOn;
    if rows == [] {
      RefsOnLast([], r, shard);
      assert [] + [r] == [r];
    } else {
      var front, last := rows[..|rows| - 1], rows[|rows| - 1];
      assert rows == front + [last];
      RefsOnLast(front, last, shard);
      if last.shard <= r.shard {
        RefsOnLast(rows, r, shard);
      } else {
        InsertKeepsRefs(front, r, shard);
        RefsOnLast(JobQueue.Insert(front, r), last, shard);
      }
    }
  }

  lemma {:induction false} NoneOn(rows: seq<Claim>, shard: int)
    requires forall r | r in rows :: r.shard != shard
    ensures RefsOn(rows, shard) == []
  {
    if rows != [] {
      assert rows[|rows| - 1] in rows;
      NoneOn(rows[..|rows| - 1], shard);
    }
  }

  /** The claims of one shard, each once and in the order claimed. */
  ghost predicate ClaimsAt(rows: seq<Claim>, shard: int, refs: seq<Key>, at: seq<nat>) {
    |at| == |refs| && (forall i, j | 0 <= i < j < |at| :: at[i] < at[j])
    && (forall i | 0 <= i < |at| :: at[i] < |rows| && rows[at[i]].shard == shard && refs[i] == rows[at[i]].ref)
    && forall k: nat | k < |rows| && rows[k].shard == shard :: k in at
  }

  lemma {:induction false} RefsInOrder(rows: seq<Claim>, shard: int) returns (at: seq<nat>)
    ensures ClaimsAt(rows, shard, RefsOn(rows, shard), at)
  {
    if rows == [] {
      at := [];
    } else {
      var m := |rows| - 1;
      at := RefsInOrder(rows[..m], shard);
      if rows[m].shard == shard { at := at + [m]; }
    }
  }

  /** Sorting by shard keeps each shard's refs, in order. */
  lemma {:induction false} SortKeepsRefs(rows: seq<Claim>, shard: int)
    ensures RefsOn(SortByShard(rows), shard) == RefsOn(rows, shard)
  {
    if rows != [] {
      var front := rows[..|rows| - 1];
      SortKeepsRefs(front, shard);
      Sorts(front);
      InsertKeepsRefs(SortByShard(front), rows[|rows| - 1], shard);
    }
  }

  lemma {:induction false} RefsOnAppend(a: seq<Claim>, b: seq<Claim>, shard: int)
    ensures RefsOn(a + b, shard) == RefsOn(a, shard) + RefsOn(b, shard)
  {
    hide RefsOn;
    if b == [] {
      assert a + b == a;
      NoneOn([], shard);
    } else {
      var front, last := b[..|b| - 1], b[|b| - 1];
      RefsOnAppend(a, front, shard);
      RefsOnLast(a + front, last, shard);
      RefsOnLast(front, last, shard);
      assert b == front + [last] && a + b == a + front + [last];
    }
  }

  /** A new group of a higher shard adds its own refs only. */
  lemma GroupAdds(done: seq<Claim>, group: seq<Claim>, shard: int, other: int)
    requires (forall r | r in group :: r.shard == shard) && forall r | r in done :: r.shard < shard
    ensures RefsOn(done + group, other) == if other == shard then RefsOn(group, other) else RefsOn(done, other)
  {
    hide RefsOn;
    RefsOnAppend(done, group, other);
    if other == shard { NoneOn(done, other); } else { NoneOn(group, other); }
  }

  lemma GroupedStep(done: seq<Claim>, group: seq<Claim>, calls: seq<Call>, call: Call)
    requires Grouped(done, calls)
    requires (forall r | r in group :: r.shard == call.shard) && (forall r | r in done :: r.shard < call.shard)
    requires call.refs != [] && call.refs == RefsOn(group, call.shard)
    ensures Grouped(done + group, calls + [call])
  {
    hide RefsOn;
    var all, made := done + group, calls + [call];
    assert call in made && forall c | c in calls :: c in made;
    forall n | 0 <= n < |made|
      ensures made[n].refs != [] && made[n].refs == RefsOn(all, made[n].shard)
      ensures n < |calls| ==> made[n].shard < call.shard
    {
      GroupAdds(done, group, call.shard, made[n].shard);
      if n < |calls| { SomeoneOn(done, made[n].shard); }
    }
  }

  lemma {:induction false} SomeoneOn(rows: seq<Claim>, shard: int)
    requires RefsOn(rows, shard) != []
    ensures exists r :: r in rows && r.shard == shard
  {
    var last := rows[|rows| - 1];
    if last.shard == shard {
      assert last in rows;
    } else {
      SomeoneOn(rows[..|rows| - 1], shard);
      var r :| r in rows[..|rows| - 1] && r.shard == shard;
      assert r in rows;
    }
  }

  lemma GenuineStep<S>(rebuild: Engine<S>, books: Books, s: S, calls: seq<Call>, call: Call)
    requires Genuine(rebuild, books, s, calls) && call.reply == rebuild(After(rebuild, s, calls), call.refs).1
    requires call.booked <==> call.reply.Some? && books(call.shard, call.reply.value)
    ensures Genuine(rebuild, books, s, calls + [call])
    ensures After(rebuild, s, calls + [call]) == rebuild(After(rebuild, s, calls), call.refs).0
    ensures Replies(calls + [call]) == Replies(calls)[call.shard := Ending(call)]
  {
    var made := calls + [call];
    assert made[..|calls|] == calls;
    forall n | 0 <= n < |made| ensures made[n].reply == rebuild(After(rebuild, s, made[..n]), made[n].refs).1 {
      if n < |calls| { assert made[..n] == calls[..n]; }
    }
  }

  lemma {:induction false} RepliesOfCalls(calls: seq<Call>, n: nat)
    requires n < |calls| && forall p, q | 0 <= p < q < |calls| :: calls[p].shard < calls[q].shard
    ensures calls[n].shard in Replies(calls) && Replies(calls)[calls[n].shard] == Ending(calls[n])
  {
    if n < |calls| - 1 { RepliesOfCalls(calls[..|calls| - 1], n); }
  }

  lemma SortedDistinct(rows: seq<Claim>, sorted: seq<Claim>)
    requires multiset(sorted) == multiset(rows) && Distinct(rows)
    ensures Distinct(sorted)
  {
    forall i, j | 0 <= i < j < |sorted| ensures sorted[i].id != sorted[j].id {
      if sorted[i].id == sorted[j].id {
        assert sorted[i] in multiset(rows) && sorted[j] in multiset(rows);
        SameIdSameRow(rows, sorted[i], sorted[j]);
        TwiceInMultiset(sorted, i, j);
        TwiceInSequence(rows, sorted[i]);
      }
    }
  }

  /** Sorted or as claimed, the batch is the same. */
  lemma SameRows(rows: seq<Claim>, sorted: seq<Claim>)
    requires sorted == SortByShard(rows) && Distinct(rows)
    ensures ByShard(sorted) && Distinct(sorted) && forall r :: r in sorted <==> r in rows
    ensures forall shard :: RefsOn(sorted, shard) == RefsOn(rows, shard)
  {
    hide RefsOn, Distinct, SortByShard;
    Sorts(rows);
    SortedDistinct(rows, sorted);
    forall r ensures r in sorted <==> r in rows { assert r in multiset(sorted) <==> r in multiset(rows); }
    forall shard ensures RefsOn(sorted, shard) == RefsOn(rows, shard) { SortKeepsRefs(rows, shard); }
  }

  lemma SameGroups(rows: seq<Claim>, sorted: seq<Claim>, calls: seq<Call>)
    requires Grouped(sorted, calls) && forall r :: r in sorted <==> r in rows
    requires forall shard :: RefsOn(sorted, shard) == RefsOn(rows, shard)
    ensures Grouped(rows, calls)
  {
    hide RefsOn;
  }

  lemma {:induction false} IdsCount(rows: seq<Claim>)
    requires Distinct(rows)
    ensures |Ids(rows)| == |rows|
  {
    if rows != [] {
      var front, last := rows[..|rows| - 1], rows[|rows| - 1];
      IdsCount(front);
      assert rows == front + [last];
      NotYet(rows, |rows| - 1);
      assert Ids(rows) == Ids(front) + {last.id};
    }
  }

  /** The rows fetched are one for each id taken. */
  lemma FetchedAll(jobs: Jobs, rows: seq<Claim>, ids: set<Id>)
    requires Fetched(jobs, rows, ids)
    ensures Distinct(rows) && Ids(rows) == ids
  {
    IdsCount(rows);
    forall r | r in rows ensures r.id in ids {}
    assert |ids - Ids(rows)| == |ids| - |Ids(rows)|;
  }

  /** Manifests are on record for finished jobs only. */
  ghost predicate Recorded(jobs: Jobs, manifests: map<Id, Manifest>) {
    forall id | id in manifests :: id in jobs && Over(jobs[id])
  }

  /** Claimed jobs were queued, so none of them has a manifest yet. */
  lemma ClaimedFresh(before: Jobs, jobs: Jobs, manifests: map<Id, Manifest>, rows: seq<Claim>, s: JobQueue.Step)
    requires Recorded(before, manifests) && Enabled(before, s) && s.event.Claimed? && jobs == Apply(before, s)
    requires Fetched(jobs, rows, s.event.ids)
    ensures Fresh(jobs, manifests, rows) && Recorded(jobs, manifests)
  {}

  lemma ReapKeepsRecord(jobs: Jobs, manifests: map<Id, Manifest>, now: int)
    requires Recorded(jobs, manifests)
    ensures Recorded(Apply(jobs, JobQueue.Step(now, Reaped)), manifests)
  {}

  /** What a settled batch means for the table. */
  lemma SettledRecord(was: Jobs, had: map<Id, Manifest>, jobs: Jobs, manifests: map<Id, Manifest>,
                      rows: seq<Claim>, replies: map<int, Option<Rebuilt>>)
    requires Progress(was, had, jobs, manifests, rows, replies) && Recorded(was, had)
    ensures Recorded(jobs, manifests)
    ensures forall id | id in Ids(rows) ::
              id in was && id in jobs && Over(jobs[id]) && jobs[id].attempts == was[id].attempts
              && (jobs[id].status.Completed? <==> id in manifests)
  {
    forall id | id in Ids(rows)
      ensures id in was && id in jobs && Over(jobs[id]) && jobs[id].attempts == was[id].attempts
              && (jobs[id].status.Completed? <==> id in manifests)
    {
      var r :| r in rows && r.id == id;
      assert Settled(was, jobs, manifests, r, replies[r.shard]);
    }
  }

  /** One worker's view of the database. */
  class Ledger {
    const table: Table
    var manifests: map<Id, Manifest>

    constructor (table: Table)
      ensures this.table == table && manifests == map[]
    {
      this.table, manifests := table, map[];
    }

    /** The statements after one rebuild, for one job of its group. */
    method Settle(r: Claim, reply: Option<Rebuilt>, ghost now: int)
      requires Sane(table.jobs) && r.id in table.jobs
      requires reply.Some? ==> r.ref in reply.value.manifests
      modifies this, table
      ensures Sane(table.jobs)
      ensures table.jobs
           == old(table.jobs)[r.id := Release(old(table.jobs)[r.id], if reply.Some? then Completed else Failed)]
      ensures manifests == if reply.Some? then old(manifests)[r.id := reply.value.manifests[r.ref]] else old(manifests)
    {
      if reply.Some? { manifests := manifests[r.id := reply.value.manifests[r.ref]]; }
      table.Finish(r.id, reply.Some?, now);
    }

    /** `process_claimed` */
    method ProcessClaimed<S(!new)>(rebuild: Engine<S>, books: Books, s: S, rows: seq<Claim>, ghost now: int)
      returns (after: S, calls: seq<Call>)
      requires Sane(table.jobs) && Distinct(rows) && Fresh(table.jobs, manifests, rows) && Certifies(rebuild)
      modifies this, table
      ensures Sane(table.jobs)
      ensures Grouped(rows, calls) && Genuine(rebuild, books, s, calls) && after == After(rebuild, s, calls)
      ensures Progress(old(table.jobs), old(manifests), table.jobs, manifests, rows, Replies(calls))
    {
      hide Sane, Grouped, Genuine, Progress, Certifies, After, Replies, ByShard, Distinct, Fresh, SortByShard, RefsOn;
      ghost var was, had := table.jobs, manifests;
      var sorted := SortByShard(rows);
      SameRows(rows, sorted);
      SameFresh(was, had, rows, sorted);
      after, calls := s, [];
      Start(rebuild, books, s, was, had);
      var i := 0;
      while i < |sorted|
        invariant 0 <= i <= |sorted| && Sane(table.jobs) && NewGroupAt(sorted, i)
        invariant Grouped(sorted[..i], calls) && Genuine(rebuild, books, s, calls) && after == After(rebuild, s, calls)
        invariant Progress(was, had, table.jobs, manifests, sorted[..i], Replies(calls))
      {
        var j, refs := GroupFrom(sorted, i);
        var (next, reply) := rebuild(after, refs);
        var call := Call(sorted[i].shard, refs, reply, reply.Some? && books(sorted[i].shard, reply.value));
        GroupRefs(sorted, i, j, sorted[i].shard);
        Answered(rebuild, after, refs);
        ghost var shard := sorted[i].shard;
        NewReply(was, had, table.jobs, manifests, sorted[..i], Replies(calls), shard, Ending(call));
        SettleGroup(sorted, i, j, Ending(call), was, had, Replies(calls)[shard := Ending(call)], now);
        GroupedStep(sorted[..i], sorted[i..j], calls, call);
        GenuineStep(rebuild, books, s, calls, call);
        assert sorted[..i] + sorted[i..j] == sorted[..j];
        after, calls, i := next, calls + [call], j;
      }
      assert sorted[..i] == sorted;
      SameGroups(rows, sorted, calls);
      SameProgress(was, had, table.jobs, manifests, sorted, rows, Replies(calls));
    }

    /** `run_once`: reap, claim, process. Every job taken ends finished, with a manifest exactly if it
        is done; the rest of the table is as the reaper left it. */
    method RunOnce<S(!new)>(rebuild: Engine<S>, books: Books, s: S, worker: string, now: int, lease: int,
                            limit: nat, locked: set<Id>)
      returns (after: S, count: nat, ghost ids: set<Id>)
      requires Sane(table.jobs) && Recorded(table.jobs, manifests) && Certifies(rebuild)
      modifies this, table
      ensures Sane(table.jobs) && Recorded(table.jobs, manifests)
      ensures var reaped := Apply(old(table.jobs), JobQueue.Step(now, Reaped));
              Selects(reaped, locked, limit, ids) && count == |ids| && table.jobs.Keys == reaped.Keys
              && (forall id | id in ids ::
                    id in reaped && Over(table.jobs[id]) && table.jobs[id].attempts == reaped[id].attempts + 1
                    && (table.jobs[id].status.Completed? <==> id in manifests))
              && forall id | id in reaped && id !in ids :: table.jobs[id] == reaped[id]
    {
      hide Sane, Certifies, Grouped, Genuine, Settled;
      ReapKeepsRecord(table.jobs, manifests, now);
      var expired := table.ReapExpiredLeases(now);
      ghost var reaped := table.jobs;
      var rows, taken := table.ClaimBatch(worker, now, lease, limit, locked);
      ids, count, after := taken, |rows|, s;
      ClaimedFresh(reaped, table.jobs, manifests, rows, JobQueue.Step(now, Claimed(worker, lease, taken)));
      FetchedAll(table.jobs, rows, taken);
      ghost var claimed, had := table.jobs, manifests;
      if rows == [] { return; }
      var calls;
      after, calls := ProcessClaimed(rebuild, books, s, rows, now);
      SettledRecord(claimed, had, table.jobs, manifests, rows, Replies(calls));
    }

    /** The jobs of one group, one by one. */
    method SettleGroup(sorted: seq<Claim>, i: nat, j: nat, reply: Option<Rebuilt>, ghost was: Jobs,
                       ghost had: map<Id, Manifest>, ghost replies: map<int, Option<Rebuilt>>, ghost now: int)
      requires i <= j <= |sorted| && Distinct(sorted) && Fresh(was, had, sorted) && Sane(table.jobs)
      requires forall p | i <= p < j :: sorted[p].shard in replies && replies[sorted[p].shard] == reply
      requires reply.Some? ==> forall r | r in sorted[i..j] :: r.ref in reply.value.manifests
      requires Progress(was, had, table.jobs, manifests, sorted[..i], replies)
      modifies this, table
      ensures Sane(table.jobs) && Progress(was, had, table.jobs, manifests, sorted[..j], replies)
    {
      hide Sane, Progress;
      for p := i to j
        invariant Sane(table.jobs) && Progress(was, had, table.jobs, manifests, sorted[..p], replies)
      {
        assert sorted[p] in sorted[i..j];
        ProgressStep(was, had, table.jobs, manifests, sorted, p, replies);
        Settle(sorted[p], reply, now);
      }
    }
  }

  lemma Start<S>(rebuild: Engine<S>, books: Books, s: S, was: Jobs, had: map<Id, Manifest>)
    ensures After(rebuild, s, []) == s && Grouped([], []) && Genuine(rebuild, books, s, [])
    ensures Progress(was, had, was, had, [], Replies([]))
  {}

  lemma Answered<S(!new)>(rebuild: Engine<S>, s: S, refs: seq<Key>)
    requires Certifies(rebuild)
    ensures rebuild(s, refs).1.Some? ==> forall k | k in refs :: k in rebuild(s, refs).1.value.manifests
  {
    forall k | k in refs ensures k in ToSet(refs) {}
  }

  /** A reply for a shard not met so far leaves what is settled settled. */
  lemma NewReply(was: Jobs, had: map<Id, Manifest>, jobs: Jobs, manifests: map<Id, Manifest>, done: seq<Claim>,
                 replies: map<int, Option<Rebuilt>>, shard: int, reply: Option<Rebuilt>)
    requires Progress(was, had, jobs, manifests, done, replies) && forall r | r in done :: r.shard < shard
    ensures Progress(was, had, jobs, manifests, done, replies[shard := reply])
  {
    hide Settled;
  }

  /** Settling the next job extends what is settled. */
  lemma ProgressStep(was: Jobs, had: map<Id, Manifest>, jobs: Jobs, manifests: map<Id, Manifest>, sorted: seq<Claim>,
                     p: nat, replies: map<int, Option<Rebuilt>>)
    requires p < |sorted| && Distinct(sorted) && Fresh(was, had, sorted) && sorted[p].shard in replies
    requires Progress(was, had, jobs, manifests, sorted[..p], replies)
    requires replies[sorted[p].shard].Some? ==> sorted[p].ref in replies[sorted[p].shard].value.manifests
    ensures sorted[p].id in jobs
    ensures var r, reply := sorted[p], replies[sorted[p].shard];
            Progress(was, had, jobs[r.id := Release(jobs[r.id], if reply.Some? then Completed else Failed)],
                     if reply.Some? then manifests[r.id := reply.value.manifests[r.ref]] else manifests,
                     sorted[..p + 1], replies)
  {
    hide Progress, Distinct;
    var r, done := sorted[p], sorted[..p];
    assert sorted[..p + 1] == done + [r] && r in sorted;
    NotYet(sorted, p);
    ProgressOne(was, had, jobs, manifests, done, r, replies);
  }

  lemma NotYet(sorted: seq<Claim>, p: nat)
    requires p < |sorted| && Distinct(sorted)
    ensures sorted[p].id !in Ids(sorted[..p])
  {}

  lemma ProgressOne(was: Jobs, had: map<Id, Manifest>, jobs: Jobs, manifests: map<Id, Manifest>, done: seq<Claim>,
                    r: Claim, replies: map<int, Option<Rebuilt>>)
    requires Progress(was, had, jobs, manifests, done, replies)
    requires r.id in was && r.id !in had && r.id !in Ids(done) && r.shard in replies
    requires replies[r.shard].Some? ==> r.ref in replies[r.shard].value.manifests
    ensures r.id in jobs
    ensures var reply := replies[r.shard];
            Progress(was, had, jobs[r.id := Release(jobs[r.id], if reply.Some? then Completed else Failed)],
                     if reply.Some? then manifests[r.id := reply.value.manifests[r.ref]] else manifests,
                     done + [r], replies)
  {
    hide Release;
    var reply := replies[r.shard];
    var jobs' := jobs[r.id := Release(jobs[r.id], if reply.Some? then Completed else Failed)];
    var manifests' := if reply.Some? then manifests[r.id := reply.value.manifests[r.ref]] else manifests;
    assert jobs'.Keys == was.Keys;
    assert Ids(done + [r]) == Ids(done) + {r.id};
    forall q | q in done + [r] ensures q.shard in replies && Settled(was, jobs', manifests', q, replies[q.shard]) {
      if q in done { assert q.id in Ids(done); }
    }
  }

  lemma SameProgress(was: Jobs, had: map<Id, Manifest>, jobs: Jobs, manifests: map<Id, Manifest>, sorted: seq<Claim>,
                     rows: seq<Claim>, replies: map<int, Option<Rebuilt>>)
    requires Progress(was, had, jobs, manifests, sorted, replies) && forall r :: r in sorted <==> r in rows
    ensures Progress(was, had, jobs, manifests, rows, replies)
  {
    assert Ids(sorted) == Ids(rows);
  }

  lemma {:induction false} GroupRefs(sorted: seq<Claim>, i: nat, j: nat, shard: int)
    requires i <= j <= |sorted| && forall p | i <= p < j :: sorted[p].shard == shard
    ensures forall r | r in sorted[i..j] :: r.shard == shard && r.ref in RefsOn(sorted[i..j], shard)
  {
    if i < j {
      GroupRefs(sorted, i, j - 1, shard);
      assert sorted[i..j] == sorted[i..j - 1] + [sorted[j - 1]];
      RefsOnLast(sorted[i..j - 1], sorted[j - 1], shard);
    }
  }

  lemma SameFresh(was: Jobs, had: map<Id, Manifest>, rows: seq<Claim>, sorted: seq<Claim>)
    requires Fresh(was, had, rows) && forall r :: r in sorted <==> r in rows
    ensures Fresh(was, had, sorted)
  {}

  /** Position i starts a group: all earlier rows are on lower shards. */
  ghost predicate NewGroupAt(sorted: seq<Claim>, i: nat) {
    i < |sorted| ==> forall r | r in sorted[..i] :: r.shard < sorted[i].shard
  }

  lemma GroupOver(sorted: seq<Claim>, j: nat)
    requires 0 < j <= |sorted| && ByShard(sorted) && (j < |sorted| ==> sorted[j].shard != sorted[j - 1].shard)
    ensures NewGroupAt(sorted, j)
  {
    if j < |sorted| {
      assert sorted[j - 1].shard <= sorted[j].shard;
      forall r | r in sorted[..j] ensures r.shard < sorted[j].shard {
        var n :| 0 <= n < j && sorted[..j][n] == r;
        assert n < j - 1 ==> sorted[n].shard <= sorted[j - 1].shard;
      }
    }
  }

  /** `groupby`: the end of the group that starts at i, and its refs. */
  method GroupFrom(sorted: seq<Claim>, i: nat) returns (j: nat, refs: seq<Key>)
    requires i < |sorted| && ByShard(sorted)
    ensures i < j <= |sorted| && forall p | i <= p < j :: sorted[p].shard == sorted[i].shard
    ensures NewGroupAt(sorted, j)
    ensures refs != [] && refs == RefsOn(sorted[i..j], sorted[i].shard)
  {
    hide RefsOn, ByShard, NewGroupAt;
    j, refs := i, [];
    RefsOnNone(sorted[i..i], sorted[i].shard);
    while j < |sorted| && sorted[j].shard == sorted[i].shard
      invariant i <= j <= |sorted| && |refs| == j - i
      invariant forall p | i <= p < j :: sorted[p].shard == sorted[i].shard
      invariant refs == RefsOn(sorted[i..j], sorted[i].shard)
    {
      assert sorted[i..j + 1] == sorted[i..j] + [sorted[j]];
      RefsOnLast(sorted[i..j], sorted[j], sorted[i].shard);
      refs := refs + [sorted[j].ref];
      j := j + 1;
    }
    GroupOver(sorted, j);
  }

  lemma RefsOnNone(rows: seq<Claim>, shard: int)
    requires rows == []
    ensures RefsOn(rows, shard) == []
  {}
}
