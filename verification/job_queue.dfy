/** The erasure job table: gateway/idempotency.py, worker/queue.py and the status updates of
    worker/jobs.py, as a table class and as a transition system over its runs. */
module JobQueue {
  import opened Hashing
  import opened SparseMerkle

  type Id = string

  datatype Status = Queued | Processing | Completed | Failed

  datatype Job = Job(
    ref: Key,
    shard: int,
    principal: string,
    key: string,
    deadline: int,
    status: Status,
    leasedBy: Option<string>,
    leaseExpires: Option<int>,
    attempts: nat)

  type Jobs = map<Id, Job>

  datatype Request = Request(ref: Key, shard: int, principal: string, key: string, deadline: int)

  // -------------------------------------------------------------- statements

  predicate SameKey(j: Job, principal: string, key: string) {
    j.principal == principal && j.key == key
  }

  predicate Taken(jobs: Jobs, principal: string, key: string) {
    exists id :: id in jobs && SameKey(jobs[id], principal, key)
  }

  function NewJob(r: Request): Job {
    Job(r.ref, r.shard, r.principal, r.key, r.deadline, Queued, None, None, 0)
  }

  function Release(j: Job, status: Status): Job {
    j.(status := status, leasedBy := None, leaseExpires := None)
  }

  predicate Expired(j: Job, now: int) {
    j.status.Processing? && j.leaseExpires.Some? && j.leaseExpires.value < now
  }

  function Lease(j: Job, worker: string, until: int): Job {
    j.(status := Processing, leasedBy := Some(worker), leaseExpires := Some(until), attempts := j.attempts + 1)
  }

  /** What one committed statement does to the table. Finishing looks at ids only, not at status. */
  datatype Event =
    | Requested(id: Id, request: Request)
    | Reaped
    | Claimed(worker: string, lease: int, ids: set<Id>)
    | Finished(ids: set<Id>, ok: bool)

  datatype Step = Step(now: int, event: Event)

  /** uuid4 ids are new, and a claim takes queued rows. */
  predicate Enabled(jobs: Jobs, s: Step) {
    match s.event
    case Requested(id, _) => id !in jobs
    case Claimed(_, _, ids) => forall id | id in ids :: id in jobs && jobs[id].status.Queued?
    case _ => true
  }

  function Apply(jobs: Jobs, s: Step): Jobs {
    match s.event
    case Requested(id, r) => if Taken(jobs, r.principal, r.key) then jobs else jobs[id := NewJob(r)]
    case Reaped => map id | id in jobs :: if Expired(jobs[id], s.now) then Release(jobs[id], Queued) else jobs[id]
    case Claimed(worker, lease, ids) =>
      map id | id in jobs :: if id in ids then Lease(jobs[id], worker, s.now + lease) else jobs[id]
    case Finished(ids, ok) =>
      map id | id in jobs :: if id in ids then Release(jobs[id], if ok then Completed else Failed) else jobs[id]
  }

  // ------------------------------------------------------------------ claims

  /** ORDER BY shard, sla_deadline */
  predicate Precedes(a: Job, b: Job) {
    a.shard < b.shard || (a.shard == b.shard && a.deadline < b.deadline)
  }

  function Available(jobs: Jobs, locked: set<Id>): set<Id> {
    set id | id in jobs && jobs[id].status.Queued? && id !in locked
  }

  /** The subquery: as many as allowed of the queued rows nobody else has locked, none of them
      ahead of a row taken. */
  ghost predicate Selects(jobs: Jobs, locked: set<Id>, limit: nat, ids: set<Id>) {
    var free := Available(jobs, locked);
    ids <= free && |ids| == (if |free| < limit then |free| else limit)
    && forall a, b | a in ids && b in free - ids :: !Precedes(jobs[b], jobs[a])
  }

  lemma NoneAhead(jobs: Jobs, locked: set<Id>, limit: nat, ids: set<Id>)
    requires Selects(jobs, locked, limit, ids)
    ensures ids <= jobs.Keys
    ensures forall a, b | a in ids && b in jobs && jobs[b].status.Queued? && b !in locked && b !in ids ::
              jobs[a].shard < jobs[b].shard
              || (jobs[a].shard == jobs[b].shard && jobs[a].deadline <= jobs[b].deadline)
  {
    forall a, b | a in ids && b in jobs && jobs[b].status.Queued? && b !in locked && b !in ids
      ensures !Precedes(jobs[b], jobs[a])
    {
      assert b in Available(jobs, locked) - ids;
    }
  }

  lemma {:induction false} EarliestExists(jobs: Jobs, ids: set<Id>)
    requires ids != {} && forall id | id in ids :: id in jobs
    ensures exists a :: a in ids && forall b | b in ids :: !Precedes(jobs[b], jobs[a])
    decreases |ids|
  {
    var x :| x in ids;
    var rest := ids - {x};
    if rest != {} {
      EarliestExists(jobs, rest);
      var y :| y in rest && forall b | b in rest :: !Precedes(jobs[b], jobs[y]);
      var a := if Precedes(jobs[x], jobs[y]) then x else y;
      forall b | b in ids ensures !Precedes(jobs[b], jobs[a]) { assert b != x ==> b in rest; }
    } else {
      assert ids == {x};
    }
  }

  /** One fetched row. */
  datatype Claim = Claim(id: Id, ref: Key, shard: int)

  predicate ByShard(rows: seq<Claim>) {
    forall i, j | 0 <= i < j < |rows| :: rows[i].shard <= rows[j].shard
  }

  /** A stable sort puts a new row behind every row whose shard is not greater. */
  function Insert(rows: seq<Claim>, r: Claim): seq<Claim> {
    if rows == [] then [r]
    else if rows[|rows| - 1].shard <= r.shard then rows + [r]
    else Insert(rows[..|rows| - 1], r) + [rows[|rows| - 1]]
  }

  /** `rows.sort(key=lambda r: r["shard"])` */
  function SortByShard(rows: seq<Claim>): seq<Claim> {
    if rows == [] then [] else Insert(SortByShard(rows[..|rows| - 1]), rows[|rows| - 1])
  }

  lemma {:induction false} InsertAdds(rows: seq<Claim>, r: Claim)
    ensures multiset(Insert(rows, r)) == multiset(rows) + multiset{r}
  {
    if rows != [] {
      var front, last := rows[..|rows| - 1], rows[|rows| - 1];
      assert rows == front + [last];
      InsertAdds(front, r);
    }
  }

  lemma {:induction false} InsertSorts(rows: seq<Claim>, r: Claim)
    requires ByShard(rows)
    ensures ByShard(Insert(rows, r))
  {
    if rows != [] && r.shard < rows[|rows| - 1].shard {
      var front, last := rows[..|rows| - 1], rows[|rows| - 1];
      InsertSorts(front, r);
      InsertAdds(front, r);
      var f := Insert(front, r);
      forall i | 0 <= i < |f| ensures f[i].shard <= last.shard {
        assert f[i] in multiset(f);
      }
    }
  }

  lemma {:induction false} Sorts(rows: seq<Claim>)
    ensures ByShard(SortByShard(rows)) && multiset(SortByShard(rows)) == multiset(rows)
  {
    if rows != [] {
      Sorts(rows[..|rows| - 1]);
      InsertSorts(SortByShard(rows[..|rows| - 1]), rows[|rows| - 1]);
      InsertAdds(SortByShard(rows[..|rows| - 1]), rows[|rows| - 1]);
      assert rows == rows[..|rows| - 1] + [rows[|rows| - 1]];
    }
  }

  ghost predicate Fetched(jobs: Jobs, rows: seq<Claim>, ids: set<Id>) {
    |rows| == |ids|
    && (forall i | 0 <= i < |rows| :: rows[i].id in ids)
    && (forall i, j | 0 <= i < j < |rows| :: rows[i].id != rows[j].id)
    && forall r | r in rows :: r.id in jobs && r.ref == jobs[r.id].ref && r.shard == jobs[r.id].shard
  }

  // --------------------------------------------------------------- the table

  /** Lease fields are set exactly while a job is processing. */
  predicate Leased(j: Job) {
    (j.status.Processing? <==> j.leasedBy.Some?) && (j.status.Processing? <==> j.leaseExpires.Some?)
  }

  ghost predicate Sane(jobs: Jobs) {
    (forall id | id in jobs :: Leased(jobs[id]))
    && forall a, b | a in jobs && b in jobs && SameKey(jobs[a], jobs[b].principal, jobs[b].key) :: a == b
  }

  lemma ApplySane(jobs: Jobs, s: Step)
    requires Sane(jobs) && Enabled(jobs, s)
    ensures Sane(Apply(jobs, s))
  {}

  class Table {
    var jobs: Jobs

    constructor ()
      ensures jobs == map[] && Sane(jobs)
    {
      jobs := map[];
    }

    /** `insert_or_get`: the unique constraint decides; a replay gets the first request's id. */
    method InsertOrGet(newId: Id, r: Request, ghost now: int) returns (id: Id, created: bool)
      requires Sane(jobs) && newId !in jobs
      modifies this
      ensures Sane(jobs) && jobs == Apply(old(jobs), Step(now, Requested(newId, r)))
      ensures created <==> !Taken(old(jobs), r.principal, r.key)
      ensures created ==>
                id == newId && jobs[id].status.Queued? && jobs[id].attempts == 0
                && jobs[id].ref == r.ref && jobs[id].shard == r.shard && jobs[id].deadline == r.deadline
                && jobs[id].principal == r.principal && jobs[id].key == r.key
      ensures !created ==> jobs == old(jobs)
      ensures id in jobs && forall x :: x in jobs && SameKey(jobs[x], r.principal, r.key) <==> x == id
    {
      ApplySane(jobs, Step(now, Requested(newId, r)));
      if exists x :: x in jobs && SameKey(jobs[x], r.principal, r.key) {
        id :| id in jobs && SameKey(jobs[id], r.principal, r.key);
        created := false;
      } else {
        jobs := jobs[newId := NewJob(r)];
        id, created := newId, true;
      }
    }

    method ReapExpiredLeases(now: int) returns (count: nat)
      requires Sane(jobs)
      modifies this
      ensures Sane(jobs) && jobs == Apply(old(jobs), Step(now, Reaped))
      ensures count == |set id | id in old(jobs) && Expired(old(jobs)[id], now)|
      ensures forall id | id in old(jobs) ::
                id in jobs && jobs[id].attempts == old(jobs)[id].attempts
                && if Expired(old(jobs)[id], now) then jobs[id].status.Queued? else jobs[id] == old(jobs)[id]
    {
      ApplySane(jobs, Step(now, Reaped));
      var expired := set id | id in jobs && Expired(jobs[id], now);
      jobs := map id | id in jobs :: if id in expired then Release(jobs[id], Queued) else jobs[id];
      count := |expired|;
    }

    /** `claim_batch`; `locked` are the rows other transactions hold. */
    method ClaimBatch(worker: string, now: int, lease: int, limit: nat, locked: set<Id>)
      returns (rows: seq<Claim>, ghost ids: set<Id>)
      requires Sane(jobs)
      modifies this
      ensures Selects(old(jobs), locked, limit, ids)
      ensures forall a, b | a in ids && b in old(jobs) && old(jobs)[b].status.Queued? && b !in locked && b !in ids ::
                old(jobs)[a].shard < old(jobs)[b].shard
                || (old(jobs)[a].shard == old(jobs)[b].shard && old(jobs)[a].deadline <= old(jobs)[b].deadline)
      ensures Sane(jobs) && jobs == Apply(old(jobs), Step(now, Claimed(worker, lease, ids)))
      ensures Fetched(jobs, rows, ids) && ByShard(rows)
      ensures forall id | id in ids ::
                jobs[id].status.Processing? && jobs[id].leasedBy == Some(worker)
                && jobs[id].leaseExpires == Some(now + lease)
                && jobs[id].attempts == old(jobs)[id].attempts + 1
    {
      hide Sane, Precedes, Fetched;
      var taken := SelectRows(limit, locked);
      ids := taken;
      NoneAhead(jobs, locked, limit, ids);
      ApplySane(jobs, Step(now, Claimed(worker, lease, ids)));
      jobs := map id | id in jobs :: if id in taken then Lease(jobs[id], worker, now + lease) else jobs[id];
      rows := FetchSorted(taken);
    }

    method FetchSorted(ids: set<Id>) returns (rows: seq<Claim>)
      requires ids <= jobs.Keys
      ensures Fetched(jobs, rows, ids) && ByShard(rows)
    {
      var fetched := FetchRows(ids);
      Sorts(fetched);
      rows := SortByShard(fetched);
      SortedFetched(jobs, fetched, rows, ids);
    }

    /** SELECT ... ORDER BY ... FOR UPDATE SKIP LOCKED LIMIT */
    method SelectRows(limit: nat, locked: set<Id>) returns (taken: set<Id>)
      ensures Selects(jobs, locked, limit, taken)
    {
      var free := Available(jobs, locked);
      taken := {};
      while |taken| < limit && free - taken != {}
        invariant taken <= free && |taken| <= limit
        invariant forall a, b | a in taken && b in free - taken :: !Precedes(jobs[b], jobs[a])
        decreases free - taken
      {
        EarliestExists(jobs, free - taken);
        var id :| id in free - taken && forall b | b in free - taken :: !Precedes(jobs[b], jobs[id]);
        taken := taken + {id};
      }
      SelectedEnough(free, taken, limit);
    }

    /** RETURNING: one row per updated job, in no particular order. */
    method FetchRows(ids: set<Id>) returns (rows: seq<Claim>)
      requires ids <= jobs.Keys
      ensures Fetched(jobs, rows, ids)
    {
      rows := [];
      var left := ids;
      while left != {}
        invariant left <= ids && Fetched(jobs, rows, ids - left)
        decreases left
      {
        var id :| id in left;
        assert ids - (left - {id}) == (ids - left) + {id};
        rows := rows + [Claim(id, jobs[id].ref, jobs[id].shard)];
        left := left - {id};
      }
      assert ids - left == ids;
    }

    /** The final UPDATE of a job, whether or not this worker still holds its lease. */
    method Finish(id: Id, ok: bool, ghost now: int)
      requires Sane(jobs) && id in jobs
      modifies this
      ensures Sane(jobs) && jobs == Apply(old(jobs), Step(now, Finished({id}, ok)))
      ensures jobs.Keys == old(jobs.Keys) && jobs[id].status == (if ok then Completed else Failed)
      ensures jobs[id].leasedBy.None? && jobs[id].leaseExpires.None? && jobs[id].attempts == old(jobs)[id].attempts
      ensures forall x | x in jobs && x != id :: jobs[x] == old(jobs)[x]
    {
      ApplySane(jobs, Step(now, Finished({id}, ok)));
      jobs := jobs[id := Release(jobs[id], if ok then Completed else Failed)];
    }
  }

  lemma SelectedEnough(free: set<Id>, taken: set<Id>, limit: nat)
    requires taken <= free && |taken| <= limit && (|taken| == limit || free - taken == {})
    ensures |taken| == (if |free| < limit then |free| else limit)
  {
    assert free == taken + (free - taken);
    assert |free| == |taken| + |free - taken|;
  }

  lemma SortedFetched(jobs: Jobs, fetched: seq<Claim>, rows: seq<Claim>, ids: set<Id>)
    requires Fetched(jobs, fetched, ids) && multiset(rows) == multiset(fetched)
    ensures Fetched(jobs, rows, ids)
  {
    assert |rows| == |multiset(rows)| == |fetched|;
    forall i | 0 <= i < |rows| ensures rows[i] in fetched { assert rows[i] in multiset(rows); }
    forall i, j | 0 <= i < j < |rows| ensures rows[i].id != rows[j].id {
      if rows[i].id == rows[j].id {
        SameIdSameRow(fetched, rows[i], rows[j]);
        TwiceInMultiset(rows, i, j);
        TwiceInSequence(fetched, rows[i]);
      }
    }
  }

  lemma SameIdSameRow(rows: seq<Claim>, a: Claim, b: Claim)
    requires a in rows && b in rows && a.id == b.id
    requires forall i, j | 0 <= i < j < |rows| :: rows[i].id != rows[j].id
    ensures a == b
  {}

  lemma TwiceInMultiset<T>(s: seq<T>, i: nat, j: nat)
    requires i < j < |s| && s[i] == s[j]
    ensures multiset(s)[s[i]] >= 2
  {
    assert s == s[..j] + [s[j]] + s[j + 1..];
    assert s[i] == s[..j][i] && s[i] in multiset(s[..j]);
  }

  lemma {:induction false} TwiceInSequence(rows: seq<Claim>, r: Claim)
    requires multiset(rows)[r] >= 2
    ensures exists i, j :: 0 <= i < j < |rows| && rows[i].id == rows[j].id
  {
    var front, last := rows[..|rows| - 1], rows[|rows| - 1];
    assert rows == front + [last];
    if last == r {
      assert r in multiset(front);
      var i :| 0 <= i < |front| && front[i] == r;
      assert rows[i].id == rows[|rows| - 1].id;
    } else {
      TwiceInSequence(front, r);
      var i, j :| 0 <= i < j < |front| && front[i].id == front[j].id;
      assert rows[i].id == rows[j].id;
    }
  }

  // -------------------------------------------------------------------- runs

  /** Any interleaving of gateways and workers, as the order in which their statements commit. */
  function Run(steps: seq<Step>): Jobs {
    if steps == [] then map[] else Apply(Run(steps[..|steps| - 1]), steps[|steps| - 1])
  }

  predicate Legal(steps: seq<Step>) {
    steps == [] || (Legal(steps[..|steps| - 1]) && Enabled(Run(steps[..|steps| - 1]), steps[|steps| - 1]))
  }

  predicate ClaimedAt(steps: seq<Step>, i: int, id: Id) {
    0 <= i < |steps| && steps[i].event.Claimed? && id in steps[i].event.ids
  }

  function Claims(steps: seq<Step>, id: Id): nat {
    if steps == [] then 0
    else Claims(steps[..|steps| - 1], id) + (if ClaimedAt(steps, |steps| - 1, id) then 1 else 0)
  }

  /** In every reachable table, lease fields are set exactly while processing, no two jobs share
      principal and key, and a job's attempts are the claims that took it. */
  lemma {:induction false} RunSane(steps: seq<Step>)
    requires Legal(steps)
    ensures Sane(Run(steps))
    ensures forall id | id in Run(steps) :: Run(steps)[id].attempts == Claims(steps, id)
    ensures forall id | id !in Run(steps) :: Claims(steps, id) == 0
  {
    hide Sane;
    if steps == [] {
      assert Sane(map[]) by { EmptySane(); }
    } else {
      RunSane(steps[..|steps| - 1]);
      ApplySane(Run(steps[..|steps| - 1]), steps[|steps| - 1]);
    }
  }

  lemma EmptySane()
    ensures Sane(map[])
  {}

  predicate SameRequest(a: Job, b: Job) {
    a.ref == b.ref && a.shard == b.shard && a.principal == b.principal && a.key == b.key && a.deadline == b.deadline
  }

  /** Jobs are never dropped, and what was requested never changes. */
  lemma {:induction false} JobsPersist(steps: seq<Step>, n: nat, id: Id)
    requires Legal(steps) && n <= |steps| && id in Run(steps[..n])
    ensures id in Run(steps) && SameRequest(Run(steps[..n])[id], Run(steps)[id])
  {
    if n == |steps| {
      assert steps[..n] == steps;
    } else {
      assert steps[..|steps| - 1][..n] == steps[..n];
      JobsPersist(steps[..|steps| - 1], n, id);
    }
  }

  /** A replayed request, however much later, finds the job its key first created and adds none. */
  lemma ReplayFindsOriginal(steps: seq<Step>, n: nat, r: Request, id: Id, newId: Id, now: int)
    requires Legal(steps) && n < |steps| && steps[n].event == Requested(id, r)
    requires !Taken(Run(steps[..n]), r.principal, r.key)
    ensures id in Run(steps) && Run(steps)[id].ref == r.ref && SameKey(Run(steps)[id], r.principal, r.key)
    ensures Apply(Run(steps), Step(now, Requested(newId, r))) == Run(steps)
    ensures forall x | x in Run(steps) && SameKey(Run(steps)[x], r.principal, r.key) :: x == id
  {
    hide Apply, Run;
    FirstRequest(steps, n, r, id);
    JobsPersist(steps, n + 1, id);
    RunSane(steps);
    ReplayIgnored(Run(steps), r, id, newId, now);
  }

  lemma FirstRequest(steps: seq<Step>, n: nat, r: Request, id: Id)
    requires n < |steps| && steps[n].event == Requested(id, r) && !Taken(Run(steps[..n]), r.principal, r.key)
    ensures id in Run(steps[..n + 1]) && Run(steps[..n + 1])[id] == NewJob(r)
  {
    hide Taken;
    assert steps[..n + 1][..n] == steps[..n];
  }

  lemma ReplayIgnored(jobs: Jobs, r: Request, id: Id, newId: Id, now: int)
    requires id in jobs && SameKey(jobs[id], r.principal, r.key)
    ensures Apply(jobs, Step(now, Requested(newId, r))) == jobs
  {}

  function LeaseEnd(steps: seq<Step>, i: int): int
    requires 0 <= i < |steps| && steps[i].event.Claimed?
  {
    steps[i].now + steps[i].event.lease
  }

  /** What a processing job's lease says: who holds it, and since when. */
  ghost predicate HeldSince(steps: seq<Step>, i: int, id: Id) {
    ClaimedAt(steps, i, id) && id in Run(steps)
    && var j := Run(steps)[id];
       j.status.Processing? ==> j.leaseExpires == Some(LeaseEnd(steps, i)) && j.leasedBy == Some(steps[i].event.worker)
  }

  ghost predicate RequeuedWithin(steps: seq<Step>, i: int, j: int)
    requires 0 <= i < |steps| && steps[i].event.Claimed?
  {
    exists k :: i < k < j && k < |steps| && steps[k].event.Reaped? && LeaseEnd(steps, i) < steps[k].now
  }

  /** From a claim on, until a reaper finds that lease expired, the job is not queued. */
  lemma {:induction false} ClaimHolds(steps: seq<Step>, i: nat, id: Id)
    requires Legal(steps) && ClaimedAt(steps, i, id)
    ensures RequeuedWithin(steps, i, |steps|) || (HeldSince(steps, i, id) && !Run(steps)[id].status.Queued?)
  {
    var m := |steps| - 1;
    var init := steps[..m];
    if i < m {
      assert init[i] == steps[i];
      if RequeuedWithin(init, i, m) {
        var k :| i < k < m && k < |init| && init[k].event.Reaped? && LeaseEnd(init, i) < init[k].now;
        assert steps[k] == init[k];
      }
      ClaimHolds(init, i, id);
    }
  }

  /** Two claims of one job always have a requeue between them, by a reaper that ran after the first
      lease was over: no two leases on a job overlap. */
  lemma RequeuedBetweenClaims(steps: seq<Step>, i: nat, j: nat, id: Id)
    requires Legal(steps) && i < j && ClaimedAt(steps, i, id) && ClaimedAt(steps, j, id)
    ensures RequeuedWithin(steps, i, j)
    ensures (forall a, b | 0 <= a <= b < |steps| :: steps[a].now <= steps[b].now)
            ==> LeaseEnd(steps, i) < steps[j].now
  {
    LegalPrefix(steps, j);
    LegalPrefix(steps, j + 1);
    var before := steps[..j];
    assert steps[..j + 1][..j] == before && before[i] == steps[i];
    ClaimHolds(before, i, id);
    var k :| i < k < j && k < |before| && before[k].event.Reaped? && LeaseEnd(before, i) < before[k].now;
    assert steps[k] == before[k];
  }

  lemma {:induction false} LegalPrefix(steps: seq<Step>, n: nat)
    requires Legal(steps) && n <= |steps|
    ensures Legal(steps[..n])
  {
    if n == |steps| {
      assert steps[..n] == steps;
    } else {
      assert steps[..|steps| - 1][..n] == steps[..n];
      LegalPrefix(steps[..|steps| - 1], n);
    }
  }

  predicate Over(j: Job) { j.status.Completed? || j.status.Failed? }

  /** Once finished, a job is never requeued or claimed again. */
  lemma {:induction false} OverForGood(steps: seq<Step>, n: nat, id: Id)
    requires Legal(steps) && n <= |steps| && id in Run(steps[..n]) && Over(Run(steps[..n])[id])
    ensures id in Run(steps) && Over(Run(steps)[id])
    ensures Run(steps)[id].attempts == Run(steps[..n])[id].attempts
    ensures forall j | n <= j < |steps| :: !ClaimedAt(steps, j, id)
  {
    if n == |steps| {
      assert steps[..n] == steps;
    } else {
      var m := |steps| - 1;
      var init := steps[..m];
      assert init[..n] == steps[..n];
      OverForGood(init, n, id);
      forall j | n <= j < |steps| ensures !ClaimedAt(steps, j, id) {
        assert j < m ==> !ClaimedAt(init, j, id);
      }
    }
  }
}
