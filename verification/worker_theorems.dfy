/** A claimed batch run against the boosted-forest engine. */
module WorkerTheorems {
  import opened Hashing
  import opened Ordering
  import opened SparseMerkle
  import opened TreeCache
  import opened Erasure
  import opened JobQueue
  import opened Worker
  import Gbdt

  /** The engine's files and this worker's tree cache. */
  type Forest = (Gbdt.Disk, Entries)

  ghost function ForestEngine(c: Gbdt.Config): Engine<Forest> {
    (s: Forest, refs: seq<Key>) =>
      if !ValidEntries(c.h, s.1) then (s, None)
      else
        var (disk, entries, outcome) := Gbdt.Rebuild(c, s.0, s.1, refs);
        var a := Admit(s.0.routing, refs);
        ((disk, entries),
         if outcome.Done? && a.Admitted? && a.shard in disk.boosters
         then Some(Rebuilt(c.digest(disk.boosters[a.shard]), outcome.manifests)) else None)
  }

  lemma ForestCertifies(c: Gbdt.Config)
    ensures Certifies(ForestEngine(c))
  {
    forall s: Forest, refs: seq<Key> | ForestEngine(c)(s, refs).1.Some?
      ensures ToSet(refs) <= ForestEngine(c)(s, refs).1.value.manifests.Keys
    {
      DoneCertifies(c, s.0, s.1, refs);
    }
  }

  lemma DoneCertifies(c: Gbdt.Config, d: Gbdt.Disk, entries: Entries, refs: seq<Key>)
    requires ValidEntries(c.h, entries)
    ensures var outcome := Gbdt.Rebuild(c, d, entries, refs).2;
            outcome.Done? ==> ToSet(refs) <= outcome.manifests.Keys
  {
    hide Retain, Gbdt.TrainShard, Gbdt.Rollback, MinSlice, PopAll, TreeFor, ValidEntries;
    forall k | k in ToSet(refs) ensures k in refs {}
  }

  // -------------------------------------------------------- any history at all

  /** Subjects still routed are routed to the shard their job names; others may be long erased. */
  ghost predicate RoutedWhereNamed(routing: Routing, calls: seq<Call>) {
    forall m, k | 0 <= m < |calls| && k in calls[m].refs && k in routing :: routing[k].shard == calls[m].shard
  }

  /** A reply with manifests for its group's subjects, each true of the rows left and naming the weights. */
  ghost predicate ReplyTrue(h: Hash, call: Call, left: Shards) {
    call.reply.Some? && call.shard in left
    && forall k | k in call.refs ::
         k in call.reply.value.manifests
         && var m := call.reply.value.manifests[k];
            m.ref == k && m.shard == call.shard && m.resultWeights == call.reply.value.weights
            && CertificateTrue(h, k, m.datasetRoot, m.absenceProof, RefsOf(left[call.shard]))
  }

  ghost predicate ClashAt(c: Gbdt.Config, s: Forest, refs: seq<Key>) {
    Clash(c.h, s.0.shards, s.0.routing, s.1, refs)
  }

  lemma {:induction false} RoutesOnlyLeave(c: Gbdt.Config, s: Forest, calls: seq<Call>)
    requires ValidEntries(c.h, s.1)
    ensures var after := After(ForestEngine(c), s, calls);
            ValidEntries(c.h, after.1) && after.0.routing.Keys <= s.0.routing.Keys
            && forall k | k in after.0.routing :: after.0.routing[k] == s.0.routing[k]
  {
    hide Gbdt.Rebuild, ValidEntries;
    if calls != [] {
      var init, refs := calls[..|calls| - 1], calls[|calls| - 1].refs;
      RoutesOnlyLeave(c, s, init);
      var at := After(ForestEngine(c), s, init);
      Gbdt.RebuildKeepsCache(c, at.0, at.1, refs);
      Gbdt.RebuildKeepsRoutes(c, at.0, at.1, refs);
    }
  }

  /** Every reply is true of the files its call leaves, whatever state the deployment was in, whatever
      became of the other groups, and however often a subject is requested: or the fingerprint
      collided. */
  lemma RepliesTrue(c: Gbdt.Config, books: Books, s: Forest, calls: seq<Call>, n: nat)
    requires ValidEntries(c.h, s.1) && RoutedWhereNamed(s.0.routing, calls)
    requires Genuine(ForestEngine(c), books, s, calls) && n < |calls|
    ensures calls[n].reply.Some? ==>
              ReplyTrue(c.h, calls[n], After(ForestEngine(c), s, calls[..n + 1]).0.shards)
              || ClashAt(c, After(ForestEngine(c), s, calls[..n]), calls[n].refs)
  {
    hide Gbdt.Rebuild, CertificateTrue, Clash, ValidEntries, MinSlice;
    RoutesOnlyLeave(c, s, calls[..n]);
    assert calls[..n + 1][..n] == calls[..n];
    var at, refs := After(ForestEngine(c), s, calls[..n]), calls[n].refs;
    Gbdt.DoneManifestsTrue(c, at.0, at.1, refs);
    if calls[n].reply.Some? {
      AdmittedFacts(at.0.routing, refs);
      assert refs[0] in refs;
      forall k | k in refs ensures k in ToSet(refs) {}
    }
  }

  // ------------------------------------------------------- which groups are done

  /** Files that agree as far as any batch, failed or not, leaves them. */
  ghost predicate Consistent(c: Gbdt.Config, s: Forest) {
    ValidEntries(c.h, s.1) && Gbdt.Exact(c, s.0) && Gbdt.Covers(c, s.0)
  }

  /** One group whose shard is tight. Asked for a subject twice, the engine raises, yet the rows of
      every subject of the group are gone from the shard file; otherwise it returns manifests that are
      true of what it leaves. Other shards keep as they are. */
  lemma GroupOutcome(c: Gbdt.Config, s: Forest, refs: seq<Key>, shard: int)
    requires Consistent(c, s) && Gbdt.TightAt(s.0, shard) && !ClashAt(c, s, refs)
    requires refs != [] && forall k | k in refs :: k in s.0.routing && s.0.routing[k].shard == shard
    ensures var (after, reply) := ForestEngine(c)(s, refs);
            (reply.Some? <==> NoRepeats(refs)) && Consistent(c, after)
            && (forall t | t != shard :: Gbdt.TightAt(after.0, t) <==> Gbdt.TightAt(s.0, t))
            && (Gbdt.TightAt(after.0, shard) <==> NoRepeats(refs))
            && shard in s.0.shards && after.0.shards == Purged(s.0.shards, shard, refs)
            && after.0.shards[shard] != s.0.shards[shard]
            && after.0.routing == (if reply.Some? then s.0.routing - ToSet(refs) else s.0.routing)
            && (reply.Some? ==>
                  ManifestsTrue(c.h, Admit(s.0.routing, refs), refs, after.0.shards[shard], reply.value.weights,
                                reply.value.manifests))
  {
    hide Gbdt.Exact, Gbdt.Covers, Gbdt.TightAt, Gbdt.Rebuild, ManifestsTrue, Clash, Retain, MinSlice, ValidEntries,
         Recached, Gbdt.Clean, NoRepeats;
    var (d, entries) := s;
    assert refs[0] in refs;
    var a := Admit(d.routing, refs);
    assert a == Admitted(shard, a.minSlice);
    Gbdt.RebuildOutcomeAt(c, d, entries, refs);
    Gbdt.TightAfter(c, d, entries, refs);
    Gbdt.RebuildKeepsExact(c, d, entries, refs);
    Gbdt.RebuildKeepsCache(c, d, entries, refs);
    RowsGo(d, refs);
  }

  lemma RowsGo(d: Gbdt.Disk, refs: seq<Key>)
    requires Admit(d.routing, refs).Admitted? && Gbdt.TightAt(d, Admit(d.routing, refs).shard)
    ensures var s := Admit(d.routing, refs).shard; s in d.shards && Retain(d.shards[s], ToSet(refs)) != d.shards[s]
  {
    AdmittedFacts(d.routing, refs);
    assert refs[0] in refs;
    NoStaleInAfter(d.shards[Admit(d.routing, refs).shard], d.routing, refs);
  }

  /** Claimed jobs are routed to the shards their rows name. */
  ghost predicate RoutedJobs(routing: Routing, rows: seq<Claim>) {
    forall r | r in rows :: r.ref in routing && routing[r.ref].shard == r.shard
  }

  ghost predicate NoClashes(c: Gbdt.Config, s: Forest, calls: seq<Call>) {
    forall n | 0 <= n < |calls| :: !ClashAt(c, After(ForestEngine(c), s, calls[..n]), calls[n].refs)
  }

  lemma {:induction false} RefsOnRouted(routing: Routing, rows: seq<Claim>, shard: int)
    requires RoutedJobs(routing, rows)
    ensures forall k | k in RefsOn(rows, shard) :: k in routing && routing[k].shard == shard
  {
    if rows != [] {
      assert rows[|rows| - 1] in rows;
      RefsOnRouted(routing, rows[..|rows| - 1], shard);
    }
  }

  /** The calls from n on ask for subjects routed to their shard, and those shards are tight. */
  ghost predicate Ready(s: Forest, calls: seq<Call>, n: nat) {
    (forall m, k | n <= m < |calls| && k in calls[m].refs ::
       k in s.0.routing && s.0.routing[k].shard == calls[m].shard)
    && forall m | n <= m < |calls| :: Gbdt.TightAt(s.0, calls[m].shard)
  }

  lemma CallDone(c: Gbdt.Config, s: Forest, calls: seq<Call>, n: nat)
    requires n < |calls| && calls[n].refs != [] && Consistent(c, s)
    requires forall m | n < m < |calls| :: calls[m].shard != calls[n].shard
    requires !ClashAt(c, s, calls[n].refs)
    requires Ready(s, calls, n) && calls[n].reply == ForestEngine(c)(s, calls[n].refs).1
    ensures var after := ForestEngine(c)(s, calls[n].refs).0;
            Consistent(c, after) && Ready(after, calls, n + 1)
            && (calls[n].reply.Some? <==> NoRepeats(calls[n].refs))
            && (calls[n].reply.Some? ==> ReplyTrue(c.h, calls[n], after.0.shards))
  {
    hide Consistent, ForestEngine, ClashAt, CertificateTrue, NoRepeats, Gbdt.TightAt;
    GroupOutcome(c, s, calls[n].refs, calls[n].shard);
    var refs := calls[n].refs;
    assert refs[0] in refs;
    forall k | k in refs ensures k in ToSet(refs) {}
  }

  /** Call n of a batch answers if and only if its refs are distinct, and then truly. */
  ghost predicate Answers(c: Gbdt.Config, s: Forest, calls: seq<Call>, n: nat)
    requires n < |calls|
  {
    (calls[n].reply.Some? <==> NoRepeats(calls[n].refs))
    && (calls[n].reply.Some? ==> ReplyTrue(c.h, calls[n], After(ForestEngine(c), s, calls[..n + 1]).0.shards))
  }

  /** A claimed batch whose shards are tight. Every group is done if and only if no subject is asked for
      twice in it, whatever the other groups do, and each reply is true of the file it leaves. With
      ProcessClaimed: exactly those jobs end done, with their own true manifests, if they are booked. */
  lemma {:induction false} BatchDone(c: Gbdt.Config, books: Books, s: Forest, rows: seq<Claim>, calls: seq<Call>,
                                     n: nat)
    requires Consistent(c, s) && RoutedJobs(s.0.routing, rows) && (forall r | r in rows :: Gbdt.TightAt(s.0, r.shard))
    requires Grouped(rows, calls) && n <= |calls|
    requires Genuine(ForestEngine(c), books, s, calls) && NoClashes(c, s, calls)
    ensures Consistent(c, After(ForestEngine(c), s, calls[..n]))
            && Ready(After(ForestEngine(c), s, calls[..n]), calls, n)
    ensures forall m | 0 <= m < n :: Answers(c, s, calls, m)
  {
    hide Consistent, ForestEngine, Ready, Genuine, NoClashes, Answers, RefsOn, Gbdt.TightAt, Grouped, After;
    if n == 0 {
      assert calls[..0] == [];
      BatchReady(s, rows, calls);
      NothingCalled(c, s);
    } else {
      var m := n - 1;
      BatchDone(c, books, s, rows, calls, m);
      BatchStep(c, books, s, rows, calls, m);
    }
  }

  lemma NothingCalled(c: Gbdt.Config, s: Forest)
    ensures After(ForestEngine(c), s, []) == s
  {}

  lemma BatchStep(c: Gbdt.Config, books: Books, s: Forest, rows: seq<Claim>, calls: seq<Call>, m: nat)
    requires Grouped(rows, calls) && m < |calls|
    requires Genuine(ForestEngine(c), books, s, calls) && NoClashes(c, s, calls)
    requires Consistent(c, After(ForestEngine(c), s, calls[..m]))
             && Ready(After(ForestEngine(c), s, calls[..m]), calls, m)
    ensures var after := After(ForestEngine(c), s, calls[..m + 1]);
            Consistent(c, after) && Ready(after, calls, m + 1) && Answers(c, s, calls, m)
  {
    hide Consistent, ForestEngine, ClashAt, ReplyTrue, RefsOn, NoRepeats, Gbdt.TightAt, Ready;
    assert calls[..m + 1][..m] == calls[..m];
    CallDone(c, After(ForestEngine(c), s, calls[..m]), calls, m);
  }

  lemma BatchReady(s: Forest, rows: seq<Claim>, calls: seq<Call>)
    requires RoutedJobs(s.0.routing, rows) && (forall r | r in rows :: Gbdt.TightAt(s.0, r.shard))
    requires Grouped(rows, calls)
    ensures Ready(s, calls, 0)
  {
    hide RefsOn, Gbdt.TightAt;
    forall m | 0 <= m < |calls|
      ensures Gbdt.TightAt(s.0, calls[m].shard)
      ensures forall k | k in calls[m].refs :: k in s.0.routing && s.0.routing[k].shard == calls[m].shard
    {
      RefsOnRouted(s.0.routing, rows, calls[m].shard);
      SomeoneOn(rows, calls[m].shard);
    }
  }
}
