/** Promotion and serving: `_promote` (worker/jobs.py), `promote_artifact` (engine/active.py), the
    bootstrap (scripts/load_routing.py) and `load_gbdt_ensemble` with its cache
    (inference/batched_ensemble.py). A rebuild overwrites a live
    file; promotion copies it to a file named by its digest and adds a model version. */
module Promotion {
  import opened Hashing

  /** Under the checkpoint directory: a shard's mutable live model, and the copies in `cas/`. */
  datatype Path = Live(shard: int) | Cas(digest: Digest)
  type Files = map<Path, Bytes>

  /** `v0-baseline`, or `v-` and the first twelve hex digits of the weights' digest. */
  datatype Name = Baseline | Prefix(digits: Bytes)

  function NameOf(weights: Digest): Name { Prefix(weights[..6]) }

  /** Two weights share a version name if and only if their digests start alike, six bytes long. */
  lemma NamesShared(a: Digest, b: Digest)
    ensures NameOf(a) == NameOf(b) <==> forall i | 0 <= i < 6 :: a[i] == b[i]
  {}

  datatype Checkpoint = Checkpoint(shard: int, path: Path)
  datatype Version = Version(name: Name, shards: map<int, Digest>, promotedAt: int)

  /** Files and tables; versions in the order inserted. */
  datatype State = State(files: Files, checkpoints: map<Digest, Checkpoint>, versions: seq<Version>)

  // ----------------------------------------------------------------- queries

  /** What `ORDER BY promoted_at DESC LIMIT 1` may return: the map of any version of the latest time, for
      SQL leaves the order of ties open; with no version at all, no shard. */
  ghost predicate MayServe(versions: seq<Version>, shards: map<int, Digest>) {
    (versions == [] && shards == map[])
    || exists v :: v in versions && v.shards == shards && NoneLater(versions, v.promotedAt)
  }

  /** The query can return nothing else. */
  ghost predicate ServesOnly(versions: seq<Version>, shards: map<int, Digest>) {
    MayServe(versions, shards) && forall other | MayServe(versions, other) :: other == shards
  }

  ghost predicate NoneLater(versions: seq<Version>, now: int) {
    forall v | v in versions :: v.promotedAt <= now
  }

  ghost predicate AllEarlier(versions: seq<Version>, now: int) {
    forall v | v in versions :: v.promotedAt < now
  }

  ghost predicate Named(versions: seq<Version>, name: Name) {
    exists v :: v in versions && v.name == name
  }

  // -------------------------------------------------------------- operations

  function Overwrite(s: State, shard: int, bytes: Bytes): State {
    s.(files := s.files[Live(shard) := bytes])
  }

  /** `promote_artifact` raises when there is neither a copy nor a live file. */
  predicate CanCopy(files: Files, shard: int, weights: Digest) { Cas(weights) in files || Live(shard) in files }

  /** `promote_artifact`: an existing copy is never written again, and a new one takes the live file as it
      is by then. */
  function Copied(files: Files, shard: int, weights: Digest): Files
    requires CanCopy(files, shard, weights)
  {
    if Cas(weights) in files then files else files[Cas(weights) := files[Live(shard)]]
  }

  /** INSERT INTO checkpoints ... ON CONFLICT (checkpoint_hash) DO NOTHING */
  function Recorded(checkpoints: map<Digest, Checkpoint>, shard: int, weights: Digest): map<Digest, Checkpoint> {
    if weights in checkpoints then checkpoints else checkpoints[weights := Checkpoint(shard, Cas(weights))]
  }

  /** `_promote`: `now` is when its transaction began, `row` the shard map its query returned. */
  ghost function Promoted(s: State, shard: int, weights: Digest, now: int, row: map<int, Digest>): State {
    if !CanCopy(s.files, shard, weights) then s
    else
      State(Copied(s.files, shard, weights), Recorded(s.checkpoints, shard, weights),
            Versioned(s.versions, shard, weights, now, row))
  }

  /** INSERT INTO model_versions ... ON CONFLICT (model_version) DO NOTHING */
  ghost function Versioned(versions: seq<Version>, shard: int, weights: Digest, now: int, row: map<int, Digest>)
    : seq<Version>
  {
    if Named(versions, NameOf(weights)) then versions
    else versions + [Version(NameOf(weights), row[shard := weights], now)]
  }

  /** The live models of shards 0 to n - 1 copied and recorded, as the bootstrap does first. */
  function Enrolled(h: Hash, s: State, n: nat): (r: State)
    requires forall k | 0 <= k < n :: Live(k) in s.files
    ensures forall k | Live(k) in s.files :: Live(k) in r.files && r.files[Live(k)] == s.files[Live(k)]
  {
    if n == 0 then s
    else
      var p, k := Enrolled(h, s, n - 1), n - 1;
      var weights := h(p.files[Live(k)]);
      State(Copied(p.files, k, weights), Recorded(p.checkpoints, k, weights), p.versions)
  }

  function LiveDigests(h: Hash, files: Files, n: nat): map<int, Digest>
    requires forall k | 0 <= k < n :: Live(k) in files
  {
    map k | 0 <= k < n :: h(files[Live(k)])
  }

  /** The whole bootstrap: one version, `v0-baseline`, of every shard's live model. */
  ghost function Bootstrapped(h: Hash, s: State, n: nat, now: int): State
    requires forall k | 0 <= k < n :: Live(k) in s.files
  {
    var e := Enrolled(h, s, n);
    if Named(s.versions, Baseline) then e
    else e.(versions := s.versions + [Version(Baseline, LiveDigests(h, s.files, n), now)])
  }

  class Registry {
    var files: Files
    var checkpoints: map<Digest, Checkpoint>
    var versions: seq<Version>

    ghost function Contents(): State
      reads this
    {
      State(files, checkpoints, versions)
    }

    constructor ()
      ensures Contents() == State(map[], map[], [])
    {
      files, checkpoints, versions := map[], map[], [];
    }

    /** None stands for the exception of copying a file that is not there. */
    method PromoteArtifact(shard: int, weights: Digest) returns (path: Option<Path>)
      modifies this`files
      ensures path == if CanCopy(old(files), shard, weights) then Some(Cas(weights)) else None
      ensures files == if path.Some? then Copied(old(files), shard, weights) else old(files)
    {
      if Cas(weights) !in files {
        if Live(shard) !in files { return None; }
        files := files[Cas(weights) := files[Live(shard)]];
      }
      path := Some(Cas(weights));
    }

    /** `_promote` up to the evaluation: both inserts do nothing on a conflict. */
    method Promote(shard: int, weights: Digest, now: int, row: map<int, Digest>) returns (ok: bool)
      modifies this
      ensures ok == CanCopy(old(files), shard, weights)
      ensures Contents() == Promoted(old(Contents()), shard, weights, now, row)
      ensures !ok || Named(old(versions), NameOf(weights)) ==> versions == old(versions)
      ensures ok && !Named(old(versions), NameOf(weights)) ==>
                versions == old(versions) + [Version(NameOf(weights), row[shard := weights], now)]
    {
      var path := PromoteArtifact(shard, weights);
      if path.None? { return false; }
      if weights !in checkpoints { checkpoints := checkpoints[weights := Checkpoint(shard, path.value)]; }
      var shards := row[shard := weights];
      var name := NameOf(weights);
      if !(exists v :: v in versions && v.name == name) {
        versions := versions + [Version(name, shards, now)];
      }
      ok := true;
    }

    /** scripts/load_routing.py, up to the evaluation. */
    method Bootstrap(h: Hash, numShards: nat, now: int)
      requires forall k | 0 <= k < numShards :: Live(k) in files
      modifies this
      ensures Contents() == Bootstrapped(h, old(Contents()), numShards, now)
      ensures Named(old(versions), Baseline) ==> versions == old(versions)
    {
      hide Copied, Recorded, Enrolled, LiveDigests;
      ghost var before := Contents();
      var shards: map<int, Digest> := map[];
      NoneEnrolledYet(h, before);
      for shard := 0 to numShards
        invariant forall k | 0 <= k < numShards :: Live(k) in before.files
        invariant Contents() == Enrolled(h, before, shard)
        invariant shards == LiveDigests(h, before.files, shard)
      {
        EnrolledUnfold(h, before, shard + 1);
        OneMoreDigest(h, before.files, shard);
        var digest := h(files[Live(shard)]);
        var path := PromoteArtifact(shard, digest);
        RecordedIs(checkpoints, shard, digest);
        if digest !in checkpoints { checkpoints := checkpoints[digest := Checkpoint(shard, path.value)]; }
        shards := shards[shard := digest];
      }
      EnrolledVersions(h, before, numShards);
      if !(exists v :: v in versions && v.name == Baseline) {
        versions := versions + [Version(Baseline, shards, now)];
      }
    }
  }

  lemma RecordedIs(checkpoints: map<Digest, Checkpoint>, shard: int, weights: Digest)
    ensures weights in checkpoints ==> Recorded(checkpoints, shard, weights) == checkpoints
    ensures weights !in checkpoints ==>
              Recorded(checkpoints, shard, weights) == checkpoints[weights := Checkpoint(shard, Cas(weights))]
  {}

  lemma NoneEnrolledYet(h: Hash, s: State)
    ensures Enrolled(h, s, 0) == s && LiveDigests(h, s.files, 0) == map[]
  {}

  lemma EnrolledUnfold(h: Hash, s: State, n: nat)
    requires n > 0 && forall k | 0 <= k < n :: Live(k) in s.files
    ensures var p, k := Enrolled(h, s, n - 1), n - 1;
            Live(k) in p.files && p.files[Live(k)] == s.files[Live(k)]
            && var d := h(p.files[Live(k)]);
               Enrolled(h, s, n) == State(Copied(p.files, k, d), Recorded(p.checkpoints, k, d), p.versions)
  {}

  lemma OneMoreDigest(h: Hash, files: Files, n: nat)
    requires forall k | 0 <= k <= n :: Live(k) in files
    ensures LiveDigests(h, files, n + 1) == LiveDigests(h, files, n)[n := h(files[Live(n)])]
  {}

  lemma {:induction false} EnrolledVersions(h: Hash, s: State, n: nat)
    requires forall k | 0 <= k < n :: Live(k) in s.files
    ensures Enrolled(h, s, n).versions == s.versions
  {
    if n > 0 { EnrolledVersions(h, s, n - 1); }
  }

  // ------------------------------------------------------ what a promotion does

  /** Copies are named by what they hold, and checkpoints name copies. */
  ghost predicate Good(h: Hash, s: State) {
    (forall d | Cas(d) in s.files :: h(s.files[Cas(d)]) == d)
    && forall d | d in s.checkpoints :: s.checkpoints[d].path == Cas(d) && Cas(d) in s.files
  }

  /** No copy is ever changed. */
  lemma CopiesStay(s: State, shard: int, bytes: Bytes, weights: Digest, now: int, row: map<int, Digest>)
    ensures forall d | Cas(d) in s.files ::
              Cas(d) in Overwrite(s, shard, bytes).files && Overwrite(s, shard, bytes).files[Cas(d)] == s.files[Cas(d)]
    ensures forall d | Cas(d) in s.files ::
              Cas(d) in Promoted(s, shard, weights, now, row).files
              && Promoted(s, shard, weights, now, row).files[Cas(d)] == s.files[Cas(d)]
  {}

  /** The copy behind the digest is, or will be, a file with that digest: another rebuild of the shard
      may have overwritten the live one since. */
  ghost predicate Copies(h: Hash, files: Files, shard: int, weights: Digest) {
    Cas(weights) in files || (Live(shard) in files && h(files[Live(shard)]) == weights)
  }

  lemma PromotedGood(h: Hash, s: State, shard: int, weights: Digest, now: int, row: map<int, Digest>)
    requires Good(h, s)
    ensures Good(h, Promoted(s, shard, weights, now, row))
       <==> Copies(h, s.files, shard, weights) || !CanCopy(s.files, shard, weights)
  {
    var after := Promoted(s, shard, weights, now, row);
    if !Copies(h, s.files, shard, weights) && CanCopy(s.files, shard, weights) {
      assert Cas(weights) in after.files && h(after.files[Cas(weights)]) != weights;
    }
  }

  lemma NothingUpdated(m: map<int, Digest>, k: int, d: Digest)
    ensures m == m[k := d] <==> k in m && m[k] == d
  {}

  ghost predicate Already(current: map<int, Digest>, shard: int, weights: Digest) {
    shard in current && current[shard] == weights
  }

  /** What makes the weights served: a name not on record, a time later than every version's, and a row
      read that has the other shards as they are served now. Weights served already need no more than not
      to be pushed aside. */
  ghost predicate Shows(versions: seq<Version>, current: map<int, Digest>, shard: int, weights: Digest, now: int,
                        row: map<int, Digest>)
  {
    if Named(versions, NameOf(weights)) then Already(current, shard, weights)
    else
      (AllEarlier(versions, now) || Already(current, shard, weights))
      && (NoneLater(versions, now) ==> row[shard := weights] == current[shard := weights])
  }

  /** A version added at the end: served alone, beside the others, or never, as its time has it. */
  lemma ServedAppended(versions: seq<Version>, v: Version, shards: map<int, Digest>)
    ensures MayServe(versions + [v], shards)
       <==> (NoneLater(versions, v.promotedAt) && shards == v.shards)
            || (MayServe(versions, shards) && !AllEarlier(versions, v.promotedAt))
  {
    var all := versions + [v];
    if NoneLater(versions, v.promotedAt) {
      assert v in all && NoneLater(all, v.promotedAt);
    }
    if MayServe(versions, shards) && !AllEarlier(versions, v.promotedAt) {
      var w :| w in versions && w.shards == shards && NoneLater(versions, w.promotedAt);
      var x :| x in versions && x.promotedAt >= v.promotedAt;
      assert w in all && NoneLater(all, w.promotedAt);
    }
    if MayServe(all, shards) {
      var w :| w in all && w.shards == shards && NoneLater(all, w.promotedAt);
      assert v in all;
      assert forall x | x in versions :: x in all;
      if w in versions { assert NoneLater(versions, w.promotedAt) && !AllEarlier(versions, v.promotedAt); }
    }
  }

  /** With one map served before, a promotion makes the served map the same with its weights in it, all
      other shards as they were, if and only if it shows: whatever name, time and row it had. */
  lemma PromotionServes(versions: seq<Version>, current: map<int, Digest>, shard: int, weights: Digest, now: int,
                        row: map<int, Digest>)
    requires ServesOnly(versions, current)
    ensures ServesOnly(Versioned(versions, shard, weights, now, row), current[shard := weights])
       <==> Shows(versions, current, shard, weights, now, row)
  {
    hide MayServe, NameOf, Named;
    var v := Version(NameOf(weights), row[shard := weights], now);
    NothingUpdated(current, shard, weights);
    if !Named(versions, NameOf(weights)) {
      assert Versioned(versions, shard, weights, now, row) == versions + [v];
      forall m: map<int, Digest> ensures MayServe(versions + [v], m)
         <==> (NoneLater(versions, now) && m == v.shards) || (m == current && !AllEarlier(versions, now))
      {
        ServedAppended(versions, v, m);
      }
      assert AllEarlier(versions, now) ==> NoneLater(versions, now);
      assert MayServe(versions + [v], v.shards) || MayServe(versions + [v], current);
    }
  }

  /** For a promotion that nothing comes between, from the row its query returned to its version: shown if
      and only if the weights are served already, or the name is new and the time later than all. */
  lemma UndisturbedShows(versions: seq<Version>, current: map<int, Digest>, shard: int, weights: Digest, now: int,
                         row: map<int, Digest>)
    requires ServesOnly(versions, current) && MayServe(versions, row)
    ensures Shows(versions, current, shard, weights, now, row)
       <==> Already(current, shard, weights) || (!Named(versions, NameOf(weights)) && AllEarlier(versions, now))
  {}

  /** One version, or two of which one is later. */
  lemma NewestOfTwo(v: Version, w: Version)
    requires v.promotedAt < w.promotedAt
    ensures ServesOnly([], map[]) && ServesOnly([v], v.shards) && ServesOnly([v, w], w.shards)
  {
    OneVersion(v);
    assert [v, w] == [v] + [w];
    forall m: map<int, Digest> { ServedAppended([v], w, m); }
  }

  lemma OneVersion(v: Version)
    ensures ServesOnly([v], v.shards)
  {
    assert v in [v] && NoneLater([v], v.promotedAt);
  }

  /** Weights a, then b, then a again: version `v-a` exists, so b stays served. */
  lemma ReturningWeightsNotServed(a: Digest, b: Digest)
    requires NameOf(a) != NameOf(b)
    ensures var first := Versioned([], 0, a, 1, map[]);
            var second := Versioned(first, 0, b, 2, map[0 := a]);
            var third := Versioned(second, 0, a, 3, map[0 := b]);
            ServesOnly(first, map[0 := a]) && ServesOnly(second, map[0 := b]) && ServesOnly(third, map[0 := b])
  {
    hide MayServe, ServesOnly, NameOf;
    var va, vb := Version(NameOf(a), map[0 := a], 1), Version(NameOf(b), map[0 := b], 2);
    NewestOfTwo(va, vb);
    var none: seq<Version>, nothing: map<int, Digest> := [], map[];
    var first := Versioned([], 0, a, 1, map[]);
    assert nothing[0 := a] == map[0 := a] && first == none + [va];
    assert first == [va] && first[0].name == NameOf(a);
    var second := Versioned(first, 0, b, 2, map[0 := a]);
    assert map[0 := a][0 := b] == map[0 := b] && second == first + [vb];
    assert second == [va, vb] && va in second;
  }

  /** One claimed batch with jobs on two shards: `now()` is when the transaction began, so both versions
      have one time, and the query may return the first, with the second shard's old weights. If the next
      promotion gets that row, it carries them forward, and from then on no other are served. */
  lemma TwoShardsOneInstant(versions: seq<Version>, current: map<int, Digest>, i: int, j: int, a: Digest, b: Digest,
                            now: int, k: int, c: Digest, later: int)
    requires ServesOnly(versions, current) && AllEarlier(versions, now) && i != j && !Already(current, j, b)
    requires !Named(versions, NameOf(a)) && !Named(versions, NameOf(b)) && NameOf(a) != NameOf(b)
    requires !Named(versions, NameOf(c)) && NameOf(c) != NameOf(a) && NameOf(c) != NameOf(b) && now < later && k != j
    ensures var first := Versioned(versions, i, a, now, current);
            var both := Versioned(first, j, b, now, current[i := a]);
            var next := Versioned(both, k, c, later, current[i := a]);
            ServesOnly(first, current[i := a])
            && MayServe(both, current[i := a]) && MayServe(both, current[i := a][j := b])
            && !Already(current[i := a], j, b)
            && ServesOnly(next, current[i := a][k := c]) && !Already(current[i := a][k := c], j, b)
  {
    hide MayServe, NameOf;
    var first := Versioned(versions, i, a, now, current);
    PromotionServes(versions, current, i, a, now, current);
    var v, w := Version(NameOf(a), current[i := a], now), Version(NameOf(b), current[i := a][j := b], now);
    assert first == versions + [v];
    assert !Named(first, NameOf(b)) by { assert forall x | x in first :: x in versions || x == v; }
    var both := Versioned(first, j, b, now, current[i := a]);
    assert both == first + [w] && v in first && NoneLater(first, now);
    ServedAppended(first, w, current[i := a]);
    ServedAppended(first, w, current[i := a][j := b]);
    assert !AllEarlier(first, now);
    assert !Named(both, NameOf(c)) && AllEarlier(both, later) by {
      assert forall x | x in both :: x in versions || x == v || x == w;
    }
    var u := Version(NameOf(c), current[i := a][k := c], later);
    forall m: map<int, Digest> { ServedAppended(both, u, m); }
  }

  /** A transaction that began before some version was promoted: its own is never served. */
  lemma StartedEarlier(versions: seq<Version>, shard: int, weights: Digest, now: int, row: map<int, Digest>,
                       shards: map<int, Digest>)
    requires !NoneLater(versions, now)
    ensures MayServe(Versioned(versions, shard, weights, now, row), shards) <==> MayServe(versions, shards)
  {
    hide MayServe, NameOf, Named;
    ServedAppended(versions, Version(NameOf(weights), row[shard := weights], now), shards);
    assert !AllEarlier(versions, now);
  }

  /** Two transactions that do not see each other's version: the later one carries forward the old weights
      of the other's shard. */
  lemma NotSeen(versions: seq<Version>, current: map<int, Digest>, i: int, j: int, a: Digest, b: Digest, now: int,
                later: int)
    requires ServesOnly(versions, current) && AllEarlier(versions, now) && now < later && i != j
    requires !Named(versions, NameOf(a)) && !Named(versions, NameOf(b)) && NameOf(a) != NameOf(b)
    ensures var both := Versioned(Versioned(versions, i, a, now, current), j, b, later, current);
            ServesOnly(both, current[j := b]) && (!Already(current, i, a) ==> !Already(current[j := b], i, a))
  {
    hide MayServe, NameOf;
    var first := Versioned(versions, i, a, now, current);
    PromotionServes(versions, current, i, a, now, current);
    var v := Version(NameOf(a), current[i := a], now);
    assert forall x | x in first :: x in versions || x == v;
    assert !Named(first, NameOf(b)) && AllEarlier(first, later);
    var w := Version(NameOf(b), current[j := b], later);
    assert Versioned(first, j, b, later, current) == first + [w];
    assert NoneLater(first, later);
    forall m: map<int, Digest> { ServedAppended(first, w, m); }
    assert MayServe(first + [w], current[j := b]);
  }

  // -------------------------------------------------------------------- runs

  /** A rebuild that stored its model, or a promotion: of weights, by a transaction that began at `now`,
      over the row its query returned, whichever version that was and whatever it could not see. */
  datatype Event =
    | Stored(shard: int, bytes: Bytes)
    | Booked(shard: int, weights: Digest, now: int, row: map<int, Digest>)

  ghost function Step(s: State, e: Event): State {
    match e
    case Stored(shard, bytes) => Overwrite(s, shard, bytes)
    case Booked(shard, weights, now, row) => Promoted(s, shard, weights, now, row)
  }

  ghost function Run(s: State, events: seq<Event>): State {
    if events == [] then s else Step(Run(s, events[..|events| - 1]), events[|events| - 1])
  }

  /** The weights last promoted for each shard, over those it served at first. */
  function Latest(base: map<int, Digest>, events: seq<Event>): map<int, Digest> {
    if events == [] then base
    else
      var e, before := events[|events| - 1], Latest(base, events[..|events| - 1]);
      if e.Booked? then before[e.shard := e.weights] else before
  }

  /** What makes a promotion count: it shows, it copies the right file, and its digest is not on record
      for another shard. */
  ghost predicate Clear(h: Hash, s: State, current: map<int, Digest>, e: Event) {
    e.Booked? ==>
      Shows(s.versions, current, e.shard, e.weights, e.now, e.row)
      && Copies(h, s.files, e.shard, e.weights)
      && (e.weights in s.checkpoints ==> s.checkpoints[e.weights].shard == e.shard)
  }

  ghost predicate AllClear(h: Hash, s: State, base: map<int, Digest>, events: seq<Event>) {
    events == []
    || (var init := events[..|events| - 1];
        AllClear(h, s, base, init) && Clear(h, Run(s, init), Latest(base, init), events[|events| - 1]))
  }

  /** Each served digest was recorded for the shard that serves it. */
  ghost predicate Owned(s: State, shards: map<int, Digest>) {
    forall k | k in shards :: shards[k] in s.checkpoints && s.checkpoints[shards[k]].shard == k
  }

  /** The query can only return these weights, recorded for their own shards, and every copy is what its
      name says. */
  ghost predicate ServesWell(h: Hash, s: State, shards: map<int, Digest>) {
    Good(h, s) && ServesOnly(s.versions, shards) && Owned(s, shards)
  }

  lemma RecordedOwned(s: State, shards: map<int, Digest>, k: int, d: Digest)
    requires Owned(s, shards)
    ensures Owned(s.(checkpoints := Recorded(s.checkpoints, k, d)), shards[k := d])
       <==> (d in s.checkpoints ==> s.checkpoints[d].shard == k)
  {
    var r := Recorded(s.checkpoints, k, d);
    assert d in r && shards[k := d][k] == d;
  }

  lemma OwnedReads(s: State, t: State, shards: map<int, Digest>)
    requires s.checkpoints == t.checkpoints
    ensures Owned(s, shards) <==> Owned(t, shards)
  {}

  lemma AlreadyCopied(h: Hash, s: State, shards: map<int, Digest>, k: int, d: Digest)
    requires ServesWell(h, s, shards) && Already(shards, k, d)
    ensures Cas(d) in s.files
  {}

  /** One event keeps the latest served exactly when it is clear. */
  lemma StepServes(h: Hash, s: State, current: map<int, Digest>, e: Event)
    requires ServesWell(h, s, current)
    ensures ServesWell(h, Step(s, e), if e.Booked? then current[e.shard := e.weights] else current)
       <==> Clear(h, s, current, e)
  {
    hide ServesOnly, Shows, Copied, Recorded, Versioned, Owned, Good;
    if e.Booked? {
      var k, d, after := e.shard, e.weights, Step(s, e);
      var next := current[k := d];
      if CanCopy(s.files, k, d) {
        PromotedGood(h, s, k, d, e.now, e.row);
        PromotionServes(s.versions, current, k, d, e.now, e.row);
        RecordedOwned(s, current, k, d);
        OwnedReads(after, s.(checkpoints := Recorded(s.checkpoints, k, d)), next);
      } else if ServesWell(h, after, next) {
        AlreadyCopied(h, s, next, k, d);
      }
    } else {
      StoredServes(h, s, current, e.shard, e.bytes);
    }
  }

  lemma StoredServes(h: Hash, s: State, shards: map<int, Digest>, shard: int, bytes: Bytes)
    requires ServesWell(h, s, shards)
    ensures ServesWell(h, Overwrite(s, shard, bytes), shards)
  {}

  /** The latest served after every event. */
  ghost predicate AlwaysServesLatest(h: Hash, s: State, base: map<int, Digest>, events: seq<Event>) {
    ServesWell(h, Run(s, events), Latest(base, events))
    && (events == [] || AlwaysServesLatest(h, s, base, events[..|events| - 1]))
  }

  /** From any registry in order, the bootstrapped one included, and along any run of rebuilds and
      promotions by any workers, the query can at every moment only return every shard's latest promoted
      weights, from true copies, if and only if every promotion was clear. */
  lemma {:induction false} RunServesLatest(h: Hash, s: State, base: map<int, Digest>, events: seq<Event>)
    requires ServesWell(h, s, base)
    ensures AlwaysServesLatest(h, s, base, events) <==> AllClear(h, s, base, events)
  {
    hide Clear, ServesWell, Step, Latest;
    if events == [] {
      NothingPromoted(base);
    } else {
      var init, e := events[..|events| - 1], events[|events| - 1];
      RunServesLatest(h, s, base, init);
      if AlwaysServesLatest(h, s, base, init) {
        ServesNow(h, s, base, init);
        StepServes(h, Run(s, init), Latest(base, init), e);
        LatestStep(base, events);
      }
    }
  }

  lemma NothingPromoted(base: map<int, Digest>)
    ensures Latest(base, []) == base
  {}

  lemma ServesNow(h: Hash, s: State, base: map<int, Digest>, events: seq<Event>)
    requires AlwaysServesLatest(h, s, base, events)
    ensures ServesWell(h, Run(s, events), Latest(base, events))
  {}

  lemma LatestStep(base: map<int, Digest>, events: seq<Event>)
    requires events != []
    ensures var e, before := events[|events| - 1], Latest(base, events[..|events| - 1]);
            Latest(base, events) == if e.Booked? then before[e.shard := e.weights] else before
  {}

  lemma {:induction false} RunKeepsCopies(s: State, events: seq<Event>)
    ensures forall d | Cas(d) in s.files ::
              Cas(d) in Run(s, events).files && Run(s, events).files[Cas(d)] == s.files[Cas(d)]
  {
    hide Promoted, Overwrite;
    if events != [] {
      var init, e := events[..|events| - 1], events[|events| - 1];
      RunKeepsCopies(s, init);
      match e
      case Stored(shard, bytes) => CopiesStay(Run(s, init), shard, bytes, seq(32, i => 0), 0, map[]);
      case Booked(shard, weights, now, row) => CopiesStay(Run(s, init), shard, [], weights, now, row);
    }
  }

  /** A rebuild that lands between another's rebuild of the same shard and its promotion: the copy under
      the first one's digest holds the second one's model. */
  lemma OverwrittenBeforeCopy(h: Hash, s: State, shard: int, x: Bytes, y: Bytes, now: int, row: map<int, Digest>)
    requires h(x) != h(y) && Cas(h(x)) !in s.files
    ensures var end := Run(s, [Stored(shard, x), Stored(shard, y), Booked(shard, h(x), now, row)]);
            Cas(h(x)) in end.files && end.files[Cas(h(x))] == y && !Good(h, end)
  {
    var run := [Stored(shard, x), Stored(shard, y), Booked(shard, h(x), now, row)];
    assert run[..2] == [Stored(shard, x), Stored(shard, y)] && run[..2][..1] == [Stored(shard, x)];
    assert run[..2][..1][..0] == [];
    var before := Overwrite(Overwrite(s, shard, x), shard, y);
    assert Run(s, run[..2][..1]) == Overwrite(s, shard, x);
    assert Run(s, run[..2]) == before;
    assert Run(s, run) == Promoted(before, shard, h(x), now, row);
  }

  // ----------------------------------------------------------------- serving

  /** SELECT shard, file_path ... WHERE checkpoint_hash = ANY(...), read into a dict: one entry for
      each shard named by some row. */
  ghost predicate PathsFor(s: State, shards: map<int, Digest>, paths: map<int, Path>) {
    (forall j | j in shards && shards[j] in s.checkpoints :: s.checkpoints[shards[j]].shard in paths)
    && forall k | k in paths ::
         exists j :: j in shards && shards[j] in s.checkpoints && s.checkpoints[shards[j]] == Checkpoint(k, paths[k])
  }

  /** What the gateway does for a prediction: score with the files at these paths, or answer 503. */
  datatype Response = Scores(paths: map<int, Path>) | Unavailable

  /** `_current_model`: 503 before any promotion, and whenever a promoted shard has no path. */
  function CurrentModel(versions: seq<Version>, shards: map<int, Digest>, paths: map<int, Path>): Response {
    if versions == [] || shards.Keys - paths.Keys != {} then Unavailable else Scores(paths)
  }

  function CopiesOf(shards: map<int, Digest>): map<int, Path> { map k | k in shards :: Cas(shards[k]) }

  /** The query returns every shard's own copy exactly when each digest was recorded for its shard:
      two shards with equal weights share one row, and then one of them is left without a path. */
  lemma PathsAreCopies(h: Hash, s: State, shards: map<int, Digest>, paths: map<int, Path>)
    requires Good(h, s) && PathsFor(s, shards, paths) && forall k | k in shards :: shards[k] in s.checkpoints
    ensures paths == CopiesOf(shards) <==> Owned(s, shards)
  {
    if paths == CopiesOf(shards) {
      forall k | k in shards ensures s.checkpoints[shards[k]].shard == k {
        assert k in paths;
        var j :| j in shards && s.checkpoints[shards[j]] == Checkpoint(k, paths[k]);
        assert s.checkpoints[shards[j]].path == Cas(shards[j]) && paths[k] == Cas(shards[k]);
      }
    }
    if Owned(s, shards) {
      forall k | k in paths ensures k in shards && paths[k] == Cas(shards[k]) {
        var j :| j in shards && s.checkpoints[shards[j]] == Checkpoint(k, paths[k]);
      }
      forall k | k in shards ensures k in paths { assert s.checkpoints[shards[k]].shard == k; }
      assert paths == CopiesOf(shards);
    }
  }

  /** So after any clear run, whichever row the query returns, the gateway scores with a file for every
      shard promoted and no other, and each has the digest last promoted for its shard, however often its
      live file was overwritten since; a shard never promoted has the very file it was served from. */
  lemma LatestIsLoaded(h: Hash, s: State, base: map<int, Digest>, events: seq<Event>, shards: map<int, Digest>,
                       paths: map<int, Path>)
    requires ServesWell(h, s, base) && AllClear(h, s, base, events)
    requires var now := Run(s, events); MayServe(now.versions, shards) && PathsFor(now, shards, paths)
    ensures var now, latest := Run(s, events), Latest(base, events);
            CurrentModel(now.versions, shards, paths) == (if now.versions == [] then Unavailable else Scores(paths))
            && paths.Keys == latest.Keys
            && (forall k | k in paths :: Holds(h, now.files, paths[k], latest[k]))
            && forall k | k in base && Already(latest, k, base[k]) ::
                 paths[k] in s.files && now.files[paths[k]] == s.files[paths[k]]
  {
    hide Run, Latest, AllClear, PathsFor, Good, AlwaysServesLatest, MayServe;
    var now, latest := Run(s, events), Latest(base, events);
    RunServesLatest(h, s, base, events);
    ServesNow(h, s, base, events);
    PathsAreCopies(h, now, shards, paths);
    RunKeepsCopies(s, events);
    forall k | k in latest ensures Holds(h, now.files, Cas(latest[k]), latest[k]) { CopyHolds(h, now, latest[k]); }
    forall k | k in base && Already(latest, k, base[k])
      ensures Cas(base[k]) in s.files && now.files[Cas(base[k])] == s.files[Cas(base[k])]
    {
      CopyHolds(h, s, base[k]);
    }
  }

  /** A copy with the digest it is named by. */
  ghost predicate Holds(h: Hash, files: Files, path: Path, weights: Digest) {
    path == Cas(weights) && path in files && h(files[path]) == weights
  }

  lemma CopyHolds(h: Hash, s: State, d: Digest)
    requires Good(h, s) && d in s.checkpoints
    ensures Holds(h, s.files, Cas(d), d)
  {}

  function Lowest(keys: set<int>): (k: int)
    requires keys != {}
    ensures k in keys && forall j | j in keys :: k <= j
  {
    LowestExists(keys);
    var k :| k in keys && forall j | j in keys :: k <= j;
    k
  }

  lemma LowestExists(keys: set<int>)
    requires keys != {}
    ensures exists k :: k in keys && forall j | j in keys :: k <= j
  {
    var k := FindLowest(keys);
  }

  lemma {:induction false} FindLowest(keys: set<int>) returns (k: int)
    requires keys != {}
    ensures k in keys && forall j | j in keys :: k <= j
    decreases |keys|
  {
    assert (forall x: int :: x !in keys) ==> keys == {};
    k :| k in keys;
    var rest := keys - {k};
    assert keys == rest + {k};
    if rest != {} {
      var y := FindLowest(rest);
      if y < k { k := y; }
    }
  }

  /** The boosters in shard order, read from disk. */
  function Cold(files: Files, paths: map<int, Path>): (boosters: seq<Bytes>)
    requires forall k | k in paths :: paths[k] in files
    ensures |boosters| == |paths|
    decreases |paths|
  {
    if paths == map[] then []
    else
      assert paths.Keys != {};
      var k := Lowest(paths.Keys);
      assert (paths - {k}).Keys == paths.Keys - {k};
      [files[paths[k]]] + Cold(files, paths - {k})
  }

  /** These are the shards with a path, in ascending order, each once. */
  ghost predicate ShardsInOrder(paths: map<int, Path>, shards: seq<int>) {
    (forall i, j | 0 <= i < j < |shards| :: shards[i] < shards[j])
    && forall k :: k in shards <==> k in paths
  }

  /** One booster for each shard in ascending order, each what the shard's file holds. */
  ghost predicate ReadInOrder(files: Files, paths: map<int, Path>, boosters: seq<Bytes>) {
    exists shards: seq<int> :: ShardsInOrder(paths, shards) && Holding(files, paths, shards, boosters)
  }

  ghost predicate Holding(files: Files, paths: map<int, Path>, shards: seq<int>, boosters: seq<Bytes>) {
    |boosters| == |shards|
    && forall i | 0 <= i < |shards| ::
         shards[i] in paths && paths[shards[i]] in files && boosters[i] == files[paths[shards[i]]]
  }

  lemma {:induction false} ColdReads(files: Files, paths: map<int, Path>)
    requires forall k | k in paths :: paths[k] in files
    ensures ReadInOrder(files, paths, Cold(files, paths))
    decreases |paths|
  {
    hide ReadInOrder;
    if paths == map[] {
      NothingRead(files);
    } else {
      assert paths.Keys != {};
      var k := Lowest(paths.Keys);
      var rest := paths - {k};
      assert rest.Keys == paths.Keys - {k};
      ColdReads(files, rest);
      OneMoreRead(files, paths, k, Cold(files, rest));
    }
  }

  lemma NothingRead(files: Files)
    ensures ReadInOrder(files, map[], [])
  {
    assert ShardsInOrder(map[], []) && Holding(files, map[], [], []);
  }

  lemma OneMoreRead(files: Files, paths: map<int, Path>, k: int, others: seq<Bytes>)
    requires k in paths && paths[k] in files && forall j | j in paths :: k <= j
    requires ReadInOrder(files, paths - {k}, others)
    ensures ReadInOrder(files, paths, [files[paths[k]]] + others)
  {
    hide ShardsInOrder, Holding;
    var later: seq<int> :| ShardsInOrder(paths - {k}, later) && Holding(files, paths - {k}, later, others);
    OneMoreShard(paths, k, later);
    OneMoreHeld(files, paths, k, later, others);
  }

  lemma OneMoreShard(paths: map<int, Path>, k: int, later: seq<int>)
    requires k in paths && (forall j | j in paths :: k <= j) && ShardsInOrder(paths - {k}, later)
    ensures ShardsInOrder(paths, [k] + later)
  {
    forall i | 0 <= i < |later| ensures k < later[i] { assert later[i] in later; }
  }

  lemma OneMoreHeld(files: Files, paths: map<int, Path>, k: int, later: seq<int>, others: seq<Bytes>)
    requires k in paths && paths[k] in files && Holding(files, paths - {k}, later, others)
    ensures Holding(files, paths, [k] + later, [files[paths[k]]] + others)
  {}

  type Cached = map<map<int, Path>, seq<Bytes>>

  /** Entries are for immutable copies and equal what a cold load of their paths gives now. */
  ghost predicate Current(files: Files, cached: Cached) {
    forall p: map<int, Path> | p in cached ::
      p != map[] && (forall k | k in p :: p[k].Cas? && p[k] in files) && cached[p] == Cold(files, p)
  }

  lemma {:induction false} ColdSame(files: Files, later: Files, paths: map<int, Path>)
    requires forall k | k in paths :: paths[k] in files && paths[k] in later && files[paths[k]] == later[paths[k]]
    ensures Cold(files, paths) == Cold(later, paths)
    decreases |paths|
  {
    if paths != map[] {
      assert paths.Keys != {};
      var k := Lowest(paths.Keys);
      assert (paths - {k}).Keys == paths.Keys - {k};
      ColdSame(files, later, paths - {k});
    }
  }

  /** The cache needs no invalidation: rebuilds and promotions keep every entry current. */
  lemma StepKeepsCurrent(s: State, e: Event, cached: Cached)
    requires Current(s.files, cached)
    ensures Current(Step(s, e).files, cached)
  {
    var later := Step(s, e).files;
    forall p: map<int, Path> | p in cached
      ensures (forall k | k in p :: p[k] in later) && cached[p] == Cold(later, p)
    {
      match e {
        case Stored(shard, bytes) => CopiesStay(s, shard, bytes, seq(32, i => 0), 0, map[]);
        case Booked(shard, weights, now, row) => CopiesStay(s, shard, [], weights, now, row);
      }
      ColdSame(s.files, later, p);
    }
  }

  /** What happens to the registry and to one process's ensemble cache. */
  datatype Action = Change(event: Event) | Query(paths: map<int, Path>)

  /** Paths as the database hands them out: copies that exist. */
  predicate Loadable(files: Files, paths: map<int, Path>) {
    forall k | k in paths :: paths[k].Cas? && paths[k] in files
  }

  /** What a query answers: the cached boosters if there are some, or those on disk. */
  function Answer(files: Files, cached: Cached, paths: map<int, Path>): seq<Bytes>
    requires Loadable(files, paths)
  {
    if paths in cached then cached[paths] else Cold(files, paths)
  }

  ghost function Act(s: State, cached: Cached, a: Action): (State, Cached) {
    match a
    case Change(e) => (Step(s, e), cached)
    case Query(paths) =>
      (s, if paths == map[] || !Loadable(s.files, paths) then cached
          else cached[paths := Answer(s.files, cached, paths)])
  }

  ghost function ActAll(s: State, cached: Cached, actions: seq<Action>): (State, Cached) {
    if actions == [] then (s, cached)
    else
      var (t, c) := ActAll(s, cached, actions[..|actions| - 1]);
      Act(t, c, actions[|actions| - 1])
  }

  /** Along any interleaving of queries, rebuilds and promotions, every answer is what a cold load from
      the same paths would read at that moment. */
  lemma {:induction false} AnswersAreCold(s: State, cached: Cached, actions: seq<Action>, paths: map<int, Path>)
    requires Current(s.files, cached)
    ensures var (t, c) := ActAll(s, cached, actions);
            Current(t.files, c)
            && (Loadable(t.files, paths) ==>
                  Answer(t.files, c, paths) == Cold(t.files, paths)
                  && ReadInOrder(t.files, paths, Answer(t.files, c, paths)))
  {
    hide Cold, Step, ReadInOrder;
    if Loadable(ActAll(s, cached, actions).0.files, paths) { ColdReads(ActAll(s, cached, actions).0.files, paths); }
    if actions != [] {
      var init, a := actions[..|actions| - 1], actions[|actions| - 1];
      AnswersAreCold(s, cached, init, paths);
      var (t, c) := ActAll(s, cached, init);
      if a.Change? { StepKeepsCurrent(t, a.event, c); }
    }
  }

  /** `for shard in sorted(shard_paths, key=int)` */
  method ReadAll(files: Files, paths: map<int, Path>) returns (boosters: seq<Bytes>)
    requires forall k | k in paths :: paths[k] in files
    ensures boosters == Cold(files, paths) && ReadInOrder(files, paths, boosters)
  {
    hide ReadInOrder;
    ColdReads(files, paths);
    boosters := [];
    var left := paths;
    while left != map[]
      invariant forall k | k in left :: left[k] in files
      invariant boosters + Cold(files, left) == Cold(files, paths)
      decreases |left|
    {
      assert left.Keys != {};
      var k := Lowest(left.Keys);
      assert (left - {k}).Keys == left.Keys - {k};
      var next := files[left[k]];
      assert boosters + [next] + Cold(files, left - {k}) == boosters + ([next] + Cold(files, left - {k}));
      boosters := boosters + [next];
      left := left - {k};
    }
  }

  class EnsembleCache {
    var cached: Cached

    constructor ()
      ensures cached == map[]
    {
      cached := map[];
    }

    /** `load_gbdt_ensemble`: with or without a hit, the boosters a cold load would read; None when
        no shard is promoted. */
    method Load(files: Files, paths: map<int, Path>) returns (r: Option<seq<Bytes>>)
      requires Current(files, cached) && Loadable(files, paths)
      modifies this
      ensures Current(files, cached)
      ensures r == if paths == map[] then None else Some(Cold(files, paths))
      ensures r.Some? ==> ReadInOrder(files, paths, r.value)
      ensures paths != map[] ==> r == Some(old(Answer(files, cached, paths)))
      ensures cached == if paths == map[] then old(cached) else old(cached)[paths := Cold(files, paths)]
    {
      hide ReadInOrder;
      ColdReads(files, paths);
      if paths in cached {
        r := Some(cached[paths]);
        assert cached == cached[paths := Cold(files, paths)];
        return;
      }
      if paths == map[] { return None; }
      var boosters := ReadAll(files, paths);
      cached := cached[paths := boosters];
      r := Some(boosters);
    }

    method Clear()
      modifies this
      ensures cached == map[]
    {
      cached := map[];
    }
  }
}
