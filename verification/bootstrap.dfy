/** A deployment from its bootstrap on (scripts/load_routing.py): the first models of all shards become
    version `v0-baseline`, and rebuilds are promoted over it. */
module Bootstrap {
  import opened Hashing
  import opened Promotion

  /** A registry as the bootstrap finds it: live models and empty tables. */
  ghost predicate Unpromoted(s: State, n: nat) {
    s.checkpoints == map[] && s.versions == [] && (forall d :: Cas(d) !in s.files)
    && forall k | 0 <= k < n :: Live(k) in s.files
  }

  function Model(s: State, k: int): Bytes { if Live(k) in s.files then s.files[Live(k)] else [] }

  /** Enrolling records each digest once, for the first shard that has it. */
  ghost predicate EnrolledWell(h: Hash, s: State, n: nat, r: State) {
    (forall k | 0 <= k < n :: h(Model(s, k)) in r.checkpoints)
    && (forall d | d in r.checkpoints ::
          var c := r.checkpoints[d];
          c.path == Cas(d) && Cas(d) in r.files && 0 <= c.shard < n && h(Model(s, c.shard)) == d
          && forall j | 0 <= j < c.shard :: h(Model(s, j)) != d)
    && (forall d | Cas(d) in r.files :: h(r.files[Cas(d)]) == d)
  }

  lemma {:induction false} EnrolledSpec(h: Hash, s: State, n: nat)
    requires Unpromoted(s, n)
    ensures EnrolledWell(h, s, n, Enrolled(h, s, n))
  {
    hide EnrolledWell, Enrolled;
    if n == 0 {
      NoneEnrolled(h, s);
    } else {
      EnrolledSpec(h, s, n - 1);
      EnrolledUnfold(h, s, n);
      EnrolledStep(h, s, n, Enrolled(h, s, n - 1));
    }
  }

  lemma NoneEnrolled(h: Hash, s: State)
    requires Unpromoted(s, 0)
    ensures EnrolledWell(h, s, 0, Enrolled(h, s, 0))
  {}

  lemma EnrolledStep(h: Hash, s: State, n: nat, p: State)
    requires n > 0 && EnrolledWell(h, s, n - 1, p)
    requires Live(n - 1) in p.files && p.files[Live(n - 1)] == Model(s, n - 1)
    ensures var d := h(Model(s, n - 1));
            EnrolledWell(h, s, n, State(Copied(p.files, n - 1, d), Recorded(p.checkpoints, n - 1, d), p.versions))
  {
    var d := h(Model(s, n - 1));
    if d in p.checkpoints {
      assert Recorded(p.checkpoints, n - 1, d) == p.checkpoints && Copied(p.files, n - 1, d) == p.files;
    } else {
      EnrolledNew(h, s, n, p, d);
    }
  }

  lemma EnrolledNew(h: Hash, s: State, n: nat, p: State, d: Digest)
    requires n > 0 && EnrolledWell(h, s, n - 1, p) && d == h(Model(s, n - 1))
    requires Live(n - 1) in p.files && p.files[Live(n - 1)] == Model(s, n - 1) && d !in p.checkpoints
    ensures EnrolledWell(h, s, n, State(Copied(p.files, n - 1, d), Recorded(p.checkpoints, n - 1, d), p.versions))
  {
    forall j | 0 <= j < n - 1 ensures h(Model(s, j)) != d { assert h(Model(s, j)) in p.checkpoints; }
    var r := State(Copied(p.files, n - 1, d), Recorded(p.checkpoints, n - 1, d), p.versions);
    forall x | x in r.checkpoints
      ensures var c := r.checkpoints[x];
              c.path == Cas(x) && Cas(x) in r.files && 0 <= c.shard < n && h(Model(s, c.shard)) == x
              && forall j | 0 <= j < c.shard :: h(Model(s, j)) != x
    {
      assert x != d ==> x in p.checkpoints;
    }
  }

  ghost predicate AllDiffer(h: Hash, s: State, n: nat) {
    forall j, k | 0 <= j < k < n :: h(Model(s, j)) != h(Model(s, k))
  }

  function Baselines(h: Hash, s: State, n: nat): map<int, Digest> { map k | 0 <= k < n :: h(Model(s, k)) }

  ghost function Deployed(h: Hash, s: State, n: nat, now: int): State
    requires Unpromoted(s, n)
  {
    Bootstrapped(h, s, n, now)
  }

  /** The bootstrap serves every shard's model, and each under its own name if and only if no two
      shards have one digest. */
  lemma BootstrapServes(h: Hash, s: State, n: nat, now: int)
    requires Unpromoted(s, n)
    ensures var d := Deployed(h, s, n, now);
            Good(h, d) && ServesOnly(d.versions, Baselines(h, s, n))
            && d.versions == [Version(Baseline, Baselines(h, s, n), now)]
            && (ServesWell(h, d, Baselines(h, s, n)) <==> AllDiffer(h, s, n))
  {
    hide Enrolled, EnrolledWell, Good, Owned, AllDiffer, ServesOnly;
    EnrolledSpec(h, s, n);
    EnrolledVersions(h, s, n);
    var e, d := Enrolled(h, s, n), Deployed(h, s, n, now);
    var v := Version(Baseline, Baselines(h, s, n), now);
    assert LiveDigests(h, s.files, n) == v.shards;
    assert !Named([], Baseline);
    assert d.versions == [v];
    OneVersion(v);
    EnrolledOwned(h, s, n, e);
    OwnedReads(e, d, v.shards);
    EnrolledGood(h, s, n, e, v);
  }

  lemma EnrolledGood(h: Hash, s: State, n: nat, e: State, v: Version)
    requires EnrolledWell(h, s, n, e) && v.shards == Baselines(h, s, n)
    ensures Good(h, e.(versions := [v]))
  {}

  lemma EnrolledOwned(h: Hash, s: State, n: nat, e: State)
    requires EnrolledWell(h, s, n, e)
    ensures Owned(e, Baselines(h, s, n)) <==> AllDiffer(h, s, n)
  {
    if Owned(e, Baselines(h, s, n)) { OwnedDiffer(h, s, n, e); }
    if AllDiffer(h, s, n) { DifferOwned(h, s, n, e); }
  }

  lemma OwnedDiffer(h: Hash, s: State, n: nat, e: State)
    requires Owned(e, Baselines(h, s, n))
    ensures AllDiffer(h, s, n)
  {
    forall j, k | 0 <= j < k < n ensures h(Model(s, j)) != h(Model(s, k)) {
      assert Baselines(h, s, n)[j] == h(Model(s, j)) && Baselines(h, s, n)[k] == h(Model(s, k));
    }
  }

  lemma DifferOwned(h: Hash, s: State, n: nat, e: State)
    requires EnrolledWell(h, s, n, e) && AllDiffer(h, s, n)
    ensures Owned(e, Baselines(h, s, n))
  {
    forall k | 0 <= k < n ensures e.checkpoints[h(Model(s, k))].shard == k {
      assert h(Model(s, e.checkpoints[h(Model(s, k))].shard)) == h(Model(s, k));
    }
  }

  /** A deployment's whole life: bootstrapped from models of different digests, then any clear run.
      Whichever row the query returns, every shard is loaded from a file with the digest last promoted for
      it, or with its first model's. */
  lemma DeploymentLoadsLatest(h: Hash, s: State, n: nat, now: int, events: seq<Event>, shards: map<int, Digest>,
                              paths: map<int, Path>)
    requires Unpromoted(s, n) && AllDiffer(h, s, n)
    requires AllClear(h, Deployed(h, s, n, now), Baselines(h, s, n), events)
    requires var end := Run(Deployed(h, s, n, now), events);
             MayServe(end.versions, shards) && PathsFor(end, shards, paths)
    ensures var end, latest := Run(Deployed(h, s, n, now), events), Latest(Baselines(h, s, n), events);
            CurrentModel(end.versions, shards, paths) == Scores(paths)
            && paths.Keys == latest.Keys && (forall k | 0 <= k < n :: k in paths)
            && forall k | k in paths :: Holds(h, end.files, paths[k], latest[k])
  {
    hide Run, Latest, AllClear, PathsFor, Deployed, AllDiffer, Unpromoted, MayServe;
    var d, base := Deployed(h, s, n, now), Baselines(h, s, n);
    BootstrapServes(h, s, n, now);
    LatestIsLoaded(h, d, base, events, shards, paths);
    LatestKeeps(base, events);
    VersionsStay(d, events);
  }

  lemma {:induction false} LatestKeeps(base: map<int, Digest>, events: seq<Event>)
    ensures base.Keys <= Latest(base, events).Keys
  {
    if events != [] { LatestKeeps(base, events[..|events| - 1]); }
  }

  lemma {:induction false} VersionsStay(s: State, events: seq<Event>)
    ensures s.versions <= Run(s, events).versions
  {
    if events != [] { VersionsStay(s, events[..|events| - 1]); }
  }

  /** A promoted shard for which no promoted digest is recorded. */
  lemma NoPath(s: State, shards: map<int, Digest>, paths: map<int, Path>, j: int)
    requires PathsFor(s, shards, paths) && j in shards
    requires forall x | x in shards :: shards[x] in s.checkpoints ==> s.checkpoints[shards[x]].shard != j
    ensures j !in paths && CurrentModel(s.versions, shards, paths) == Unavailable
  {
    assert j !in paths;
    assert j in shards.Keys - paths.Keys;
  }

  /** Two shards bootstrapped with one digest: the later one is promoted and has no path, so the gateway
      answers 503 for every prediction. */
  lemma SharedBaseline(h: Hash, s: State, n: nat, now: int, i: nat, j: nat, paths: map<int, Path>)
    requires Unpromoted(s, n) && i < j < n && h(Model(s, i)) == h(Model(s, j))
    requires PathsFor(Deployed(h, s, n, now), Baselines(h, s, n), paths)
    ensures var d := Deployed(h, s, n, now);
            j !in paths && CurrentModel(d.versions, Baselines(h, s, n), paths) == Unavailable
  {
    hide Enrolled, MayServe, Good, Owned, AllDiffer;
    var d, base: map<int, Digest> := Deployed(h, s, n, now), Baselines(h, s, n);
    BootstrapServes(h, s, n, now);
    EnrolledSpec(h, s, n);
    forall x | x in base ensures base[x] in d.checkpoints && d.checkpoints[base[x]].shard != j {
      assert base[x] == h(Model(s, x));
    }
    NoPath(d, base, paths, j);
  }

  /** A rebuild of shard j that arrives at shard i's first model: its digest stays recorded for shard i,
      shard j has no path, and the gateway answers 503. */
  lemma TakesOverDigest(h: Hash, s: State, n: nat, now: int, i: nat, j: nat, later: int, paths: map<int, Path>)
    requires Unpromoted(s, n) && AllDiffer(h, s, n) && i < n && j < n && i != j && now < later
    requires var base, a := Baselines(h, s, n), Model(s, i);
             var end := Run(Deployed(h, s, n, now), [Stored(j, a), Booked(j, h(a), later, base)]);
             PathsFor(end, base[j := h(a)], paths)
    ensures var base, a := Baselines(h, s, n), Model(s, i);
            var end := Run(Deployed(h, s, n, now), [Stored(j, a), Booked(j, h(a), later, base)]);
            ServesOnly(end.versions, base[j := h(a)]) && j !in paths
            && CurrentModel(end.versions, base[j := h(a)], paths) == Unavailable
  {
    hide Deployed, ServesOnly, MayServe, NameOf, Good, AllDiffer, Copied, Named, Versioned, Unpromoted;
    var base: map<int, Digest>, a := Baselines(h, s, n), Model(s, i);
    var d, run := Deployed(h, s, n, now), [Stored(j, a), Booked(j, h(a), later, base)];
    BootstrapServes(h, s, n, now);
    TwoEvents(d, run[0], run[1]);
    var end := Run(d, run);
    BaselineNamesNone(d.versions, h(a), now, later);
    PromotionServes(d.versions, base, j, h(a), later, base);
    assert base[i] == h(a) && d.checkpoints[h(a)].shard == i && end.checkpoints == d.checkpoints;
    var shards: map<int, Digest> := base[j := h(a)];
    forall x | x in shards ensures end.checkpoints[shards[x]].shard != j {
      assert x != j ==> base[x] in d.checkpoints && d.checkpoints[base[x]].shard == x;
    }
    NoPath(end, shards, paths, j);
  }

  lemma TwoEvents(s: State, e: Event, f: Event)
    ensures Run(s, [e, f]) == Step(Step(s, e), f)
  {
    assert [e, f][..1] == [e] && [e][..0] == [];
    assert Run(s, []) == s && Run(s, [e]) == Step(s, e);
  }

  lemma BaselineNamesNone(versions: seq<Version>, d: Digest, now: int, later: int)
    requires |versions| == 1 && versions[0].name == Baseline && versions[0].promotedAt == now < later
    ensures !Named(versions, NameOf(d)) && AllEarlier(versions, later)
  {}

  /** The first claimed batch with jobs on two shards: its promotions share their transaction's time, and
      the query may return the one that still has shard j's first model, rows erased since included. */
  lemma FirstBatchOfTwo(h: Hash, s: State, n: nat, now: int, i: nat, j: nat, x: Bytes, y: Bytes, later: int)
    requires Unpromoted(s, n) && i < n && j < n && i != j && now < later
    requires h(y) != h(Model(s, j)) && NameOf(h(x)) != NameOf(h(y))
    ensures var base := Baselines(h, s, n);
            var end := Run(Deployed(h, s, n, now), [Stored(i, x), Booked(i, h(x), later, base),
                                                    Stored(j, y), Booked(j, h(y), later, base[i := h(x)])]);
            MayServe(end.versions, base[i := h(x)]) && !Already(base[i := h(x)], j, h(y))
            && MayServe(end.versions, base[i := h(x)][j := h(y)])
  {
    hide Deployed, MayServe, NameOf, Good, AllDiffer, Copied, Recorded, Unpromoted, PathsFor;
    var base, d := Baselines(h, s, n), Deployed(h, s, n, now);
    BootstrapServes(h, s, n, now);
    BaselineNamesNone(d.versions, h(x), now, later);
    BaselineNamesNone(d.versions, h(y), now, later);
    var e1, e2 := Stored(i, x), Booked(i, h(x), later, base);
    var e3, e4 := Stored(j, y), Booked(j, h(y), later, base[i := h(x)]);
    assert [e1, e2, e3, e4][..3] == [e1, e2, e3] && [e1, e2, e3][..2] == [e1, e2];
    TwoEvents(d, e1, e2);
    var first := Run(d, [e1, e2]);
    assert first.versions == Versioned(d.versions, i, h(x), later, base);
    var v := Version(NameOf(h(x)), base[i := h(x)], later);
    var w := Version(NameOf(h(y)), base[i := h(x)][j := h(y)], later);
    assert first.versions == d.versions + [v] && v in first.versions;
    assert forall u | u in first.versions :: u in d.versions || u == v;
    assert !Named(first.versions, NameOf(h(y)));
    var end := Run(d, [e1, e2, e3, e4]);
    assert Run(d, [e1, e2, e3]) == Step(first, e3) && end == Step(Step(first, e3), e4);
    assert end.versions == first.versions + [w];
    PromotionServes(d.versions, base, i, h(x), later, base);
    assert NoneLater(first.versions, later) && !AllEarlier(first.versions, later);
    ServedAppended(first.versions, w, base[i := h(x)]);
    ServedAppended(first.versions, w, base[i := h(x)][j := h(y)]);
  }
}
