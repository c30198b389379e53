/** engine/gbdt.py: SISA over boosted trees. One boosting round is an uninterpreted function of
    the model so far and the rows it sees; a booster is the list of its trees. */
module Gbdt {
  import opened Hashing
  import opened Ordering
  import opened SparseMerkle
  import opened TreeCache
  import opened Erasure

  type Booster = seq<Bytes>

  datatype Config = Config(
    h: Hash,
    numSlices: nat,
    treesPerSlice: nat,
    round: (Booster, seq<seq<real>>) -> Bytes,
    digest: Booster -> Digest)

  // --------------------------------------------------------------- training

  /** `xgb.train(..., num_boost_round=n, xgb_model=b)` */
  function Boost(c: Config, b: Booster, m: seq<seq<real>>, n: nat): (r: Booster)
    ensures |r| == |b| + n && r[..|b|] == b
  {
    if n == 0 then b
    else var prev := Boost(c, b, m, n - 1); prev + [c.round(prev, m)]
  }

  /** `_matrix`: cumulative, slices 0..i at slice i. */
  function Matrix(rows: Records, upto: int): seq<seq<real>> { Columns(UpTo(rows, upto)) }

  /** The slice loop of `train_shard`. */
  function TrainFrom(c: Config, rows: Records, from: nat, b: Booster): Booster
    decreases c.numSlices - from
  {
    if from >= c.numSlices then b
    else TrainFrom(c, rows, from + 1, Boost(c, b, Matrix(rows, from), c.treesPerSlice))
  }

  /** `train_shard`; None stands for the ValueError of resuming without a booster. */
  function TrainShard(c: Config, rows: Records, from: nat, b: Option<Booster>): Option<Booster> {
    if from > 0 && b.None? then None
    else Some(TrainFrom(c, rows, from, if b.Some? then b.value else []))
  }

  method Train(c: Config, rows: Records, from: nat, b: Option<Booster>) returns (r: Option<Booster>)
    ensures r == TrainShard(c, rows, from, b)
    ensures r.None? <==> from > 0 && b.None?
  {
    if from > 0 && b.None? { return None; }
    var booster := if b.Some? then b.value else [];
    var slice := from;
    while slice < c.numSlices
      invariant TrainFrom(c, rows, slice, booster) == TrainFrom(c, rows, from, if b.Some? then b.value else [])
      decreases c.numSlices - slice
    {
      booster := Boost(c, booster, Matrix(rows, slice), c.treesPerSlice);
      slice := slice + 1;
    }
    return Some(booster);
  }

  /** Tree p of r came out of one round on all the trees before it. */
  predicate OneRound(c: Config, r: Booster, p: nat, m: seq<seq<real>>)
    requires p < |r|
  {
    r[p] == c.round(r[..p], m)
  }

  /** Each round of a slice boosts on all the trees before it. */
  lemma {:induction false} BoostTrees(c: Config, b: Booster, m: seq<seq<real>>, n: nat)
    ensures forall p | |b| <= p < |b| + n :: OneRound(c, Boost(c, b, m, n), p, m)
  {
    if n > 0 {
      BoostTrees(c, b, m, n - 1);
      var prev, r := Boost(c, b, m, n - 1), Boost(c, b, m, n);
      assert r == prev + [c.round(prev, m)];
      forall p | |b| <= p < |r| ensures OneRound(c, r, p, m) {
        assert p < |prev| ==> OneRound(c, prev, p, m);
        assert r[..p] == prev[..p];
        if p == |prev| { assert r[..p] == prev; }
      }
    }
  }

  /** How many slices `train_shard` goes through from `from` on. */
  function SlicesLeft(c: Config, from: nat): nat { if from < c.numSlices then c.numSlices - from else 0 }

  function TreesLeft(c: Config, from: nat): nat { SlicesLeft(c, from) * c.treesPerSlice }

  /** The slice of the k-th tree grown. */
  function SliceOfTree(c: Config, from: nat, k: nat): nat
    requires c.treesPerSlice > 0
  {
    from + k / c.treesPerSlice
  }

  lemma NextSlice(c: Config, from: nat, k: nat)
    requires c.treesPerSlice > 0
    ensures SliceOfTree(c, from, k)
         == if k < c.treesPerSlice then from else SliceOfTree(c, from + 1, k - c.treesPerSlice)
  {
    var t := c.treesPerSlice;
    if k < t { SmallQuotient(k, t); } else { NextQuotient(k, t); }
  }

  lemma SmallQuotient(x: nat, t: nat)
    requires x < t
    ensures x / t == 0
  {}

  lemma NextQuotient(x: nat, t: nat)
    requires t > 0 && t <= x
    ensures x / t == 1 + (x - t) / t
  {
    var p, q := x / t, (x - t) / t;
    assert x == p * t + x % t && x - t == q * t + (x - t) % t;
    assert (p - 1 - q) * t == p * t - t - q * t;
    NoMultiple(p - 1 - q, t);
  }

  lemma NoMultiple(k: int, t: int)
    requires t > 0
    ensures k >= 1 ==> k * t >= t
    ensures k <= -1 ==> k * t <= -t
  {}

  lemma NextTreesLeft(c: Config, from: nat)
    ensures TreesLeft(c, from) == if from < c.numSlices then TreesLeft(c, from + 1) + c.treesPerSlice else 0
  {
    if from < c.numSlices { assert SlicesLeft(c, from) == SlicesLeft(c, from + 1) + 1; }
  }

  /** Every tree `train_shard` adds is one round on the trees before it and on the rows of its own slice and
      the slices before; the trees it was given stay. */
  lemma TreesOf(c: Config, rows: Records, from: nat, b: Option<Booster>)
    requires TrainShard(c, rows, from, b).Some?
    ensures var was, r := if b.Some? then b.value else [], TrainShard(c, rows, from, b).value;
            |r| == |was| + (if from < c.numSlices then c.numSlices - from else 0) * c.treesPerSlice
            && r[..|was|] == was
            && forall p | |was| <= p < |r| ::
                 c.treesPerSlice > 0
                 && r[p] == c.round(r[..p], Columns(UpTo(rows, from + (p - |was|) / c.treesPerSlice)))
  {
    hide TrainFrom, UpTo;
    TreesFrom(c, rows, from, if b.Some? then b.value else []);
  }

  lemma {:induction false} TreesFrom(c: Config, rows: Records, from: nat, b: Booster)
    ensures var r := TrainFrom(c, rows, from, b);
            |r| == |b| + TreesLeft(c, from) && r[..|b|] == b
            && forall p | |b| <= p < |r| ::
                 c.treesPerSlice > 0 && r[p] == c.round(r[..p], Columns(UpTo(rows, SliceOfTree(c, from, p - |b|))))
    decreases c.numSlices - from
  {
    hide Boost, UpTo, TreesLeft, SliceOfTree;
    var t := c.treesPerSlice;
    NextTreesLeft(c, from);
    if from < c.numSlices {
      var b1 := Boost(c, b, Matrix(rows, from), t);
      BoostTrees(c, b, Matrix(rows, from), t);
      TreesFrom(c, rows, from + 1, b1);
      var r := TrainFrom(c, rows, from, b);
      assert r[..|b|] == r[..|b1|][..|b|];
      forall p | |b| <= p < |r|
        ensures t > 0 && r[p] == c.round(r[..p], Columns(UpTo(rows, SliceOfTree(c, from, p - |b|))))
      {
        if t > 0 { NextSlice(c, from, p - |b|); }
        if p < |b1| {
          assert r[..p] == r[..|b1|][..p];
          assert OneRound(c, b1, p, Matrix(rows, from));
        }
      }
    }
  }

  /** `rollback`: truncation to the trees of slices before `to`; None for slice 0. */
  function Rollback(c: Config, b: Booster, to: nat): (r: Option<Booster>)
    ensures r.None? <==> to == 0
    ensures r.Some? ==> r.value <= b && (|r.value| == to * c.treesPerSlice || r.value == b)
  {
    if to == 0 then None
    else
      var n := to * c.treesPerSlice;
      Some(if n <= |b| then b[..n] else b)
  }

  /** Rolling back leaves a booster exactly when training resumes past slice 0. */
  lemma ResumeHasBooster(c: Config, rows: Records, m: nat, b: Booster)
    ensures TrainShard(c, rows, m, Rollback(c, b, m)).Some?
  {}

  /** The clean retrain: every slice, from nothing. */
  function Clean(c: Config, rows: Records): Booster { TrainFrom(c, rows, 0, []) }

  // ------------------------------------------------- truncation is a rollback

  /** The booster as slice j starts. */
  function Stage(c: Config, rows: Records, j: nat): (b: Booster)
    ensures |b| == j * c.treesPerSlice
  {
    if j == 0 then []
    else
      assert (j - 1) * c.treesPerSlice + c.treesPerSlice == j * c.treesPerSlice;
      Boost(c, Stage(c, rows, j - 1), Matrix(rows, j - 1), c.treesPerSlice)
  }

  lemma {:induction false} StageTrain(c: Config, rows: Records, j: nat)
    requires j <= c.numSlices
    ensures TrainFrom(c, rows, j, Stage(c, rows, j)) == Stage(c, rows, c.numSlices)
    decreases c.numSlices - j
  {
    if j < c.numSlices { StageTrain(c, rows, j + 1); }
  }

  lemma {:induction false} StagePrefix(c: Config, rows: Records, i: nat, j: nat)
    requires i <= j
    ensures i * c.treesPerSlice <= j * c.treesPerSlice
    ensures Stage(c, rows, j)[..i * c.treesPerSlice] == Stage(c, rows, i)
    decreases j
  {
    if i < j {
      StagePrefix(c, rows, i, j - 1);
      var prev := Stage(c, rows, j - 1);
      assert (j - 1) * c.treesPerSlice + c.treesPerSlice == j * c.treesPerSlice;
      assert Stage(c, rows, j)[..|prev|] == prev;
      assert Stage(c, rows, j)[..i * c.treesPerSlice] == Stage(c, rows, j)[..|prev|][..i * c.treesPerSlice];
    }
  }

  /** The trees of the first j slices never saw a subject of a later slice. */
  lemma {:induction false} StageIgnores(c: Config, rows: Records, gone: set<Key>, j: nat)
    requires forall r | r in rows && r.ref in gone :: r.slice >= j
    ensures Stage(c, Retain(rows, gone), j) == Stage(c, rows, j)
  {
    hide Retain, UpTo, Boost;
    if j > 0 {
      StageIgnores(c, rows, gone, j - 1);
      UpToIgnores(rows, gone, j - 1);
    }
  }

  /** The clean booster ends with the last slice's trees, and those see every row of the shard. */
  lemma LastTreesSeeAll(c: Config, rows: Records)
    requires c.numSlices >= 1 && forall r | r in rows :: r.slice < c.numSlices
    ensures Clean(c, rows) == Boost(c, Stage(c, rows, c.numSlices - 1), Columns(rows), c.treesPerSlice)
  {
    hide Boost, UpTo;
    StageTrain(c, rows, 0);
    UpToLast(rows, c.numSlices - 1);
  }

  /** Exact unlearning, one rebuild: truncating the clean booster and boosting on over the retained
      rows gives the booster that never saw the purged ones. */
  lemma RebuildIsClean(c: Config, rows: Records, gone: set<Key>, m: nat)
    requires m <= c.numSlices && forall r | r in rows && r.ref in gone :: r.slice >= m
    ensures TrainShard(c, Retain(rows, gone), m, Rollback(c, Clean(c, rows), m)) == Some(Clean(c, Retain(rows, gone)))
  {
    var left := Retain(rows, gone);
    StageTrain(c, rows, 0);
    StageTrain(c, left, 0);
    StageTrain(c, left, m);
    StagePrefix(c, rows, m, c.numSlices);
    StageIgnores(c, rows, gone, m);
  }

  // -------------------------------------------------------------- one batch

  datatype Disk = Disk(shards: Shards, boosters: map<int, Booster>, routing: Routing)

  /** The end of the batch, after the shard and the booster are written. */
  function Finished(d: Disk, entries: Entries, r: Conclusion, purged: int): (Disk, Entries, Outcome) {
    var (routing, cached, outcome) := Ended(d.routing, entries, r, purged);
    (d.(routing := routing), cached, outcome)
  }

  /** `rebuild_batch_by_ref`, errors and the writes that precede them included. */
  function Rebuild(c: Config, d: Disk, entries: Entries, refs: seq<Key>): (Disk, Entries, Outcome)
    requires ValidEntries(c.h, entries)
  {
    var a := Admit(d.routing, refs);
    if !a.Admitted? then (d, entries, Raised(Refused(a)))
    else if a.shard !in d.shards || a.shard !in d.boosters then (d, entries, Raised(MissingFile))
    else
      var rows := d.shards[a.shard];
      TreeForAgrees(c.h, entries, a.shard, RefsOf(rows));
      var before := TreeFor(c.h, entries, a.shard, RefsOf(rows));
      var left := Retain(rows, ToSet(refs));
      if |left| == |rows| then (d, entries, Raised(NoRows))
      else
        ResumeHasBooster(c, left, a.minSlice, d.boosters[a.shard]);
        var rebuilt := TrainShard(c, left, a.minSlice, Rollback(c, d.boosters[a.shard], a.minSlice)).value;
        var written := Disk(d.shards[a.shard := left], d.boosters[a.shard := rebuilt], d.routing);
        Finished(written, entries, Conclude(c.h, d.routing, entries, before, a, refs, c.digest(rebuilt)),
                 |rows| - |left|)
  }

  /** The files of a deployment, shared by its workers. */
  class Store {
    var shards: Shards
    var boosters: map<int, Booster>
    var routing: Routing

    ghost function Contents(): Disk
      reads this
    {
      Disk(shards, boosters, routing)
    }

    constructor (shards: Shards, routing: Routing)
      ensures Contents() == Disk(shards, map[], routing)
    {
      this.shards, this.boosters, this.routing := shards, map[], routing;
    }
  }

  /** `rebuild_batch_by_ref` over the shared files and this worker's tree cache. */
  method RebuildBatchByRef(c: Config, store: Store, cache: Cache, refs: seq<Key>) returns (outcome: Outcome)
    requires cache.Valid() && cache.h == c.h
    modifies store, cache
    ensures cache.Valid()
    ensures (store.Contents(), cache.entries, outcome) == Rebuild(c, old(store.Contents()), old(cache.entries), refs)
  {
    hide Admit, Retain, TrainShard, Rollback, Conclude, TreeFor, ValidEntries;
    var a := AdmitBatch(store.routing, refs);
    if !a.Admitted? { return Raised(Refused(a)); }
    if a.shard !in store.shards || a.shard !in store.boosters { return Raised(MissingFile); }
    var rows := store.shards[a.shard];
    var before := cache.TreeForShard(a.shard, RefsOf(rows));

    var left := Retain(rows, ToSet(refs));
    if |left| == |rows| { return Raised(NoRows); }
    ResumeHasBooster(c, left, a.minSlice, store.boosters[a.shard]);
    var rebuilt := Train(c, left, a.minSlice, Rollback(c, store.boosters[a.shard], a.minSlice));
    store.shards := store.shards[a.shard := left];
    store.boosters := store.boosters[a.shard := rebuilt.value];

    var end := ConcludeBatch(cache, store.routing, before, a, refs, c.digest(rebuilt.value));
    match end {
      case TreeRaised => return Raised(TreeError);
      case PopRaised(_) => return Raised(RoutingKeyError);
      case Issued(_, routing, manifests) =>
        store.routing := routing;
        return Done(manifests, |rows| - |left|);
    }
  }

  // ------------------------------------------------------- what a batch keeps

  /** Every stored booster is the clean retrain on the rows now in its shard file. */
  ghost predicate Exact(c: Config, d: Disk) {
    forall s | s in d.boosters :: s in d.shards && d.boosters[s] == Clean(c, d.shards[s])
  }

  ghost predicate Covers(c: Config, d: Disk) { Routed(d.shards, d.routing, c.numSlices) }

  /** Routing names exactly the subjects on disk, and their shards have boosters. */
  ghost predicate Tight(d: Disk) {
    NoStale(d.shards, d.routing) && forall k | k in d.routing :: d.routing[k].shard in d.boosters
  }

  /** The same for one shard. */
  ghost predicate TightAt(d: Disk, s: int) {
    (exists k :: k in d.routing && d.routing[k].shard == s) ==>
      s in d.shards && s in d.boosters && NoStaleIn(d.shards[s], s, d.routing)
  }

  lemma TightEverywhere(d: Disk)
    ensures Tight(d) <==> forall s :: TightAt(d, s)
  {
    if forall s :: TightAt(d, s) {
      forall k | k in d.routing
        ensures d.routing[k].shard in d.shards && d.routing[k].shard in d.boosters
                && k in Present(d.shards[d.routing[k].shard])
      {
        assert TightAt(d, d.routing[k].shard);
      }
    }
  }

  lemma StoredClean(c: Config, d: Disk, s: int)
    requires Exact(c, d) && s in d.boosters
    ensures s in d.shards && d.boosters[s] == Clean(c, d.shards[s])
  {}

  lemma ExactAfter(c: Config, d: Disk, shard: int, after: Disk)
    requires Exact(c, d) && shard in after.shards
    requires after.shards == d.shards[shard := after.shards[shard]]
    requires after.boosters == d.boosters[shard := Clean(c, after.shards[shard])]
    ensures Exact(c, after)
  {}

  /** Whatever happens, the worker's cache holds valid trees afterwards. */
  lemma RebuildKeepsCache(c: Config, d: Disk, entries: Entries, refs: seq<Key>)
    requires ValidEntries(c.h, entries)
    ensures ValidEntries(c.h, Rebuild(c, d, entries, refs).1)
  {
    hide Retain, TrainShard, Rollback, Conclude, MinSlice, TreeFor, ValidEntries;
    var a := Admit(d.routing, refs);
    if a.Admitted? && a.shard in d.shards && a.shard in d.boosters {
      var rows := d.shards[a.shard];
      var left := Retain(rows, ToSet(refs));
      ResumeHasBooster(c, left, a.minSlice, d.boosters[a.shard]);
      TreeForAgrees(c.h, entries, a.shard, RefsOf(rows));
      AdmittedFacts(d.routing, refs);
      ConcludeValid(c.h, d.routing, entries, TreeFor(c.h, entries, a.shard, RefsOf(rows)), a, refs,
                    c.digest(TrainShard(c, left, a.minSlice, Rollback(c, d.boosters[a.shard], a.minSlice)).value));
    }
  }

  /** The routing table loses the whole batch if it completes, and nothing otherwise. */
  lemma RebuildKeepsRoutes(c: Config, d: Disk, entries: Entries, refs: seq<Key>)
    requires ValidEntries(c.h, entries)
    ensures var (after, _, outcome) := Rebuild(c, d, entries, refs);
            after.routing == if outcome.Done? then d.routing - ToSet(refs) else d.routing
  {
    hide Retain, TrainShard, Rollback, Conclude, MinSlice, TreeFor, ValidEntries;
    var a := Admit(d.routing, refs);
    if a.Admitted? && a.shard in d.shards && a.shard in d.boosters {
      var rows := d.shards[a.shard];
      var left := Retain(rows, ToSet(refs));
      ResumeHasBooster(c, left, a.minSlice, d.boosters[a.shard]);
      TreeForAgrees(c.h, entries, a.shard, RefsOf(rows));
      AdmittedFacts(d.routing, refs);
      ConcludeValid(c.h, d.routing, entries, TreeFor(c.h, entries, a.shard, RefsOf(rows)), a, refs,
                    c.digest(TrainShard(c, left, a.minSlice, Rollback(c, d.boosters[a.shard], a.minSlice)).value));
    }
  }

  /** A batch that writes at all writes the purged rows and the model rebuilt from the stored one. */
  lemma RebuildSaves(c: Config, d: Disk, entries: Entries, refs: seq<Key>)
    requires ValidEntries(c.h, entries)
    ensures var after, a := Rebuild(c, d, entries, refs).0, Admit(d.routing, refs);
            after != d ==>
              a.Admitted? && a.shard in d.shards && a.shard in d.boosters
              && var left := Retain(d.shards[a.shard], ToSet(refs));
                 |left| != |d.shards[a.shard]| && after.shards == d.shards[a.shard := left]
                 && TrainShard(c, left, a.minSlice, Rollback(c, d.boosters[a.shard], a.minSlice)).Some?
                 && after.boosters
                    == d.boosters[a.shard :=
                         TrainShard(c, left, a.minSlice, Rollback(c, d.boosters[a.shard], a.minSlice)).value]
  {
    hide Retain, TrainShard, Rollback, Conclude, MinSlice, TreeFor, ValidEntries;
    var a := Admit(d.routing, refs);
    if a.Admitted? && a.shard in d.shards && a.shard in d.boosters {
      ResumeHasBooster(c, Retain(d.shards[a.shard], ToSet(refs)), a.minSlice, d.boosters[a.shard]);
    }
  }

  /** A batch that writes nothing, and which error it raises: refused, a file missing, or none of its
      subjects in the shard. Every other one saves the purged rows. */
  lemma RebuildRaises(c: Config, d: Disk, entries: Entries, refs: seq<Key>)
    requires ValidEntries(c.h, entries)
    ensures var a, r := Admit(d.routing, refs), Rebuild(c, d, entries, refs);
            if !a.Admitted? then r == (d, entries, Raised(Refused(a)))
            else if a.shard !in d.shards || a.shard !in d.boosters then r == (d, entries, Raised(MissingFile))
            else if Present(d.shards[a.shard]) !! ToSet(refs) then r == (d, entries, Raised(NoRows))
            else r.0.shards == Purged(d.shards, a.shard, refs) && |r.0.shards[a.shard]| < |d.shards[a.shard]|
  {
    hide Retain, MinSlice, TreeFor, Conclude, TrainShard, Rollback, ValidEntries, Present;
    var a := Admit(d.routing, refs);
    if a.Admitted? && a.shard in d.shards && a.shard in d.boosters {
      RetainSize(d.shards[a.shard], ToSet(refs));
      TreeForAgrees(c.h, entries, a.shard, RefsOf(d.shards[a.shard]));
      ResumeHasBooster(c, Retain(d.shards[a.shard], ToSet(refs)), a.minSlice, d.boosters[a.shard]);
    }
  }

  /** A batch that passes the checks writes the purged shard and its clean retrain. */
  lemma RebuildWrites(c: Config, d: Disk, entries: Entries, refs: seq<Key>)
    requires ValidEntries(c.h, entries) && Exact(c, d) && Covers(c, d)
    requires var a := Admit(d.routing, refs);
             a.Admitted? && a.shard in d.shards && a.shard in d.boosters
             && |Retain(d.shards[a.shard], ToSet(refs))| != |d.shards[a.shard]|
    ensures var a := Admit(d.routing, refs); var rows := d.shards[a.shard];
            var before := TreeFor(c.h, entries, a.shard, RefsOf(rows));
            var clean := Clean(c, Retain(rows, ToSet(refs)));
            before.Valid(c.h)
            && Rebuild(c, d, entries, refs)
               == Finished(Disk(Purged(d.shards, a.shard, refs), d.boosters[a.shard := clean], d.routing), entries,
                           Conclude(c.h, d.routing, entries, before, a, refs, c.digest(clean)),
                           |rows| - |Retain(rows, ToSet(refs))|)
  {
    hide Retain, Clean, MinSlice, TreeFor, Exact, TrainShard, Rollback, Finished, Conclude;
    var a := Admit(d.routing, refs);
    RoutedMatches(d.shards, d.routing, c.numSlices, a.shard);
    PurgedSlices(d.shards[a.shard], d.routing, c.numSlices, refs);
    StoredClean(c, d, a.shard);
    RebuildIsClean(c, d.shards[a.shard], ToSet(refs), a.minSlice);
    TreeForAgrees(c.h, entries, a.shard, RefsOf(d.shards[a.shard]));
  }

  /** Exactness needs nothing of the batch: whatever the refs, the cache and the errors raised on
      the way, the stored boosters stay clean retrains of what is on disk. */
  lemma RebuildKeepsExact(c: Config, d: Disk, entries: Entries, refs: seq<Key>)
    requires ValidEntries(c.h, entries) && Exact(c, d) && Covers(c, d)
    ensures var after := Rebuild(c, d, entries, refs).0; Exact(c, after) && Covers(c, after)
  {
    hide Retain, Clean, MinSlice, Conclude, TreeFor, Exact, Routed, TrainShard, Rollback, ValidEntries;
    var after := Rebuild(c, d, entries, refs).0;
    var a := Admit(d.routing, refs);
    if after != d {
      var rows := d.shards[a.shard];
      var before := TreeFor(c.h, entries, a.shard, RefsOf(rows));
      RebuildWrites(c, d, entries, refs);
      AdmittedFacts(d.routing, refs);
      ConcludeValid(c.h, d.routing, entries, before, a, refs, c.digest(Clean(c, Retain(rows, ToSet(refs)))));
      RoutedAfter(d.shards, d.routing, c.numSlices, refs, after.routing);
      ExactAfter(c, d, a.shard, after);
    }
  }

  /** What an admitted batch does when its shard is tight, whatever the others are. Exactly its
      subjects' rows go. With distinct refs it completes, its manifests are true and the shard stays
      tight. With a repeated ref it raises on the second pop, after the shard, the booster and the
      cache are written, and leaves routing naming subjects that have no rows. Other shards keep
      as they are. */
  lemma RebuildOutcomeAt(c: Config, d: Disk, entries: Entries, refs: seq<Key>)
    requires ValidEntries(c.h, entries) && Exact(c, d) && Covers(c, d)
    requires Admit(d.routing, refs).Admitted? && TightAt(d, Admit(d.routing, refs).shard)
    requires !Clash(c.h, d.shards, d.routing, entries, refs)
    ensures var (after, cached, outcome) := Rebuild(c, d, entries, refs); var a := Admit(d.routing, refs);
            a.shard in d.shards && after.shards == Purged(d.shards, a.shard, refs)
            && a.shard in after.boosters && after.boosters[a.shard] == Clean(c, after.shards[a.shard])
            && after.boosters.Keys == d.boosters.Keys
            && Recached(entries, cached, a.shard, after.shards[a.shard])
            && after.routing == (if NoRepeats(refs) then d.routing - ToSet(refs) else d.routing)
            && (NoRepeats(refs) ==>
                  outcome.Done?
                  && ManifestsTrue(c.h, a, refs, after.shards[a.shard], c.digest(Clean(c, after.shards[a.shard])),
                                   outcome.manifests))
            && (!NoRepeats(refs) ==> outcome == Raised(RoutingKeyError))
  {
    hide Retain, Clean, MinSlice, TreeFor, Exact, Covers, NoStaleIn, Rebuild, Conclude, ManifestsTrue, Recached;
    var a := Admit(d.routing, refs);
    AdmittedFacts(d.routing, refs);
    assert refs[0] in refs;
    NoStaleInAfter(d.shards[a.shard], d.routing, refs);
    RebuildWrites(c, d, entries, refs);
    var rows := d.shards[a.shard];
    TreeForAgrees(c.h, entries, a.shard, RefsOf(rows));
    RefsPresent(rows);
    ConcludeTrue(c.h, d.routing, entries, TreeFor(c.h, entries, a.shard, RefsOf(rows)), a, refs,
                 c.digest(Clean(c, Retain(rows, ToSet(refs)))), rows);
  }

  /** Whether the shard stays tight, and that the others are left as they were. */
  lemma TightAfter(c: Config, d: Disk, entries: Entries, refs: seq<Key>)
    requires ValidEntries(c.h, entries) && Exact(c, d) && Covers(c, d)
    requires Admit(d.routing, refs).Admitted? && TightAt(d, Admit(d.routing, refs).shard)
    requires !Clash(c.h, d.shards, d.routing, entries, refs)
    ensures var after, s := Rebuild(c, d, entries, refs).0, Admit(d.routing, refs).shard;
            (TightAt(after, s) <==> NoRepeats(refs))
            && forall t | t != s :: TightAt(after, t) <==> TightAt(d, t)
  {
    hide Retain, Clean, MinSlice, TreeFor, Exact, Covers, NoStaleIn, Rebuild, Conclude, ManifestsTrue, Recached,
         NoRepeats;
    var s := Admit(d.routing, refs).shard;
    var after := Rebuild(c, d, entries, refs).0;
    AdmittedFacts(d.routing, refs);
    assert refs[0] in refs && d.routing[refs[0]].shard == s;
    NoStaleInAfter(d.shards[s], d.routing, refs);
    RebuildOutcomeAt(c, d, entries, refs);
    if NoRepeats(refs) {
      forall t | t != s ensures TightAt(after, t) <==> TightAt(d, t) { OtherShardTight(d, after, refs, t); }
    }
  }

  lemma OtherShardTight(d: Disk, after: Disk, refs: seq<Key>, t: int)
    requires Admit(d.routing, refs).Admitted? && t != Admit(d.routing, refs).shard
    requires after.routing == d.routing - ToSet(refs) && after.boosters.Keys == d.boosters.Keys
    requires after.shards.Keys == d.shards.Keys && (t in d.shards ==> after.shards[t] == d.shards[t])
    ensures TightAt(after, t) <==> TightAt(d, t)
  {
    AdmittedFacts(d.routing, refs);
    forall k | k in d.routing && d.routing[k].shard == t ensures k in after.routing {
      assert k in ToSet(refs) ==> k in refs;
    }
  }

  /** On a healthy deployment: routing stays tight if and only if the refs are distinct. */
  lemma RebuildOutcome(c: Config, d: Disk, entries: Entries, refs: seq<Key>)
    requires ValidEntries(c.h, entries) && Exact(c, d) && Covers(c, d) && Tight(d)
    requires Admit(d.routing, refs).Admitted? && !Clash(c.h, d.shards, d.routing, entries, refs)
    ensures var (after, _, outcome) := Rebuild(c, d, entries, refs); var a := Admit(d.routing, refs);
            (Tight(after) <==> NoRepeats(refs)) && a.shard in after.shards
            && (NoRepeats(refs) ==>
                  outcome.Done?
                  && ManifestsTrue(c.h, a, refs, after.shards[a.shard], c.digest(Clean(c, after.shards[a.shard])),
                                   outcome.manifests))
            && (!NoRepeats(refs) ==> outcome == Raised(RoutingKeyError))
  {
    hide Clean, Exact, Covers, Tight, TightAt, Rebuild, ManifestsTrue, NoRepeats, MinSlice, Recached;
    TightEverywhere(d);
    TightEverywhere(Rebuild(c, d, entries, refs).0);
    RebuildOutcomeAt(c, d, entries, refs);
    TightAfter(c, d, entries, refs);
  }

  // ------------------------------------------------------------ whole runs

  function Step(c: Config, w: World<Disk>, b: Batch): (after: World<Disk>)
    requires ValidCaches(c.h, w.caches)
    ensures ValidCaches(c.h, after.caches)
  {
    RebuildKeepsCache(c, w.disk, CacheOf(w.caches, b.worker), b.refs);
    var (disk, cached, _) := Rebuild(c, w.disk, CacheOf(w.caches, b.worker), b.refs);
    CachesAfter(c.h, w.caches, b.worker, cached);
    World(disk, w.caches[b.worker := cached])
  }

  /** Batches one after another, each by whichever worker claimed it. */
  function Run(c: Config, w: World<Disk>, batches: seq<Batch>): (after: World<Disk>)
    requires ValidCaches(c.h, w.caches)
    ensures ValidCaches(c.h, after.caches)
  {
    if batches == [] then w else Step(c, Run(c, w, batches[..|batches| - 1]), batches[|batches| - 1])
  }

  /** Exact unlearning over whole runs of batches one after another, which may repeat refs, name unknown
      ones, span shards or raise half-way: every stored booster is at every moment the clean retrain on
      the rows then in its shard file. */
  lemma {:induction false} RunExact(c: Config, w: World<Disk>, batches: seq<Batch>)
    requires ValidCaches(c.h, w.caches) && Exact(c, w.disk) && Covers(c, w.disk)
    ensures Exact(c, Run(c, w, batches).disk) && Covers(c, Run(c, w, batches).disk)
  {
    hide Rebuild, Exact, Covers;
    if batches != [] {
      var init, b := batches[..|batches| - 1], batches[|batches| - 1];
      RunExact(c, w, init);
      var before := Run(c, w, init);
      RebuildKeepsExact(c, before.disk, CacheOf(before.caches, b.worker), b.refs);
    }
  }

  ghost predicate Healthy(c: Config, w: World<Disk>) {
    ValidCaches(c.h, w.caches) && Exact(c, w.disk) && Covers(c, w.disk) && Tight(w.disk)
  }

  /** A batch whose refs are distinct and whose cached tree is not taken for another set's. */
  predicate Sound(c: Config, w: World<Disk>, b: Batch) {
    NoRepeats(b.refs) && !Clash(c.h, w.disk.shards, w.disk.routing, CacheOf(w.caches, b.worker), b.refs)
  }

  predicate AllSound(c: Config, w: World<Disk>, batches: seq<Batch>)
    requires ValidCaches(c.h, w.caches)
  {
    batches == []
    || (var init := batches[..|batches| - 1];
        AllSound(c, w, init) && Sound(c, Run(c, w, init), batches[|batches| - 1]))
  }

  /** Along a run of sound batches routing and shard files agree. */
  lemma {:induction false} RunHealthy(c: Config, w: World<Disk>, batches: seq<Batch>)
    requires Healthy(c, w) && AllSound(c, w, batches)
    ensures Healthy(c, Run(c, w, batches))
  {
    hide Exact, Covers, Tight, Rebuild, ManifestsTrue;
    if batches != [] {
      var init, b := batches[..|batches| - 1], batches[|batches| - 1];
      RunHealthy(c, w, init);
      var before := Run(c, w, init);
      RunExact(c, w, batches);
      if Admit(before.disk.routing, b.refs).Admitted? {
        RebuildOutcome(c, before.disk, CacheOf(before.caches, b.worker), b.refs);
      } else {
        RefusedUntouched(c, before.disk, CacheOf(before.caches, b.worker), b.refs);
      }
    }
  }

  lemma RefusedUntouched(c: Config, d: Disk, entries: Entries, refs: seq<Key>)
    requires ValidEntries(c.h, entries) && !Admit(d.routing, refs).Admitted?
    ensures Rebuild(c, d, entries, refs) == (d, entries, Raised(Refused(Admit(d.routing, refs))))
  {}

  /** Whatever the files went through before, a batch that completes issues manifests that are true of
      the files it leaves and name the digest of the booster it stored, or the fingerprint collided. */
  lemma DoneManifestsTrue(c: Config, d: Disk, entries: Entries, refs: seq<Key>)
    requires ValidEntries(c.h, entries)
    ensures var (after, _, outcome) := Rebuild(c, d, entries, refs); var a := Admit(d.routing, refs);
            outcome.Done? ==>
              a.Admitted? && a.shard in d.shards && a.shard in after.shards && a.shard in after.boosters
              && outcome.rowsPurged == |d.shards[a.shard]| - |after.shards[a.shard]|
              && (ManifestsTrue(c.h, a, refs, after.shards[a.shard], c.digest(after.boosters[a.shard]),
                                outcome.manifests)
                  || Clash(c.h, d.shards, d.routing, entries, refs))
  {
    hide Retain, MinSlice, TreeFor, Conclude, ManifestsTrue, TrainShard, Rollback, ValidEntries;
    var a := Admit(d.routing, refs);
    if a.Admitted? && a.shard in d.shards && a.shard in d.boosters {
      AdmittedFacts(d.routing, refs);
      var rows := d.shards[a.shard];
      var left := Retain(rows, ToSet(refs));
      TreeForAgrees(c.h, entries, a.shard, RefsOf(rows));
      RefsPresent(rows);
      ResumeHasBooster(c, left, a.minSlice, d.boosters[a.shard]);
      var rebuilt := TrainShard(c, left, a.minSlice, Rollback(c, d.boosters[a.shard], a.minSlice)).value;
      if !Clash(c.h, d.shards, d.routing, entries, refs) {
        IssuedTrue(c.h, d.routing, entries, TreeFor(c.h, entries, a.shard, RefsOf(rows)), a, refs, c.digest(rebuilt),
                   rows);
      }
    }
  }

  /** So along every run, after repeated refs, errors and stale routes too, every manifest any batch
      issues is true of the disk. */
  lemma RunManifestsTrue(c: Config, w: World<Disk>, batches: seq<Batch>, n: nat)
    requires ValidCaches(c.h, w.caches) && n < |batches|
    ensures var before, refs := Run(c, w, batches[..n]), batches[n].refs;
            var entries := CacheOf(before.caches, batches[n].worker);
            var (after, _, outcome) := Rebuild(c, before.disk, entries, refs);
            var a := Admit(before.disk.routing, refs);
            after == Run(c, w, batches[..n + 1]).disk
            && (outcome.Done? ==>
                  a.Admitted? && a.shard in after.shards && a.shard in after.boosters
                  && (ManifestsTrue(c.h, a, refs, after.shards[a.shard], c.digest(after.boosters[a.shard]),
                                    outcome.manifests)
                      || Clash(c.h, before.disk.shards, before.disk.routing, entries, refs)))
  {
    hide Rebuild, ManifestsTrue, Clash;
    assert batches[..n + 1][..n] == batches[..n];
    var before := Run(c, w, batches[..n]);
    DoneManifestsTrue(c, before.disk, CacheOf(before.caches, batches[n].worker), batches[n].refs);
  }

  /** And the next sound batch after a sound run is refused untouched or completes. */
  lemma RunRefusedOrDone(c: Config, w: World<Disk>, batches: seq<Batch>, b: Batch)
    requires Healthy(c, w) && AllSound(c, w, batches) && Sound(c, Run(c, w, batches), b)
    ensures var before := Run(c, w, batches);
            var (after, _, outcome) := Rebuild(c, before.disk, CacheOf(before.caches, b.worker), b.refs);
            var a := Admit(before.disk.routing, b.refs);
            if a.Admitted? then
              outcome.Done? && a.shard in after.shards
              && ManifestsTrue(c.h, a, b.refs, after.shards[a.shard], c.digest(Clean(c, after.shards[a.shard])),
                               outcome.manifests)
            else after == before.disk && outcome == Raised(Refused(a))
  {
    hide Exact, Covers, Tight, Rebuild, ManifestsTrue, Run;
    RunHealthy(c, w, batches);
    var before := Run(c, w, batches);
    if Admit(before.disk.routing, b.refs).Admitted? {
      RebuildOutcome(c, before.disk, CacheOf(before.caches, b.worker), b.refs);
    } else {
      RefusedUntouched(c, before.disk, CacheOf(before.caches, b.worker), b.refs);
    }
  }

  // ---------------------------------------------------------- initial build

  function RoutedShards(routing: Routing): set<int> {
    set k | k in routing :: routing[k].shard
  }

  /** `build`: one booster per routed shard. */
  method Build(c: Config, store: Store)
    requires RoutedShards(store.routing) <= store.shards.Keys
    modifies store
    ensures store.shards == old(store.shards) && store.routing == old(store.routing)
    ensures forall s :: s in store.boosters <==> s in old(store.boosters) || s in RoutedShards(store.routing)
    ensures forall s | s in RoutedShards(store.routing) :: store.boosters[s] == Clean(c, store.shards[s])
  {
    hide Clean, TrainShard, TrainFrom;
    var routed := RoutedShards(store.routing);
    var todo := routed;
    while todo != {}
      invariant todo <= routed && store.shards == old(store.shards) && store.routing == old(store.routing)
      invariant forall s :: s in store.boosters <==> s in old(store.boosters) || (s in routed && s !in todo)
      invariant forall s | s in routed && s !in todo :: store.boosters[s] == Clean(c, store.shards[s])
      decreases |todo|
    {
      assert exists s :: s in todo;
      var shard :| shard in todo;
      FreshIsClean(c, store.shards[shard]);
      var booster := Train(c, store.shards[shard], 0, None);
      store.boosters := store.boosters[shard := booster.value];
      todo := todo - {shard};
    }
  }

  lemma FreshIsClean(c: Config, rows: Records)
    ensures TrainShard(c, rows, 0, None) == Some(Clean(c, rows))
  {}

  /** A freshly built deployment is healthy, given shard files that agree with the routing table. */
  lemma BuildHealthy(c: Config, d: Disk)
    requires Covers(c, d) && RoutedShards(d.routing) <= d.shards.Keys
    requires d.boosters.Keys == RoutedShards(d.routing)
    requires forall s | s in d.boosters :: d.boosters[s] == Clean(c, d.shards[s])
    requires forall k | k in d.routing :: k in Present(d.shards[d.routing[k].shard])
    ensures Healthy(c, World(d, map[]))
  {
    forall k | k in d.routing ensures d.routing[k].shard in RoutedShards(d.routing) {}
  }

  /** A built deployment of two subjects. */
  function Couple(c: Config, row: Row, other: Row): Disk {
    Disk(map[0 := [row, other]], map[0 := Clean(c, [row, other])],
         map[row.ref := Route(0, row.slice), other.ref := Route(0, other.slice)])
  }

  lemma CoupleHealthy(c: Config, row: Row, other: Row)
    requires row.ref != other.ref && row.slice < c.numSlices && other.slice < c.numSlices
    ensures Healthy(c, World(Couple(c, row, other), map[]))
    ensures !Clash(c.h, Couple(c, row, other).shards, Couple(c, row, other).routing, map[], [row.ref, row.ref])
  {
    hide Clean;
    var d := Couple(c, row, other);
    assert row in d.shards[0] && other in d.shards[0];
    assert row.ref in Present(d.shards[0]) && other.ref in Present(d.shards[0]);
  }

  /** Two jobs for one of them in one batch: KeyError, after its rows and its trees are gone, and it is
      still routed. The other stays in slice 0, so every slice still has rows to train on. */
  lemma SubjectRequestedTwice(c: Config, row: Row, other: Row)
    requires row.ref != other.ref && row.slice < c.numSlices && other.slice == 0
    ensures var (after, _, outcome) := Rebuild(c, Couple(c, row, other), map[], [row.ref, row.ref]);
            outcome == Raised(RoutingKeyError)
            && after.shards == map[0 := [other]] && after.boosters == map[0 := Clean(c, [other])]
            && after.routing == Couple(c, row, other).routing && !Tight(after)
  {
    hide Clean, Rebuild, ManifestsTrue, Healthy, Clash;
    var d, refs := Couple(c, row, other), [row.ref, row.ref];
    CoupleHealthy(c, row, other);
    HealthyDisk(c, World(d, map[]));
    assert refs[0] in refs && !NoRepeats(refs) by { assert refs[0] == refs[1]; }
    assert Admit(d.routing, refs).Admitted? && Admit(d.routing, refs).shard == 0;
    TightEverywhere(d);
    assert TightAt(d, 0);
    RebuildOutcome(c, d, map[], refs);
    RebuildOutcomeAt(c, d, map[], refs);
    RebuildKeepsExact(c, d, map[], refs);
    RetainOther(row, other);
  }

  lemma RetainOther(row: Row, other: Row)
    requires row.ref != other.ref
    ensures Retain([row, other], ToSet([row.ref, row.ref])) == [other]
  {
    var refs := [row.ref, row.ref];
    assert refs[0] in refs && forall k | k in refs :: k == row.ref;
    assert row.ref in ToSet(refs) && other.ref !in ToSet(refs);
    assert [row, other][1..] == [other] && [other][1..] == [];
    assert Retain([other], ToSet(refs)) == [other];
  }

  lemma HealthyDisk(c: Config, w: World<Disk>)
    requires Healthy(c, w)
    ensures ValidCaches(c.h, w.caches) && Exact(c, w.disk) && Covers(c, w.disk) && Tight(w.disk)
  {}
}
