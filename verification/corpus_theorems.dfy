/** What `build` (engine/train.py) leaves behind: a partition, a routing table that agrees with the
    shard files, evenly filled slices, and deployments that the erasure engines keep healthy. */
module CorpusTheorems {
  import opened Hashing
  import opened Ordering
  import opened Sums
  import opened SparseMerkle
  import opened Slicer
  import opened Erasure
  import opened Corpus
  import Gbdt
  import Mlp
  import MlpTheorems
  import Overlap
  import OverlapModels
  import OverlapTheorems

  // ----------------------------------------------------------- the partition

  /** `np.flatnonzero(shard_of_subject[inverse] == k)` */
  function RowsOfShard(c: Corpus.Config, raw: seq<RawRow>, k: int): seq<nat>
    requires GoodShards(c)
  {
    if raw == [] then []
    else
      RowsOfShard(c, raw[..|raw| - 1], k) + (if ShardOf(c, raw[|raw| - 1].name) == k then [|raw| - 1] else [])
  }

  lemma {:induction false} PartOrder(c: Corpus.Config, raw: seq<RawRow>, sliceOf: map<Name, int>, k: int)
    requires GoodShards(c)
    ensures var rows, part := RowsOfShard(c, raw, k), Part(c, raw, sliceOf, k);
            |part| == |rows|
            && (forall i, j | 0 <= i < j < |rows| :: rows[i] < rows[j])
            && (forall j | 0 <= j < |rows| :: rows[j] < |raw| && part[j] == ToRow(c, sliceOf, raw[rows[j]]))
            && (forall i: nat :: i in rows <==> i < |raw| && ShardOf(c, raw[i].name) == k)
  {
    hide ToRow;
    if raw != [] {
      var m := |raw| - 1;
      var init := raw[..m];
      PartOrder(c, init, sliceOf, k);
      assert forall i | 0 <= i < m :: init[i] == raw[i];
      var before := RowsOfShard(c, init, k);
      assert forall j | 0 <= j < |before| :: before[j] < m;
    }
  }

  /** Shard file k holds the rows of its subjects, all of them, once each and in raw order. */
  lemma PartKeepsOrder(c: Corpus.Config, raw: seq<RawRow>, sliceOf: map<Name, int>, k: int)
    requires GoodShards(c)
    ensures var rows, part := RowsOfShard(c, raw, k), Part(c, raw, sliceOf, k);
            |part| == |rows|
            && (forall i, j | 0 <= i < j < |rows| :: rows[i] < rows[j])
            && (forall j | 0 <= j < |rows| ::
                  rows[j] < |raw| && part[j].columns == raw[rows[j]].columns && part[j].ref == c.ref(raw[rows[j]].name)
                  && part[j].slice == SliceIndex(sliceOf, raw[rows[j]].name))
            && (forall i: nat :: i in rows <==> i < |raw| && ShardOf(c, raw[i].name) == k)
  {
    hide Part, RowsOfShard;
    PartOrder(c, raw, sliceOf, k);
  }

  function ShardSizes(c: Corpus.Config, raw: seq<RawRow>, sliceOf: map<Name, int>): (v: seq<int>)
    requires GoodShards(c)
    ensures |v| == c.numShards && forall k | 0 <= k < |v| :: v[k] == |Part(c, raw, sliceOf, k)|
  {
    seq(c.numShards, k requires 0 <= k < c.numShards => |Part(c, raw, sliceOf, k)|)
  }

  lemma SumBump(v: seq<int>, w: seq<int>, i: nat, d: int)
    requires |v| == |w| && i < |v| && forall k | 0 <= k < |v| :: w[k] == if k == i then v[k] + d else v[k]
    ensures Sum(w) == Sum(v) + d
  {
    var a, b := v[..i], v[i + 1..];
    assert v == a + [v[i]] + b && w == a + [v[i] + d] + b;
    SumMiddle(a, v[i], b);
    SumMiddle(a, v[i] + d, b);
  }

  /** Not a row is lost or stored twice. */
  lemma {:induction false} PartitionConserves(c: Corpus.Config, raw: seq<RawRow>, sliceOf: map<Name, int>)
    requires GoodShards(c)
    ensures Sum(ShardSizes(c, raw, sliceOf)) == |raw|
  {
    if raw == [] {
      SumZero(ShardSizes(c, raw, sliceOf));
    } else {
      var init, last := raw[..|raw| - 1], raw[|raw| - 1];
      PartitionConserves(c, init, sliceOf);
      SumBump(ShardSizes(c, init, sliceOf), ShardSizes(c, raw, sliceOf), ShardOf(c, last.name), 1);
    }
  }

  /** The rows of a subject share one shard file and one slice. */
  lemma SubjectStaysTogether(c: Corpus.Config, raw: seq<RawRow>, sliceOf: map<Name, int>, i: nat, j: nat)
    requires GoodShards(c) && i < |raw| && j < |raw| && raw[i].name == raw[j].name
    ensures forall k :: i in RowsOfShard(c, raw, k) <==> j in RowsOfShard(c, raw, k)
    ensures ToRow(c, sliceOf, raw[i]).slice == ToRow(c, sliceOf, raw[j]).slice
  {
    forall k ensures i in RowsOfShard(c, raw, k) <==> j in RowsOfShard(c, raw, k) {
      PartOrder(c, raw, sliceOf, k);
    }
  }

  lemma {:induction false} PartMembers(c: Corpus.Config, raw: seq<RawRow>, sliceOf: map<Name, int>, k: int)
    requires GoodShards(c)
    ensures forall x | x in raw && ShardOf(c, x.name) == k :: ToRow(c, sliceOf, x) in Part(c, raw, sliceOf, k)
    ensures forall r | r in Part(c, raw, sliceOf, k) ::
              exists x :: x in raw && ShardOf(c, x.name) == k && r == ToRow(c, sliceOf, x)
  {
    if raw != [] {
      var init, last := raw[..|raw| - 1], raw[|raw| - 1];
      PartMembers(c, init, sliceOf, k);
      assert raw == init + [last];
      var part := Part(c, raw, sliceOf, k);
      forall r | r in part ensures exists x :: x in raw && ShardOf(c, x.name) == k && r == ToRow(c, sliceOf, x) {
        if r in Part(c, init, sliceOf, k) {
          var x :| x in init && ShardOf(c, x.name) == k && r == ToRow(c, sliceOf, x);
          assert x in raw;
        } else {
          assert last in raw;
        }
      }
    }
  }

  // ------------------------------------------------------- the routing table

  lemma {:induction false} RoutingEntries(c: Corpus.Config, subjects: seq<Name>, sliceOf: map<Name, int>)
    requires GoodShards(c)
    ensures forall n | n in subjects :: c.ref(n) in RoutingOf(c, subjects, sliceOf)
    ensures forall k | k in RoutingOf(c, subjects, sliceOf) ::
              exists n :: n in subjects && c.ref(n) == k
                && RoutingOf(c, subjects, sliceOf)[k] == Route(ShardOf(c, n), SliceIndex(sliceOf, n))
  {
    if subjects != [] {
      var init, last := subjects[..|subjects| - 1], subjects[|subjects| - 1];
      RoutingEntries(c, init, sliceOf);
      assert subjects == init + [last];
      var before, routing := RoutingOf(c, init, sliceOf), RoutingOf(c, subjects, sliceOf);
      forall k | k in routing
        ensures exists n :: n in subjects && c.ref(n) == k
                  && routing[k] == Route(ShardOf(c, n), SliceIndex(sliceOf, n))
      {
        if k == c.ref(last) {
          assert last in subjects;
        } else {
          var n :| n in init && c.ref(n) == k && before[k] == Route(ShardOf(c, n), SliceIndex(sliceOf, n));
          assert n in subjects;
        }
      }
    }
  }

  /** Subjects that share a pseudonym share shard and slice; with distinct pseudonyms, always so. */
  ghost predicate RefsAgree(c: Corpus.Config, raw: seq<RawRow>, sliceOf: map<Name, int>)
    requires GoodShards(c)
  {
    forall m, n | m in Subjects(raw) && n in Subjects(raw) && c.ref(m) == c.ref(n) ::
      ShardOf(c, m) == ShardOf(c, n) && SliceIndex(sliceOf, m) == SliceIndex(sliceOf, n)
  }

  lemma BuildNotStale(c: Corpus.Config, raw: seq<RawRow>, sliceOf: map<Name, int>, b: Built)
    requires GoodShards(c) && c.numSlices >= 1 && BuiltAs(c, raw, sliceOf, b)
    ensures NoStale(b.shards, b.routing)
  {
    SubjectsSpec(raw);
    RoutingEntries(c, Subjects(raw), sliceOf);
    forall k | k in b.routing
      ensures b.routing[k].shard in b.shards && k in Present(b.shards[b.routing[k].shard])
    {
      var n :| n in Subjects(raw) && c.ref(n) == k && b.routing[k] == Route(ShardOf(c, n), SliceIndex(sliceOf, n));
      var x :| x in raw && x.name == n;
      PartMembers(c, raw, sliceOf, ShardOf(c, n));
      assert ToRow(c, sliceOf, x) in b.shards[ShardOf(c, n)];
    }
  }

  /** Routing and shard files agree exactly when no two subjects are merged by their pseudonym. */
  lemma BuildRouted(c: Corpus.Config, raw: seq<RawRow>, sliceOf: map<Name, int>, b: Built)
    requires GoodShards(c) && c.numSlices >= 1 && BuiltAs(c, raw, sliceOf, b)
    ensures Routed(b.shards, b.routing, c.numSlices) <==> RefsAgree(c, raw, sliceOf)
  {
    hide Part, RoutingOf, Subjects, Sliced, SliceIndex;
    if RefsAgree(c, raw, sliceOf) {
      forall s, r: Row | s in b.shards && r in b.shards[s]
        ensures r.ref in b.routing && b.routing[r.ref] == Route(s, r.slice) && r.slice < c.numSlices
      {
        RowIsRouted(c, raw, sliceOf, b, s, r);
      }
    }
    if Routed(b.shards, b.routing, c.numSlices) {
      forall m, n | m in Subjects(raw) && n in Subjects(raw) && c.ref(m) == c.ref(n)
        ensures ShardOf(c, m) == ShardOf(c, n) && SliceIndex(sliceOf, m) == SliceIndex(sliceOf, n)
      {
        SubjectHasRow(c, raw, sliceOf, b, m);
        SubjectHasRow(c, raw, sliceOf, b, n);
      }
    }
  }

  lemma SubjectHasRow(c: Corpus.Config, raw: seq<RawRow>, sliceOf: map<Name, int>, b: Built, n: Name)
    requires GoodShards(c) && c.numSlices >= 1 && BuiltAs(c, raw, sliceOf, b) && n in Subjects(raw)
    ensures exists r: Row :: ShardOf(c, n) in b.shards && r in b.shards[ShardOf(c, n)]
                             && r.ref == c.ref(n) && r.slice == SliceIndex(sliceOf, n)
  {
    SubjectsSpec(raw);
    var x :| x in raw && x.name == n;
    PartMembers(c, raw, sliceOf, ShardOf(c, n));
    assert ToRow(c, sliceOf, x) in b.shards[ShardOf(c, n)];
  }

  lemma RowIsRouted(c: Corpus.Config, raw: seq<RawRow>, sliceOf: map<Name, int>, b: Built, s: int, r: Row)
    requires GoodShards(c) && c.numSlices >= 1 && BuiltAs(c, raw, sliceOf, b)
    requires RefsAgree(c, raw, sliceOf) && s in b.shards && r in b.shards[s]
    ensures r.ref in b.routing && b.routing[r.ref] == Route(s, r.slice) && r.slice < c.numSlices
  {
    hide Part, RoutingOf, Subjects, Sliced;
    PartMembers(c, raw, sliceOf, s);
    var x :| x in raw && ShardOf(c, x.name) == s && r == ToRow(c, sliceOf, x);
    SubjectsSpec(raw);
    SliceInRange(c, raw, sliceOf, x.name);
    RoutingEntries(c, Subjects(raw), sliceOf);
    assert c.ref(x.name) in b.routing;
    var n :| n in Subjects(raw) && c.ref(n) == r.ref
             && b.routing[r.ref] == Route(ShardOf(c, n), SliceIndex(sliceOf, n));
  }

  // --------------------------------------------------- slices within a shard

  /** Rows of a shard file that lie in slice j. */
  function InSlice(part: Records, j: int): nat {
    if part == [] then 0 else InSlice(part[..|part| - 1], j) + (if part[|part| - 1].slice == j then 1 else 0)
  }

  /** Counting rows in the file is counting each of the shard's subjects with all it owns. */
  lemma {:induction false} RowsAreOwned(c: Corpus.Config, raw: seq<RawRow>, members: seq<Name>,
                                        sliceOf: map<Name, int>, k: int, j: int)
    requires GoodShards(c) && NoRepeats(members) && forall n | n in members :: n in sliceOf && sliceOf[n] >= 0
    requires forall x | x in raw :: ShardOf(c, x.name) == k <==> x.name in members
    ensures InSlice(Part(c, raw, sliceOf, k), j) == Slicer.Records(SlicesOf(sliceOf, members), Counts(raw, members), j)
    ensures |Part(c, raw, sliceOf, k)| == Sum(Counts(raw, members))
  {
    var out, counts := SlicesOf(sliceOf, members), Counts(raw, members);
    if raw == [] {
      SumZero(counts);
      SumZero(Marked(out, counts, j));
    } else {
      var init, last := raw[..|raw| - 1], raw[|raw| - 1];
      assert raw == init + [last];
      RowsAreOwned(c, init, members, sliceOf, k, j);
      OneMoreRow(init, raw, last.name, members, out, j);
      var before, part := Part(c, init, sliceOf, k), Part(c, raw, sliceOf, k);
      if last.name in members {
        assert part[..|part| - 1] == before;
      } else {
        assert part == before;
      }
    }
  }

  lemma OneMoreRow(init: seq<RawRow>, raw: seq<RawRow>, n: Name, members: seq<Name>, out: seq<int>, j: int)
    requires raw != [] && init == raw[..|raw| - 1] && n == raw[|raw| - 1].name
    requires |out| == |members| && NoRepeats(members)
    ensures n !in members ==>
              Counts(raw, members) == Counts(init, members)
    ensures n in members ==>
              exists i :: 0 <= i < |members| && members[i] == n
                && Sum(Counts(raw, members)) == Sum(Counts(init, members)) + 1
                && Slicer.Records(out, Counts(raw, members), j)
                   == Slicer.Records(out, Counts(init, members), j) + (if out[i] == j then 1 else 0)
  {
    if n in members {
      var i :| 0 <= i < |members| && members[i] == n;
      forall p | 0 <= p < |members|
        ensures Counts(raw, members)[p] == Counts(init, members)[p] + if p == i then 1 else 0
      {
        assert p != i ==> members[p] != members[i];
      }
      SumBump(Counts(init, members), Counts(raw, members), i, 1);
      SumBump(Marked(out, Counts(init, members), j), Marked(out, Counts(raw, members), j), i,
              if out[i] == j then 1 else 0);
    }
  }

  /** The packing bound, for the files on disk: in every shard file, every slice (an empty one too)
      is within one subject's rows of an equal share. */
  lemma ShardSlicesBalanced(c: Corpus.Config, raw: seq<RawRow>, sliceOf: map<Name, int>, b: Built, k: int, j: int,
                            biggest: int)
    requires GoodShards(c) && c.numSlices >= 1 && BuiltAs(c, raw, sliceOf, b)
    requires k in b.shards && b.shards[k] != [] && 0 <= j < c.numSlices
    requires forall n | n in Subjects(raw) && ShardOf(c, n) == k :: Owned(raw, n) <= biggest
    ensures -(c.numSlices * biggest) < c.numSlices * InSlice(b.shards[k], j) - |b.shards[k]| < c.numSlices * biggest
  {
    hide Assigned, Part, Subjects, Members, Slicer.Records, InSlice;
    assert SlicedAs(c, raw, sliceOf, k);
    var members := Members(c, Subjects(raw), k);
    var counts, out := Counts(raw, members), SlicesOf(sliceOf, members);
    CountShard(c, raw, sliceOf, k, j);
    SubjectsSpec(raw);
    MembersSpec(c, Subjects(raw), k);
    assert members == [] ==> Sum(counts) == 0;
    forall i | 0 <= i < |counts| ensures counts[i] <= biggest { assert members[i] in members; }
    PackingBound(members, Scores(c, members), counts, c.numSlices, out, j, biggest);
  }

  lemma CountShard(c: Corpus.Config, raw: seq<RawRow>, sliceOf: map<Name, int>, k: int, j: int)
    requires GoodShards(c) && c.numSlices >= 1 && SlicedAs(c, raw, sliceOf, k)
    ensures var members := Members(c, Subjects(raw), k);
            var counts, out := Counts(raw, members), SlicesOf(sliceOf, members);
            InSlice(Part(c, raw, sliceOf, k), j) == Slicer.Records(out, counts, j)
            && |Part(c, raw, sliceOf, k)| == Sum(counts)
  {
    hide Assigned, Part, Slicer.Records, InSlice, Sum;
    var members := Members(c, Subjects(raw), k);
    SubjectsSpec(raw);
    MembersSpec(c, Subjects(raw), k);
    MembersInRange(c, raw, sliceOf, k);
    forall i, p | 0 <= i < p < |members| ensures members[i] != members[p] {
      if members[i] == members[p] { AscendingDistinct(members, i, p); }
    }
    RowsAreOwned(c, raw, members, sliceOf, k, j);
  }

  lemma MembersInRange(c: Corpus.Config, raw: seq<RawRow>, sliceOf: map<Name, int>, k: int)
    requires GoodShards(c) && c.numSlices >= 1 && SlicedAs(c, raw, sliceOf, k)
    ensures forall n | n in Members(c, Subjects(raw), k) :: n in sliceOf && 0 <= sliceOf[n] < c.numSlices
  {
    hide Assigned;
    var members := Members(c, Subjects(raw), k);
    forall n | n in members ensures n in sliceOf && 0 <= sliceOf[n] < c.numSlices {
      var i :| 0 <= i < |members| && members[i] == n;
      SlicesFollowChurn(members, Scores(c, members), Counts(raw, members), c.numSlices, SlicesOf(sliceOf, members),
                        i, i);
    }
  }

  // ------------------------------------------------ the engines started on it

  /** A deployment partitioned from raw rows, with one booster trained per routed shard, is healthy. */
  lemma ForestStartsHealthy(c: Corpus.Config, g: Gbdt.Config, raw: seq<RawRow>, sliceOf: map<Name, int>, b: Built,
                            boosters: map<int, Gbdt.Booster>)
    requires GoodShards(c) && c.numSlices >= 1 && BuiltAs(c, raw, sliceOf, b)
    requires RefsAgree(c, raw, sliceOf) && g.numSlices == c.numSlices
    requires boosters.Keys == Gbdt.RoutedShards(b.routing)
    requires forall s | s in boosters :: s in b.shards && boosters[s] == Gbdt.Clean(g, b.shards[s])
    ensures Gbdt.Healthy(g, World(Gbdt.Disk(b.shards, boosters, b.routing), map[]))
  {
    hide Part, RoutingOf, Subjects, Sliced, Routed, NoStale, Gbdt.Clean, Gbdt.Exact, Gbdt.Healthy;
    BuildRouted(c, raw, sliceOf, b);
    BuildNotStale(c, raw, sliceOf, b);
    StaleFree(b.shards, b.routing);
    Gbdt.BuildHealthy(g, Gbdt.Disk(b.shards, boosters, b.routing));
  }

  /** From raw rows on: partition, train one booster per routed shard, then let the batches of any workers
      overlap, repeated, unknown and failing ones included. If every batch of a shard read a pair of files
      that one batch wrote, then whenever the pair in place is one batch's, the booster is the clean retrain
      of the rows beside it. */
  lemma ForestStaysExact(c: Corpus.Config, g: Gbdt.Config, raw: seq<RawRow>, sliceOf: map<Name, int>, b: Built,
                         boosters: map<int, Gbdt.Booster>, run: seq<Overlap.Event>, n: nat, s: int)
    requires GoodShards(c) && c.numSlices >= 1 && BuiltAs(c, raw, sliceOf, b)
    requires RefsAgree(c, raw, sliceOf) && g.numSlices == c.numSlices
    requires boosters.Keys == Gbdt.RoutedShards(b.routing) && n <= |run| && s in boosters
    requires forall k | k in boosters :: k in b.shards && boosters[k] == Gbdt.Clean(g, b.shards[k])
    requires var f, files := OverlapTheorems.Forest(g), Overlap.Files(b.shards, boosters, b.routing);
             forall j | 0 <= j < n :: OverlapModels.ReadsPair(f, files, run, j, s)
    ensures var f, files := OverlapTheorems.Forest(g), Overlap.Files(b.shards, boosters, b.routing);
            OverlapModels.Paired(f, files, run, n, s) ==>
              OverlapModels.Model(f, files, run, n, s) == Some(Gbdt.Clean(g, Overlap.Rows(f, files, run, n, s)))
  {
    hide Part, RoutingOf, Subjects, Sliced, Routed, Gbdt.Clean, Overlap.At, OverlapModels.Paired;
    BuildRouted(c, raw, sliceOf, b);
    OverlapModels.PairsAreExact(g, Overlap.Files(b.shards, boosters, b.routing), run, n, s);
  }

  lemma StaleFree(shards: Shards, routing: Routing)
    requires NoStale(shards, routing)
    ensures Gbdt.RoutedShards(routing) <= shards.Keys
    ensures forall k | k in routing :: k in Present(shards[routing[k].shard])
  {}

  /** The raw rows of everyone not named in `secret`. */
  function Without(c: Corpus.Config, raw: seq<RawRow>, secret: set<Key>): seq<RawRow> {
    if raw == [] then []
    else Without(c, raw[..|raw| - 1], secret) + (if c.ref(raw[|raw| - 1].name) in secret then [] else [raw[|raw| - 1]])
  }

  lemma {:induction false} RetainAppend(a: Records, r: Row, gone: set<Key>)
    ensures Retain(a + [r], gone) == Retain(a, gone) + (if r.ref in gone then [] else [r])
  {
    if a == [] {
      assert [] + [r] == [r] && [r][1..] == [];
    } else {
      RetainAppend(a[1..], r, gone);
      assert (a + [r])[0] == a[0] && (a + [r])[1..] == a[1..] + [r];
    }
  }

  /** Purging a shard file is partitioning a corpus that never held the purged rows. */
  lemma {:induction false} PurgeIsAbsence(c: Corpus.Config, raw: seq<RawRow>, sliceOf: map<Name, int>, k: int,
                                          secret: set<Key>)
    requires GoodShards(c)
    ensures Retain(Part(c, raw, sliceOf, k), secret) == Part(c, Without(c, raw, secret), sliceOf, k)
  {
    if raw != [] {
      var init, last := raw[..|raw| - 1], raw[|raw| - 1];
      PurgeIsAbsence(c, init, sliceOf, k, secret);
      var rest := Without(c, init, secret);
      if ShardOf(c, last.name) == k {
        RetainAppend(Part(c, init, sliceOf, k), ToRow(c, sliceOf, last), secret);
      } else {
        assert Part(c, raw, sliceOf, k) == Part(c, init, sliceOf, k);
      }
      if c.ref(last.name) in secret {
        assert Without(c, raw, secret) == rest;
      } else {
        assert Without(c, raw, secret)[..|rest|] == rest;
      }
    }
  }

  lemma PresentOfPart(c: Corpus.Config, raw: seq<RawRow>, sliceOf: map<Name, int>, k: int)
    requires GoodShards(c)
    ensures Present(Part(c, raw, sliceOf, k)) == set n | n in Subjects(raw) && ShardOf(c, n) == k :: c.ref(n)
  {
    hide Part, Subjects;
    var part := Part(c, raw, sliceOf, k);
    var refs := set n | n in Subjects(raw) && ShardOf(c, n) == k :: c.ref(n);
    SubjectsSpec(raw);
    PartMembers(c, raw, sliceOf, k);
    forall key: Key | key in Present(part) ensures key in refs {
      var r :| r in part && r.ref == key;
      var x :| x in raw && ShardOf(c, x.name) == k && r == ToRow(c, sliceOf, x);
    }
    forall key: Key | key in refs ensures key in Present(part) {
      var n :| n in Subjects(raw) && ShardOf(c, n) == k && c.ref(n) == key;
      var x :| x in raw && x.name == n;
      assert ToRow(c, sliceOf, x) in part;
    }
  }

  /** Noninterference from raw rows on: partition and train two corpora of the same subjects, under
      one slice assignment, that differ only in the rows of some subjects; then run the same batches on
      both, whatever becomes of them. Every batch ends the same way on both, and once each of those
      subjects was in a completed batch, everything stored is identical. */
  lemma NetworkForgets(c: Corpus.Config, m: Mlp.Config, raw: seq<RawRow>, other: seq<RawRow>, sliceOf: map<Name, int>,
                       b: Built, b': Built, a: Mlp.Disk, a': Mlp.Disk, batches: seq<Batch>, secret: set<Key>)
    requires GoodShards(c) && c.numSlices >= 1 && m.numSlices == c.numSlices
    requires BuiltAs(c, raw, sliceOf, b) && BuiltAs(c, other, sliceOf, b')
    requires Subjects(raw) == Subjects(other) && RefsAgree(c, raw, sliceOf)
    requires Without(c, raw, secret) == Without(c, other, secret)
    requires a.shards == b.shards && a.routing == b.routing && MlpTheorems.Bootstrapped(m, a)
    requires a'.shards == b'.shards && a'.routing == b'.routing && MlpTheorems.Bootstrapped(m, a')
    ensures MlpTheorems.SameOutcomes(MlpTheorems.Outcomes(m, World(a, map[]), batches),
                                     MlpTheorems.Outcomes(m, World(a', map[]), batches))
    ensures secret <= MlpTheorems.Erased(m, World(a, map[]), batches) ==>
              var x, y := MlpTheorems.Run(m, World(a, map[]), batches), MlpTheorems.Run(m, World(a', map[]), batches);
              x.caches == y.caches && MlpTheorems.SameStored(x.disk, y.disk)
  {
    hide Part, RoutingOf, Subjects, Sliced, Routed, Retain, Present, MlpTheorems.Bootstrapped, MlpTheorems.Run,
         MlpTheorems.Outcomes, MlpTheorems.Erased, MlpTheorems.SameOutcomes, MlpTheorems.SameStored;
    BuildRouted(c, raw, sliceOf, b);
    BuildRouted(c, other, sliceOf, b');
    assert a.shards.Keys == a'.shards.Keys by {
      assert forall s :: (s in b.shards <==> 0 <= s < c.numShards) && (s in b'.shards <==> 0 <= s < c.numShards);
    }
    forall s | s in a.shards
      ensures Retain(a.shards[s], secret) == Retain(a'.shards[s], secret)
              && Present(a.shards[s]) == Present(a'.shards[s])
    {
      PurgeIsAbsence(c, raw, sliceOf, s, secret);
      PurgeIsAbsence(c, other, sliceOf, s, secret);
      PresentOfPart(c, raw, sliceOf, s);
      PresentOfPart(c, other, sliceOf, s);
    }
    MlpTheorems.NothingErasedRemains(m, a, a', map[], batches, secret);
  }
}
