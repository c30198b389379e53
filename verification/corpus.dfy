/** engine/sharder.py and the partition in engine/train.py: raw rows become shard files and a
    routing table. Subject names are UTF-8, whose byte order is their code-point order. */
module Corpus {
  import opened Hashing
  import opened Ordering
  import opened SparseMerkle
  import opened Slicer
  import opened Erasure

  type Name = Bytes

  datatype RawRow = RawRow(name: Name, columns: seq<real>)

  /** `stableHash` stands for blake2b, `ref` for the keyed HMAC and `churn` for the frozen scores. */
  datatype Config = Config(
    numShards: int,
    hotShards: int,
    hotThreshold: real,
    numSlices: int,
    stableHash: Name -> nat,
    ref: Name -> Key,
    churn: Name -> real)

  predicate GoodShards(c: Config) { 0 < c.hotShards < c.numShards }

  lemma HashIsCongruent(x: nat, m: int)
    requires m > 0
    ensures (x - x % m) % m == 0
  {
    var multiple := x - x % m;
    MultipleBounds(x / m - multiple / m, m);
  }

  lemma MultipleBounds(k: int, m: int)
    requires m > 0
    ensures k >= 1 ==> k * m >= m
    ensures k <= -1 ==> k * m <= -m
  {}

  /** `assign_shard` on a configuration it does not refuse. */
  function ShardOf(c: Config, name: Name): (s: int)
    requires GoodShards(c)
    ensures 0 <= s < c.numShards
    ensures s < c.hotShards <==> c.churn(name) >= c.hotThreshold
    ensures s < c.hotShards ==> (c.stableHash(name) - s) % c.hotShards == 0
    ensures s >= c.hotShards ==> (c.stableHash(name) - (s - c.hotShards)) % (c.numShards - c.hotShards) == 0
  {
    HashIsCongruent(c.stableHash(name), c.hotShards);
    HashIsCongruent(c.stableHash(name), c.numShards - c.hotShards);
    if c.churn(name) >= c.hotThreshold then c.stableHash(name) % c.hotShards
    else c.hotShards + c.stableHash(name) % (c.numShards - c.hotShards)
  }

  function Names(raw: seq<RawRow>): (names: seq<Name>)
    ensures |names| == |raw| && forall i | 0 <= i < |raw| :: names[i] == raw[i].name
  {
    seq(|raw|, i requires 0 <= i < |raw| => raw[i].name)
  }

  /** `np.unique(raw["nameOrig"])` */
  function Subjects(raw: seq<RawRow>): seq<Name> { SortedSet(Names(raw)) }

  lemma SubjectsSpec(raw: seq<RawRow>)
    ensures Ascending(Subjects(raw))
    ensures forall n :: n in Subjects(raw) <==> exists r :: r in raw && r.name == n
  {
    SortedSetSpec(Names(raw));
    forall n ensures n in Subjects(raw) <==> exists r :: r in raw && r.name == n {
      assert n in Subjects(raw) <==> n in ToSet(Names(raw));
      if n in Names(raw) {
        var i :| 0 <= i < |raw| && Names(raw)[i] == n;
        assert raw[i] in raw;
      }
      if r :| r in raw && r.name == n {
        var i :| 0 <= i < |raw| && raw[i] == r;
        assert Names(raw)[i] == n;
      }
    }
  }

  /** `np.bincount`: how many rows a subject owns. */
  function Owned(raw: seq<RawRow>, name: Name): nat {
    if raw == [] then 0 else Owned(raw[..|raw| - 1], name) + (if raw[|raw| - 1].name == name then 1 else 0)
  }

  /** `subjects[shard_of_subject == k]` */
  function Members(c: Config, subjects: seq<Name>, k: int): seq<Name>
    requires GoodShards(c)
  {
    if subjects == [] then []
    else (if ShardOf(c, subjects[0]) == k then [subjects[0]] else []) + Members(c, subjects[1..], k)
  }

  lemma {:induction false} MembersSpec(c: Config, subjects: seq<Name>, k: int)
    requires GoodShards(c) && Ascending(subjects)
    ensures forall n :: n in Members(c, subjects, k) <==> n in subjects && ShardOf(c, n) == k
    ensures Ascending(Members(c, subjects, k))
  {
    if subjects != [] {
      TailSet(subjects);
      MembersSpec(c, subjects[1..], k);
      var rest := Members(c, subjects[1..], k);
      assert subjects == [subjects[0]] + subjects[1..];
      forall j | 0 <= j < |rest| ensures Less(subjects[0], rest[j]) {
        assert rest[j] in rest;
        var i :| 0 <= i < |subjects[1..]| && subjects[1..][i] == rest[j];
        assert Less(subjects[0], subjects[i + 1]);
      }
    }
  }

  function Scores(c: Config, names: seq<Name>): (v: seq<real>)
    ensures |v| == |names| && forall i | 0 <= i < |v| :: v[i] == c.churn(names[i])
  {
    seq(|names|, i requires 0 <= i < |names| => c.churn(names[i]))
  }

  function Counts(raw: seq<RawRow>, names: seq<Name>): (v: seq<int>)
    ensures |v| == |names| && forall i | 0 <= i < |v| :: v[i] == Owned(raw, names[i])
  {
    seq(|names|, i requires 0 <= i < |names| => Owned(raw, names[i]))
  }

  lemma {:induction false} OwnersOwn(raw: seq<RawRow>, r: RawRow)
    requires r in raw
    ensures Owned(raw, r.name) >= 1
  {
    assert raw == raw[..|raw| - 1] + [raw[|raw| - 1]];
    if r != raw[|raw| - 1] { OwnersOwn(raw[..|raw| - 1], r); }
  }

  function SlicesOf(sliceOf: map<Name, int>, names: seq<Name>): (v: seq<int>)
    requires forall n | n in names :: n in sliceOf
    ensures |v| == |names| && forall i | 0 <= i < |v| :: v[i] == sliceOf[names[i]]
  {
    seq(|names|, i requires 0 <= i < |names| => sliceOf[names[i]])
  }

  /** `sliceOf` is what `assign_slices` gives the subjects of shard k. */
  ghost predicate SlicedAs(c: Config, raw: seq<RawRow>, sliceOf: map<Name, int>, k: int)
    requires GoodShards(c) && c.numSlices >= 1
  {
    var members := Members(c, Subjects(raw), k);
    (forall n | n in members :: n in sliceOf) && Positive(Counts(raw, members))
    && Assigned(members, Scores(c, members), Counts(raw, members), c.numSlices, SlicesOf(sliceOf, members))
  }

  ghost predicate Sliced(c: Config, raw: seq<RawRow>, sliceOf: map<Name, int>)
    requires GoodShards(c) && c.numSlices >= 1
  {
    forall k | 0 <= k < c.numShards :: SlicedAs(c, raw, sliceOf, k)
  }

  lemma SliceInRange(c: Config, raw: seq<RawRow>, sliceOf: map<Name, int>, n: Name)
    requires GoodShards(c) && c.numSlices >= 1 && Sliced(c, raw, sliceOf) && n in Subjects(raw)
    ensures n in sliceOf && 0 <= sliceOf[n] < c.numSlices
  {
    var k := ShardOf(c, n);
    var members := Members(c, Subjects(raw), k);
    SubjectsSpec(raw);
    MembersSpec(c, Subjects(raw), k);
    assert SlicedAs(c, raw, sliceOf, k);
    var i :| 0 <= i < |members| && members[i] == n;
    SlicesFollowChurn(members, Scores(c, members), Counts(raw, members), c.numSlices, SlicesOf(sliceOf, members), i, i);
  }

  // ------------------------------------------------------- files and routing

  /** The slice of a subject, as the index stored with each of its rows. */
  function SliceIndex(sliceOf: map<Name, int>, n: Name): nat {
    if n in sliceOf && sliceOf[n] >= 0 then sliceOf[n] else 0
  }

  function ToRow(c: Config, sliceOf: map<Name, int>, r: RawRow): Row {
    Row(r.columns, c.ref(r.name), SliceIndex(sliceOf, r.name))
  }

  /** The rows saved to shard file k, in their raw order. */
  function Part(c: Config, raw: seq<RawRow>, sliceOf: map<Name, int>, k: int): Records
    requires GoodShards(c)
  {
    if raw == [] then []
    else
      var last := raw[|raw| - 1];
      Part(c, raw[..|raw| - 1], sliceOf, k) + (if ShardOf(c, last.name) == k then [ToRow(c, sliceOf, last)] else [])
  }

  /** The routing loop; a ref assigned twice keeps the later entry. */
  function RoutingOf(c: Config, subjects: seq<Name>, sliceOf: map<Name, int>): Routing
    requires GoodShards(c)
  {
    if subjects == [] then map[]
    else
      var last := subjects[|subjects| - 1];
      var before := RoutingOf(c, subjects[..|subjects| - 1], sliceOf);
      before[c.ref(last) := Route(ShardOf(c, last), SliceIndex(sliceOf, last))]
  }

  datatype Built = Built(shards: Shards, routing: Routing) | Rejected

  /** What `build` leaves on disk. */
  ghost predicate BuiltAs(c: Config, raw: seq<RawRow>, sliceOf: map<Name, int>, b: Built)
    requires GoodShards(c) && c.numSlices >= 1
  {
    b.Built? && Sliced(c, raw, sliceOf)
    && (forall k :: k in b.shards <==> 0 <= k < c.numShards)
    && (forall k | 0 <= k < c.numShards :: b.shards[k] == Part(c, raw, sliceOf, k))
    && b.routing == RoutingOf(c, Subjects(raw), sliceOf)
  }

  /** `build` with the horizon taken from the rows, which is undefined for none. */
  method Build(c: Config, raw: seq<RawRow>) returns (b: Built, ghost sliceOf: map<Name, int>)
    ensures b.Rejected? <==> raw == [] || !(0 < c.hotShards < c.numShards) || c.numSlices < 1
    ensures b.Built? ==> BuiltAs(c, raw, sliceOf, b)
  {
    sliceOf := map[];
    if raw == [] || !GoodShards(c) || c.numSlices < 1 { return Rejected, sliceOf; }
    var subjects := Subjects(raw);
    var slices := AssignAllSlices(c, raw);
    sliceOf := slices;

    var shards: Shards := map[];
    for k := 0 to c.numShards
      invariant forall s :: s in shards <==> 0 <= s < k
      invariant forall s | 0 <= s < k :: shards[s] == Part(c, raw, slices, s)
    {
      var records := PartLoop(c, raw, slices, k);
      shards := shards[k := records];
    }

    var routing: Routing := map[];
    for i := 0 to |subjects|
      invariant routing == RoutingOf(c, subjects[..i], slices)
    {
      assert subjects[..i + 1][..i] == subjects[..i];
      routing := routing[c.ref(subjects[i]) := Route(ShardOf(c, subjects[i]), SliceIndex(slices, subjects[i]))];
    }
    assert subjects[..|subjects|] == subjects;
    b := Built(shards, routing);
  }

  /** `raw[c][rows]` for the rows of shard k. */
  method PartLoop(c: Config, raw: seq<RawRow>, sliceOf: map<Name, int>, k: int) returns (records: Records)
    requires GoodShards(c)
    ensures records == Part(c, raw, sliceOf, k)
  {
    records := [];
    for i := 0 to |raw|
      invariant records == Part(c, raw[..i], sliceOf, k)
    {
      assert raw[..i + 1][..i] == raw[..i];
      if ShardOf(c, raw[i].name) == k { records := records + [ToRow(c, sliceOf, raw[i])]; }
    }
    assert raw[..|raw|] == raw;
  }

  /** `slice_of_subject`, filled shard by shard. */
  method AssignAllSlices(c: Config, raw: seq<RawRow>) returns (sliceOf: map<Name, int>)
    requires GoodShards(c) && c.numSlices >= 1
    ensures Sliced(c, raw, sliceOf)
  {
    sliceOf := map[];
    for k := 0 to c.numShards
      invariant forall s | 0 <= s < k :: SlicedAs(c, raw, sliceOf, s)
    {
      var members := Members(c, Subjects(raw), k);
      MembersPositive(c, raw, k);
      var r := AssignSlices(members, Scores(c, members), Counts(raw, members), c.numSlices);
      var out := r.value[..];
      var next := Fill(sliceOf, members, out);
      FillSpec(c, raw, sliceOf, k, out);
      sliceOf := next;
    }
  }

  /** `slice_of_subject[m] = ...` */
  function Fill(sliceOf: map<Name, int>, names: seq<Name>, out: seq<int>): map<Name, int>
    requires |names| == |out|
  {
    if names == [] then sliceOf
    else Fill(sliceOf, names[..|names| - 1], out[..|out| - 1])[names[|names| - 1] := out[|out| - 1]]
  }

  lemma {:induction false} FillValues(sliceOf: map<Name, int>, names: seq<Name>, out: seq<int>)
    requires |names| == |out| && forall i, j | 0 <= i < j < |names| :: names[i] != names[j]
    ensures forall n :: n in Fill(sliceOf, names, out) <==> n in sliceOf || n in names
    ensures forall i | 0 <= i < |names| :: Fill(sliceOf, names, out)[names[i]] == out[i]
    ensures forall n | n in sliceOf && n !in names :: Fill(sliceOf, names, out)[n] == sliceOf[n]
  {
    hide Fill;
    if names != [] {
      var m := |names| - 1;
      var before := names[..m];
      FillValues(sliceOf, before, out[..m]);
      FillStep(sliceOf, names, out);
      forall n ensures n in names <==> n in before || n == names[m] { assert names == before + [names[m]]; }
      forall i | 0 <= i < |names| ensures Fill(sliceOf, names, out)[names[i]] == out[i] {
        if i < m { assert before[i] == names[i] && names[i] != names[m]; }
      }
    } else {
      NothingFilled(sliceOf);
    }
  }

  lemma NothingFilled(sliceOf: map<Name, int>)
    ensures Fill(sliceOf, [], []) == sliceOf
  {}

  lemma FillStep(sliceOf: map<Name, int>, names: seq<Name>, out: seq<int>)
    requires |names| == |out| > 0
    ensures var m := |names| - 1;
            Fill(sliceOf, names, out) == Fill(sliceOf, names[..m], out[..m])[names[m] := out[m]]
  {}

  lemma MembersPositive(c: Config, raw: seq<RawRow>, k: int)
    requires GoodShards(c)
    ensures Positive(Counts(raw, Members(c, Subjects(raw), k)))
  {
    var members := Members(c, Subjects(raw), k);
    SubjectsSpec(raw);
    MembersSpec(c, Subjects(raw), k);
    forall i | 0 <= i < |members| ensures Counts(raw, members)[i] >= 1 {
      assert members[i] in members;
      var r :| r in raw && r.name == members[i];
      OwnersOwn(raw, r);
    }
  }

  lemma SlicedAsUnchanged(c: Config, raw: seq<RawRow>, sliceOf: map<Name, int>, next: map<Name, int>, k: int)
    requires GoodShards(c) && c.numSlices >= 1 && SlicedAs(c, raw, sliceOf, k)
    requires forall n | n in Members(c, Subjects(raw), k) :: n in next && next[n] == sliceOf[n]
    ensures SlicedAs(c, raw, next, k)
  {
    hide Assigned;
    var members := Members(c, Subjects(raw), k);
    forall i | 0 <= i < |members| ensures next[members[i]] == sliceOf[members[i]] { assert members[i] in members; }
    assert SlicesOf(next, members) == SlicesOf(sliceOf, members);
  }

  lemma FillSpec(c: Config, raw: seq<RawRow>, sliceOf: map<Name, int>, k: int, out: seq<int>)
    requires GoodShards(c) && c.numSlices >= 1 && 0 <= k
    requires forall s | 0 <= s < k :: SlicedAs(c, raw, sliceOf, s)
    requires var members := Members(c, Subjects(raw), k);
             Positive(Counts(raw, members)) && |out| == |members|
             && Assigned(members, Scores(c, members), Counts(raw, members), c.numSlices, out)
    ensures forall s | 0 <= s <= k :: SlicedAs(c, raw, Fill(sliceOf, Members(c, Subjects(raw), k), out), s)
  {
    hide Assigned, Fill, Members, Counts, Subjects, Positive;
    var members := Members(c, Subjects(raw), k);
    var next := Fill(sliceOf, members, out);
    SubjectsSpec(raw);
    MembersSpec(c, Subjects(raw), k);
    forall i, j | 0 <= i < j < |members| ensures members[i] != members[j] {
      if members[i] == members[j] { AscendingDistinct(members, i, j); }
    }
    FillValues(sliceOf, members, out);
    assert SlicesOf(next, members) == out;
    forall s | 0 <= s < k ensures SlicedAs(c, raw, next, s) {
      MembersSpec(c, Subjects(raw), s);
      assert SlicedAs(c, raw, sliceOf, s);
      SlicedAsUnchanged(c, raw, sliceOf, next, s);
    }
  }
}
