/** verify/smt.py: the materialised tree, built once and then edited by deletions. */
module SparseTree {
  import opened Hashing
  import opened Ordering
  import opened SparseMerkle

  /** The tuple (hash, left, right, singleton_key) of the source, by its three shapes. */
  datatype Tree =
    | Empty(hash: Digest)
    | Singleton(hash: Digest, key: Key)
    | Inner(hash: Digest, left: Tree, right: Tree)

  /** t stands at depth d for exactly the keys S. An inner node may stand for one key or
      for none, because deletion never collapses what it empties. */
  predicate Rep(h: Hash, t: Tree, S: set<Key>, d: nat)
    requires d <= DEPTH
    decreases t
  {
    match t
    case Empty(hash) => S == {} && hash == Default(h, d)
    case Singleton(hash, key) => S == {key} && hash == SingletonRoot(h, key, d)
    case Inner(hash, left, right) =>
      d < DEPTH && hash == Node(h, left.hash, right.hash)
      && Rep(h, left, Half(S, d, 0), d + 1) && Rep(h, right, Half(S, d, 1), d + 1)
  }

  /** Whatever its shape, a tree for S has the root of the uncollapsed reference tree. */
  lemma {:induction false} RepRoot(h: Hash, t: Tree, S: set<Key>, d: nat)
    requires d <= DEPTH && Cohort(S, d) && Rep(h, t, S, d)
    ensures t.hash == FullRoot(h, S, d)
    decreases t
  {
    hide Half, Cohort;
    match t
    case Empty(_) => FullRootEmpty(h, d);
    case Singleton(_, key) => CollapsedSingleton(h, key, d);
    case Inner(_, left, right) =>
      CohortHalf(S, d, 0);
      CohortHalf(S, d, 1);
      RepRoot(h, left, Half(S, d, 0), d + 1);
      RepRoot(h, right, Half(S, d, 1), d + 1);
  }

  /** `_build` */
  function Build(h: Hash, keys: seq<Key>, d: nat): Tree
    requires d <= DEPTH && Bucket(keys, d)
    decreases DEPTH - d, keys
  {
    hide FilterBit, Half, Cohort;
    if keys == [] then Empty(Default(h, d))
    else if |keys| == 1 then Singleton(SingletonRoot(h, keys[0], d), keys[0])
    else
      assert d < DEPTH by { if d == DEPTH { BucketAtLeaf(keys); } }
      BucketFilter(keys, d, 0);
      BucketFilter(keys, d, 1);
      var left := Build(h, FilterBit(keys, d, 0), d + 1);
      var right := Build(h, FilterBit(keys, d, 1), d + 1);
      Inner(Node(h, left.hash, right.hash), left, right)
  }

  lemma {:induction false} BuildRep(h: Hash, keys: seq<Key>, d: nat)
    requires d <= DEPTH && Bucket(keys, d)
    ensures Rep(h, Build(h, keys, d), ToSet(keys), d)
    decreases DEPTH - d
  {
    hide FilterBit, Half, Cohort;
    if |keys| <= 1 {
      assert keys == [] ==> ToSet(keys) == {};
      assert |keys| == 1 ==> ToSet(keys) == {keys[0]};
    } else {
      if d == DEPTH { BucketAtLeaf(keys); }
      BucketFilter(keys, d, 0);
      BucketFilter(keys, d, 1);
      BuildRep(h, FilterBit(keys, d, 0), d + 1);
      BuildRep(h, FilterBit(keys, d, 1), d + 1);
    }
  }

  /** Inner nodes stay above the leaves, so every turn below a node at depth d is a bit of the key. */
  predicate Fits(t: Tree, d: nat) {
    d <= DEPTH && (t.Inner? ==> d < DEPTH && Fits(t.left, d + 1) && Fits(t.right, d + 1))
  }

  lemma RepFits(h: Hash, t: Tree, S: set<Key>, d: nat)
    requires d <= DEPTH && Rep(h, t, S, d)
    ensures Fits(t, d)
  {}

  /** `_remove_key`; None stands for the ValueError. */
  function RemoveKey(h: Hash, t: Tree, target: Key, d: nat): Option<Tree>
    requires Fits(t, d)
    decreases t
  {
    match t
    case Inner(_, left, right) =>
      if Bit(target, d) == 0 then
        match RemoveKey(h, left, target, d + 1)
        case None => None
        case Some(newLeft) => Some(Inner(Node(h, newLeft.hash, right.hash), newLeft, right))
      else (
        match RemoveKey(h, right, target, d + 1)
        case None => None
        case Some(newRight) => Some(Inner(Node(h, left.hash, newRight.hash), left, newRight)))
    case Singleton(_, key) => if key == target then Some(Empty(Default(h, d))) else None
    case Empty(_) => None
  }

  /** Deleting raises exactly on an absent key, and otherwise stands for the set without it. */
  lemma {:induction false} RemoveKeyRep(h: Hash, t: Tree, S: set<Key>, target: Key, d: nat)
    requires d <= DEPTH && Rep(h, t, S, d) && Fits(t, d)
    ensures RemoveKey(h, t, target, d).Some? <==> target in S
    ensures target in S ==> Rep(h, RemoveKey(h, t, target, d).value, S - {target}, d)
    ensures target in S ==> Fits(RemoveKey(h, t, target, d).value, d)
    decreases t
  {
    match t
    case Empty(_) =>
    case Singleton(_, key) => assert key == target ==> S - {target} == {};
    case Inner(_, left, right) =>
      var b := Bit(target, d);
      var side := if b == 0 then left else right;
      RemoveKeyRep(h, side, Half(S, d, b), target, d + 1);
      assert Half(S - {target}, d, b) == Half(S, d, b) - {target};
      assert Half(S - {target}, d, 1 - b) == Half(S, d, 1 - b);
  }

  // ------------------------------------------------------- SparseMerkleTree

  datatype Result<+T> = Ok(value: T) | ValueError

  function AsKeys(refs: seq<Key>): (keys: seq<Key>)
    ensures Bucket(keys, 0) && Ascending(keys) && ToSet(keys) == ToSet(refs)
  {
    SortedElements(refs);
    assert forall i | 0 <= i < |SortedSet(refs)| :: SortedSet(refs)[i] in refs;
    var keys: seq<Key> := SortedSet(refs);
    AscendingBucket(keys);
    keys
  }

  lemma SortedElements(refs: seq<Key>)
    ensures Ascending(SortedSet(refs))
    ensures forall k: Bytes :: k in SortedSet(refs) <==> k in refs
  {
    SortedSetSpec(refs);
    forall k: Bytes ensures k in SortedSet(refs) <==> k in refs {
      assert k in ToSet(SortedSet(refs)) <==> k in ToSet<Bytes>(refs);
    }
  }

  lemma AscendingBucket(keys: seq<Key>)
    requires Ascending(keys)
    ensures Bucket(keys, 0)
  {
    forall i, j | 0 <= i < j < |keys| ensures keys[i] != keys[j] {
      if keys[i] == keys[j] { AscendingDistinct(keys, i, j); }
    }
  }

  /** An instance of the class: its fields are set once and never reassigned. */
  datatype SparseMerkleTree = SparseMerkleTree(keys: seq<Key>, present: set<Key>, root: Tree) {
    ghost predicate Valid(h: Hash) {
      Ascending(keys) && present == ToSet(keys) && Rep(h, root, present, 0) && Fits(root, 0)
    }
  }

  /** `build_root`, as the digest whose hex form the source returns. */
  function BuildRoot(h: Hash, refs: seq<Key>): Digest {
    SubtreeRoot(h, AsKeys(refs), 0)
  }

  /** `SparseMerkleTree(subject_refs)` */
  function NewTree(h: Hash, refs: seq<Key>): (t: SparseMerkleTree)
    ensures t.present == ToSet(refs)
    ensures t.Valid(h)
  {
    var keys := AsKeys(refs);
    BuildRep(h, keys, 0);
    RepFits(h, Build(h, keys, 0), ToSet(keys), 0);
    SparseMerkleTree(keys, ToSet(keys), Build(h, keys, 0))
  }

  /** The root is a function of the set of refs: order, repetition and history do not matter. */
  lemma RootOfSet(h: Hash, t: SparseMerkleTree, refs: seq<Key>)
    requires t.Valid(h) && t.present == ToSet(refs)
    ensures t.root.hash == BuildRoot(h, refs) == FullRoot(h, ToSet(refs), 0)
  {
    RepRoot(h, t.root, t.present, 0);
    SubtreeRootIsFull(h, AsKeys(refs), 0);
  }

  /** The deletion loop of `remove`, which skips a target it has already removed. */
  function RemoveLoop(h: Hash, root: Tree, targets: seq<Key>, removed: set<Key>): Option<Tree>
    requires Fits(root, 0)
    decreases |targets|
  {
    if targets == [] then Some(root)
    else if targets[0] in removed then RemoveLoop(h, root, targets[1..], removed)
    else match RemoveKey(h, root, targets[0], 0)
      case None => None
      case Some(next) =>
        if Fits(next, 0) then RemoveLoop(h, next, targets[1..], removed + {targets[0]}) else None
  }

  lemma {:induction false} RemoveLoopRep(h: Hash, root: Tree, S: set<Key>, targets: seq<Key>, removed: set<Key>)
    requires Rep(h, root, S, 0) && Fits(root, 0) && S !! removed
    requires forall k | k in targets :: k in S + removed
    ensures RemoveLoop(h, root, targets, removed).Some?
    ensures Rep(h, RemoveLoop(h, root, targets, removed).value, S - ToSet(targets), 0)
    ensures Fits(RemoveLoop(h, root, targets, removed).value, 0)
    decreases |targets|
  {
    if targets == [] {
      assert S - ToSet(targets) == S;
    } else {
      var k := targets[0];
      assert targets == [k] + targets[1..];
      if k in removed {
        RemoveLoopRep(h, root, S, targets[1..], removed);
        assert S - ToSet(targets[1..]) == S - ToSet(targets);
      } else {
        assert k in targets;
        RemoveKeyRep(h, root, S, k, 0);
        assert forall x | x in targets[1..] :: x in targets;
        RemoveLoopRep(h, RemoveKey(h, root, k, 0).value, S - {k}, targets[1..], removed + {k});
        assert (S - {k}) - ToSet(targets[1..]) == S - ToSet(targets);
      }
    }
  }

  function Without(keys: seq<Key>, gone: set<Key>): seq<Key> {
    if keys == [] then []
    else (if keys[0] in gone then [] else [keys[0]]) + Without(keys[1..], gone)
  }

  lemma {:induction false} WithoutSet(keys: seq<Key>, gone: set<Key>)
    requires Ascending(keys)
    ensures ToSet(Without(keys, gone)) == ToSet(keys) - gone && Ascending(Without(keys, gone))
  {
    if keys != [] {
      TailSet(keys);
      var rest := Without(keys[1..], gone);
      WithoutSet(keys[1..], gone);
      assert keys == [keys[0]] + keys[1..];
      forall j | 0 <= j < |rest| ensures Less(keys[0], rest[j]) {
        assert rest[j] in ToSet(rest);
        var i :| 0 <= i < |keys[1..]| && keys[1..][i] == rest[j];
        assert Less(keys[0], keys[i + 1]);
      }
      assert forall k :: k in rest <==> k in ToSet(rest);
    }
  }

  /** `SparseMerkleTree.remove` */
  function Remove(h: Hash, t: SparseMerkleTree, refs: seq<Key>): Result<SparseMerkleTree>
    requires Fits(t.root, 0)
  {
    if exists k :: k in refs && k !in t.present then ValueError
    else match RemoveLoop(h, t.root, refs, {})
      case None => ValueError
      case Some(root) =>
        var keys := Without(t.keys, ToSet(refs));
        Ok(SparseMerkleTree(keys, ToSet(keys), root))
  }

  method RemoveBatch(h: Hash, t: SparseMerkleTree, refs: seq<Key>) returns (r: Result<SparseMerkleTree>)
    requires t.Valid(h)
    ensures r == Remove(h, t, refs)
  {
    for i := 0 to |refs|
      invariant forall j | 0 <= j < i :: refs[j] in t.present
    {
      if refs[i] !in t.present { return ValueError; }
    }
    RemoveLoopRep(h, t.root, t.present, refs, {});

    var root, removed := t.root, {};
    for i := 0 to |refs|
      invariant Fits(root, 0)
      invariant forall k :: k in removed <==> k in refs[..i]
      invariant RemoveLoop(h, root, refs[i..], removed) == RemoveLoop(h, t.root, refs, {})
    {
      RemoveLoopStep(h, root, refs, i, removed);
      if refs[i] !in removed {
        root := RemoveKey(h, root, refs[i], 0).value;
        removed := removed + {refs[i]};
      }
    }
    assert refs[..|refs|] == refs && removed == ToSet(refs);
    var keys := Without(t.keys, removed);
    r := Ok(SparseMerkleTree(keys, ToSet(keys), root));
  }

  lemma RemoveLoopStep(h: Hash, root: Tree, refs: seq<Key>, i: nat, removed: set<Key>)
    requires Fits(root, 0) && i < |refs| && RemoveLoop(h, root, refs[i..], removed).Some?
    ensures refs[i] in removed ==>
              RemoveLoop(h, root, refs[i..], removed) == RemoveLoop(h, root, refs[i + 1..], removed)
    ensures refs[i] !in removed ==>
              (var next := RemoveKey(h, root, refs[i], 0);
               next.Some? && Fits(next.value, 0)
               && RemoveLoop(h, root, refs[i..], removed)
                  == RemoveLoop(h, next.value, refs[i + 1..], removed + {refs[i]}))
  {
    assert refs[i..][0] == refs[i] && refs[i..][1..] == refs[i + 1..];
  }

  /** Incremental deletion refines rebuilding: a batch, repeats allowed, raises exactly when some
      ref is absent, and otherwise leaves a valid tree of the survivors. */
  lemma RemoveRefines(h: Hash, t: SparseMerkleTree, refs: seq<Key>)
    requires t.Valid(h)
    ensures Remove(h, t, refs).Ok? <==> ToSet(refs) <= t.present
    ensures Remove(h, t, refs).Ok? ==>
              Remove(h, t, refs).value.Valid(h)
              && Remove(h, t, refs).value.present == t.present - ToSet(refs)
  {
    if forall k | k in refs :: k in t.present {
      RemoveLoopRep(h, t.root, t.present, refs, {});
      WithoutSet(t.keys, ToSet(refs));
    } else {
      var k :| k in refs && k !in t.present;
      assert k in ToSet(refs);
    }
  }

  /** Any history of accepted removal batches. */
  function RemoveAll(h: Hash, t: SparseMerkleTree, batches: seq<seq<Key>>): Result<SparseMerkleTree>
    requires Fits(t.root, 0)
    decreases |batches|
  {
    if batches == [] then Ok(t)
    else match Remove(h, t, batches[0])
      case ValueError => ValueError
      case Ok(next) => if Fits(next.root, 0) then RemoveAll(h, next, batches[1..]) else ValueError
  }

  /** The deleted-from tree has the root a fresh build over the survivors would have, for every
      hash function and every history that did not raise. */
  lemma {:induction false} HistoryRoot(h: Hash, t: SparseMerkleTree, batches: seq<seq<Key>>, survivors: seq<Key>)
    requires t.Valid(h) && RemoveAll(h, t, batches).Ok?
    requires ToSet(survivors) == RemoveAll(h, t, batches).value.present
    ensures RemoveAll(h, t, batches).value.Valid(h)
    ensures RemoveAll(h, t, batches).value.root.hash == BuildRoot(h, survivors)
    decreases |batches|
  {
    if batches == [] {
      RootOfSet(h, t, survivors);
    } else {
      RemoveRefines(h, t, batches[0]);
      HistoryRoot(h, Remove(h, t, batches[0]).value, batches[1..], survivors);
    }
  }
}
