/** verify/merkle.py: the sorted Merkle tree with section 2.1 of RFC 6962 hashing. */
module SortedMerkle {
  import opened Hashing

  // ------------------------------------------------------------- tree hash

  function BitLength(n: nat): nat {
    if n == 0 then 0 else 1 + BitLength(n / 2)
  }

  function Shl1(k: nat): (p: nat)
    ensures p >= 1
  {
    if k == 0 then 1 else 2 * Shl1(k - 1)
  }

  lemma {:induction false} BitLengthBounds(n: nat)
    requires n >= 1
    ensures BitLength(n) >= 1 && Shl1(BitLength(n) - 1) <= n < 2 * Shl1(BitLength(n) - 1)
  {
    if n > 1 {
      BitLengthBounds(n / 2);
      assert BitLength(n) - 1 == BitLength(n / 2);
    }
  }

  /** `_split`: 1 << ((n - 1).bit_length() - 1) */
  function Split(n: nat): (k: nat)
    requires n >= 2
    ensures 1 <= k < n <= 2 * k
  {
    BitLengthBounds(n - 1);
    Shl1(BitLength(n - 1) - 1)
  }

  /** The split point is a power of two, and the largest one below n. */
  lemma {:induction false} SplitIsLargest(n: nat, j: nat)
    requires n >= 2
    ensures exists k :: Split(n) == Shl1(k)
    ensures Shl1(j) < n ==> Shl1(j) <= Split(n)
  {
    var k := BitLength(n - 1) - 1;
    BitLengthBounds(n - 1);
    assert Split(n) == Shl1(k);
    if j > k { Shl1Monotone(k + 1, j); } else { Shl1Monotone(j, k); }
  }

  lemma {:induction false} Shl1Monotone(a: nat, b: nat)
    requires a <= b
    ensures Shl1(a) <= Shl1(b)
  {
    if a < b { Shl1Monotone(a, b - 1); }
  }

  /** Pairing neighbours halves the split point. */
  lemma SplitHalves(n: nat)
    requires n >= 3
    ensures Split(n) == 2 * Split((n + 1) / 2)
  {
    assert (n + 1) / 2 - 1 == (n - 1) / 2;
    assert BitLength(n - 1) == 1 + BitLength((n - 1) / 2);
    BitLengthBounds((n - 1) / 2);
  }

  /** `_mth` */
  function Mth(h: Hash, leaves: seq<Bytes>): Digest
    decreases |leaves|
  {
    if |leaves| == 0 then h([])
    else if |leaves| == 1 then Leaf(h, leaves[0])
    else var k := Split(|leaves|); Node(h, Mth(h, leaves[..k]), Mth(h, leaves[k..]))
  }

  /** `_audit_path`; `index` is one of the leaves, as in every call. */
  function AuditPath(h: Hash, index: nat, leaves: seq<Bytes>): seq<Digest>
    requires index < |leaves| || |leaves| == 0
    decreases |leaves|
  {
    if |leaves| <= 1 then []
    else
      var k := Split(|leaves|);
      if index < k then AuditPath(h, index, leaves[..k]) + [Mth(h, leaves[k..])]
      else AuditPath(h, index - k, leaves[k..]) + [Mth(h, leaves[..k])]
  }

  // ------------------------------------------------- the same, by levels

  /** The tree hash over nodes that are hashed already. */
  function NodesRoot(h: Hash, nodes: seq<Digest>): Digest
    requires |nodes| >= 1
    decreases |nodes|
  {
    if |nodes| == 1 then nodes[0]
    else var k := Split(|nodes|); Node(h, NodesRoot(h, nodes[..k]), NodesRoot(h, nodes[k..]))
  }

  function NodesPath(h: Hash, index: nat, nodes: seq<Digest>): seq<Digest>
    requires index < |nodes|
    decreases |nodes|
  {
    if |nodes| == 1 then []
    else
      var k := Split(|nodes|);
      if index < k then NodesPath(h, index, nodes[..k]) + [NodesRoot(h, nodes[k..])]
      else NodesPath(h, index - k, nodes[k..]) + [NodesRoot(h, nodes[..k])]
  }

  function LeafHashes(h: Hash, leaves: seq<Bytes>): (nodes: seq<Digest>)
    ensures |nodes| == |leaves|
    ensures forall i | 0 <= i < |leaves| :: nodes[i] == Leaf(h, leaves[i])
  {
    seq(|leaves|, i requires 0 <= i < |leaves| => Leaf(h, leaves[i]))
  }

  lemma {:induction false} MthIsNodesRoot(h: Hash, leaves: seq<Bytes>)
    requires |leaves| >= 1
    ensures Mth(h, leaves) == NodesRoot(h, LeafHashes(h, leaves))
    decreases |leaves|
  {
    if |leaves| > 1 {
      var k := Split(|leaves|);
      var nodes := LeafHashes(h, leaves);
      MthIsNodesRoot(h, leaves[..k]);
      MthIsNodesRoot(h, leaves[k..]);
      assert LeafHashes(h, leaves[..k]) == nodes[..k] && LeafHashes(h, leaves[k..]) == nodes[k..];
    }
  }

  lemma {:induction false} AuditPathIsNodesPath(h: Hash, index: nat, leaves: seq<Bytes>)
    requires index < |leaves|
    ensures AuditPath(h, index, leaves) == NodesPath(h, index, LeafHashes(h, leaves))
    decreases |leaves|
  {
    if |leaves| > 1 {
      var k := Split(|leaves|);
      var nodes := LeafHashes(h, leaves);
      assert LeafHashes(h, leaves[..k]) == nodes[..k] && LeafHashes(h, leaves[k..]) == nodes[k..];
      MthIsNodesRoot(h, leaves[..k]);
      MthIsNodesRoot(h, leaves[k..]);
      if index < k { AuditPathIsNodesPath(h, index, leaves[..k]); }
      else { AuditPathIsNodesPath(h, index - k, leaves[k..]); }
    }
  }

  /** One level up: neighbours are hashed together and a lone last node is promoted. */
  function Pair(h: Hash, nodes: seq<Digest>): (up: seq<Digest>)
    ensures |up| == (|nodes| + 1) / 2
    ensures forall i | 0 <= i < |up| ::
              up[i] == if 2 * i + 1 < |nodes| then Node(h, nodes[2 * i], nodes[2 * i + 1]) else nodes[2 * i]
  {
    seq((|nodes| + 1) / 2, i requires 0 <= i < (|nodes| + 1) / 2 =>
      if 2 * i + 1 < |nodes| then Node(h, nodes[2 * i], nodes[2 * i + 1]) else nodes[2 * i])
  }

  lemma PairSlices(h: Hash, nodes: seq<Digest>, m: nat)
    requires 2 * m <= |nodes|
    ensures Pair(h, nodes)[..m] == Pair(h, nodes[..2 * m])
    ensures Pair(h, nodes)[m..] == Pair(h, nodes[2 * m..])
  {
    hide Pair;
    var left, right, up := Pair(h, nodes[..2 * m]), Pair(h, nodes[2 * m..]), Pair(h, nodes);
    forall i | 0 <= i < m ensures up[i] == left[i] { PairEntry(h, nodes, nodes[..2 * m], 0, i); }
    forall i | 0 <= i < |right| ensures up[m + i] == right[i] { PairEntry(h, nodes, nodes[2 * m..], m, i); }
    assert up[..m] == left;
    assert up[m..] == right;
  }

  /** Pairing looks at two neighbours only. */
  lemma PairEntry(h: Hash, nodes: seq<Digest>, part: seq<Digest>, m: nat, i: nat)
    requires 2 * m + |part| <= |nodes| && part == nodes[2 * m..2 * m + |part|] && i < |Pair(h, part)|
    requires 2 * m + |part| == |nodes| || |part| % 2 == 0
    ensures m + i < |Pair(h, nodes)| && Pair(h, nodes)[m + i] == Pair(h, part)[i]
  {
    hide Pair;
    var k := 2 * (m + i);
    assert part[2 * i] == nodes[k];
    if 2 * i + 1 < |part| { assert part[2 * i + 1] == nodes[k + 1]; }
  }

  /** The level above splits where this one does. */
  lemma PairSplits(h: Hash, nodes: seq<Digest>) returns (m: nat)
    requires |nodes| >= 3
    ensures Split(|nodes|) == 2 * m && Split(|Pair(h, nodes)|) == m
    ensures Pair(h, nodes)[..m] == Pair(h, nodes[..2 * m])
    ensures Pair(h, nodes)[m..] == Pair(h, nodes[2 * m..])
  {
    SplitHalves(|nodes|);
    m := Split((|nodes| + 1) / 2);
    PairSlices(h, nodes, m);
  }

  /** The top-down split tree and bottom-up pairing compute one root. */
  lemma {:induction false} PairRoot(h: Hash, nodes: seq<Digest>)
    requires |nodes| >= 1
    ensures NodesRoot(h, Pair(h, nodes)) == NodesRoot(h, nodes)
    decreases |nodes|
  {
    if |nodes| == 2 {
      assert Split(2) == 1;
      assert Pair(h, nodes) == [Node(h, nodes[0], nodes[1])];
    } else if |nodes| >= 3 {
      var m := PairSplits(h, nodes);
      PairRoot(h, nodes[..2 * m]);
      PairRoot(h, nodes[2 * m..]);
    } else {
      assert Pair(h, nodes) == nodes;
    }
  }

  /** The sibling consumed at this level, if there is one. */
  function LevelSibling(index: nat, nodes: seq<Digest>): seq<Digest>
    requires index < |nodes|
  {
    if index % 2 == 1 then [nodes[index - 1]]
    else if index + 1 < |nodes| then [nodes[index + 1]]
    else []
  }

  lemma NodesPathLeft(h: Hash, index: nat, nodes: seq<Digest>, k: nat)
    requires |nodes| >= 2 && k == Split(|nodes|) && index < k
    ensures NodesPath(h, index, nodes) == NodesPath(h, index, nodes[..k]) + [NodesRoot(h, nodes[k..])]
  {}

  lemma NodesPathRight(h: Hash, index: nat, nodes: seq<Digest>, k: nat)
    requires |nodes| >= 2 && k == Split(|nodes|) && k <= index < |nodes|
    ensures NodesPath(h, index, nodes) == NodesPath(h, index - k, nodes[k..]) + [NodesRoot(h, nodes[..k])]
  {}

  /** One audit path is this level's sibling followed by the path one level up. */
  lemma {:induction false} PairPath(h: Hash, index: nat, nodes: seq<Digest>)
    requires index < |nodes| && |nodes| >= 2
    ensures NodesPath(h, index, nodes) == LevelSibling(index, nodes) + NodesPath(h, index / 2, Pair(h, nodes))
    decreases |nodes|
  {
    hide NodesPath, NodesRoot, Split, Pair, LevelSibling;
    if |nodes| == 2 {
      PairPathOfTwo(h, index, nodes);
    } else {
      var m := PairSplits(h, nodes);
      if index < 2 * m {
        PairPath(h, index, nodes[..2 * m]);
        PairPathLeft(h, index, nodes, m);
      } else {
        if |nodes[2 * m..]| >= 2 { PairPath(h, index - 2 * m, nodes[2 * m..]); }
        else { PathOfOne(h, nodes[2 * m..]); }
        PairPathRight(h, index - 2 * m, nodes, m);
      }
    }
  }

  lemma LeftPaths(h: Hash, index: nat, nodes: seq<Digest>, m: nat)
    requires |nodes| >= 3 && Split(|nodes|) == 2 * m && Split(|Pair(h, nodes)|) == m && index < 2 * m
    ensures NodesPath(h, index, nodes)
         == NodesPath(h, index, nodes[..2 * m]) + [NodesRoot(h, nodes[2 * m..])]
    ensures NodesPath(h, index / 2, Pair(h, nodes))
         == NodesPath(h, index / 2, Pair(h, nodes[..2 * m])) + [NodesRoot(h, nodes[2 * m..])]
    ensures LevelSibling(index, nodes[..2 * m]) == LevelSibling(index, nodes)
  {
    hide NodesPath, NodesRoot, Split, Pair;
    PairSlices(h, nodes, m);
    PairRoot(h, nodes[2 * m..]);
    NodesPathLeft(h, index, nodes, 2 * m);
    NodesPathLeft(h, index / 2, Pair(h, nodes), m);
  }

  lemma PairPathLeft(h: Hash, index: nat, nodes: seq<Digest>, m: nat)
    requires |nodes| >= 3 && Split(|nodes|) == 2 * m && Split(|Pair(h, nodes)|) == m && index < 2 * m
    requires NodesPath(h, index, nodes[..2 * m])
          == LevelSibling(index, nodes[..2 * m]) + NodesPath(h, index / 2, Pair(h, nodes[..2 * m]))
    ensures NodesPath(h, index, nodes) == LevelSibling(index, nodes) + NodesPath(h, index / 2, Pair(h, nodes))
  {
    hide NodesPath, NodesRoot, Split, LevelSibling, Pair;
    LeftPaths(h, index, nodes, m);
    Associative(LevelSibling(index, nodes), NodesPath(h, index / 2, Pair(h, nodes[..2 * m])),
                [NodesRoot(h, nodes[2 * m..])]);
  }

  /** The right subtree starts at an even index, so siblings on its levels are siblings here. */
  lemma SiblingInRight(j: nat, nodes: seq<Digest>, m: nat)
    requires 2 * m + j < |nodes|
    ensures LevelSibling(j, nodes[2 * m..]) == LevelSibling(2 * m + j, nodes)
    ensures (2 * m + j) / 2 == m + j / 2
  {}

  lemma RightPaths(h: Hash, j: nat, nodes: seq<Digest>, m: nat)
    requires |nodes| >= 3 && Split(|nodes|) == 2 * m && Split(|Pair(h, nodes)|) == m
    requires 2 * m + j < |nodes|
    ensures NodesPath(h, 2 * m + j, nodes)
         == NodesPath(h, j, nodes[2 * m..]) + [NodesRoot(h, nodes[..2 * m])]
    ensures NodesPath(h, m + j / 2, Pair(h, nodes))
         == NodesPath(h, j / 2, Pair(h, nodes[2 * m..])) + [NodesRoot(h, nodes[..2 * m])]
  {
    hide NodesPath, NodesRoot, Split;
    PairSlices(h, nodes, m);
    PairRoot(h, nodes[..2 * m]);
    NodesPathRight(h, 2 * m + j, nodes, 2 * m);
    NodesPathRight(h, m + j / 2, Pair(h, nodes), m);
  }

  lemma PairPathRight(h: Hash, j: nat, nodes: seq<Digest>, m: nat)
    requires |nodes| >= 3 && Split(|nodes|) == 2 * m && Split(|Pair(h, nodes)|) == m
    requires 2 * m + j < |nodes|
    requires NodesPath(h, j, nodes[2 * m..])
          == LevelSibling(j, nodes[2 * m..]) + NodesPath(h, j / 2, Pair(h, nodes[2 * m..]))
    ensures NodesPath(h, 2 * m + j, nodes)
         == LevelSibling(2 * m + j, nodes) + NodesPath(h, (2 * m + j) / 2, Pair(h, nodes))
  {
    hide NodesPath, NodesRoot, Split, LevelSibling, Pair;
    SiblingInRight(j, nodes, m);
    RightPaths(h, j, nodes, m);
    Associative(LevelSibling(j, nodes[2 * m..]), NodesPath(h, j / 2, Pair(h, nodes[2 * m..])),
                [NodesRoot(h, nodes[..2 * m])]);
  }

  lemma Associative(a: seq<Digest>, b: seq<Digest>, c: seq<Digest>)
    ensures (a + b) + c == a + (b + c)
  {}

  lemma PairPathOfTwo(h: Hash, index: nat, nodes: seq<Digest>)
    requires |nodes| == 2 && index < 2
    ensures NodesPath(h, index, nodes) == LevelSibling(index, nodes) + NodesPath(h, index / 2, Pair(h, nodes))
  {
    var k := Split(|nodes|);
    assert k == 1;
    assert NodesPath(h, index / 2, Pair(h, nodes)) == [];
    if index == 0 { NodesPathLeft(h, 0, nodes, k); } else { NodesPathRight(h, 1, nodes, k); }
  }

  lemma PathOfOne(h: Hash, nodes: seq<Digest>)
    requires |nodes| == 1
    ensures NodesPath(h, 0, nodes) == [] && Pair(h, nodes) == nodes && LevelSibling(0, nodes) == []
  {}

  // -------------------------------------------------------- reconstruction

  /** The check of section 2.1.3.2 of RFC 9162, one tree level per step: fn is the position on
      the level and sn the last position. A lone last node is promoted without a sibling. */
  function Climb(h: Hash, node: Digest, fn: nat, sn: nat, path: seq<Bytes>): Option<Digest>
    requires fn <= sn
    decreases sn
  {
    if sn == 0 then (if path == [] then Some(node) else None)
    else if fn % 2 == 0 && fn == sn then Climb(h, node, fn / 2, sn / 2, path)
    else if path == [] then None
    else if fn % 2 == 1 then Climb(h, Node(h, path[0], node), fn / 2, sn / 2, path[1..])
    else Climb(h, Node(h, node, path[0]), fn / 2, sn / 2, path[1..])
  }

  function Reconstruct(h: Hash, leaf: Bytes, index: int, treeSize: int, path: seq<Bytes>): Option<Digest> {
    if index >= treeSize || index < 0 then None
    else Climb(h, Leaf(h, leaf), index, treeSize - 1, path)
  }

  /** `reconstruct_root`: the source consumes a promoted node's sibling first and shifts the
      skipped levels afterwards; both orders climb to the same hash. */
  method ReconstructRoot(h: Hash, leaf: Bytes, index: int, treeSize: int, path: seq<Bytes>)
    returns (r: Option<Digest>)
    ensures r == Reconstruct(h, leaf, index, treeSize, path)
  {
    if index >= treeSize || index < 0 { return None; }
    var node: Digest := Leaf(h, leaf);
    var fn, sn := index, treeSize - 1;
    for i := 0 to |path|
      invariant 0 <= fn <= sn
      invariant Climb(h, node, fn, sn, path[i..]) == Climb(h, Leaf(h, leaf), index, treeSize - 1, path)
    {
      var sibling := path[i];
      assert path[i..][0] == sibling && path[i..][1..] == path[i + 1..];
      if sn == 0 { return None; }
      if fn % 2 == 1 || fn == sn {
        ghost var before := node;
        node := Node(h, sibling, node);
        while fn != 0 && fn % 2 == 0
          invariant 0 <= fn <= sn && sn != 0 && (fn == sn || fn % 2 == 1)
          invariant Climb(h, before, fn, sn, path[i..]) == Climb(h, Leaf(h, leaf), index, treeSize - 1, path)
          decreases fn
        {
          fn, sn := fn / 2, sn / 2;
        }
      } else {
        node := Node(h, node, sibling);
      }
      fn, sn := fn / 2, sn / 2;
    }
    assert path[|path|..] == [];
    ClimbNeedsPath(h, node, fn, sn);
    r := if sn == 0 then Some(node) else None;
  }

  lemma {:induction false} ClimbNeedsPath(h: Hash, node: Digest, fn: nat, sn: nat)
    requires fn <= sn
    ensures Climb(h, node, fn, sn, []) == if sn == 0 then Some(node) else None
    decreases sn
  {
    if sn != 0 && fn % 2 == 0 && fn == sn { ClimbNeedsPath(h, node, fn / 2, sn / 2); }
  }

  /** How many siblings the path of position fn among sn + 1 holds: one a level, none where promoted. */
  function PathLength(fn: nat, sn: nat): nat
    requires fn <= sn
    decreases sn
  {
    if sn == 0 then 0 else PathLength(fn / 2, sn / 2) + (if fn % 2 == 0 && fn == sn then 0 else 1)
  }

  lemma {:induction false} ClimbShape(h: Hash, node: Digest, fn: nat, sn: nat, path: seq<Bytes>)
    requires fn <= sn
    ensures Climb(h, node, fn, sn, path).Some? <==> |path| == PathLength(fn, sn)
    decreases sn
  {
    if sn != 0 {
      if fn % 2 == 0 && fn == sn {
        ClimbShape(h, node, fn / 2, sn / 2, path);
      } else if path != [] {
        var next := if fn % 2 == 1 then Node(h, path[0], node) else Node(h, node, path[0]);
        ClimbShape(h, next, fn / 2, sn / 2, path[1..]);
      }
    }
  }

  /** Whether the loop gives up depends on index, size and path length only, not on any hash. */
  lemma ReconstructShape(h: Hash, leaf: Bytes, index: int, treeSize: int, path: seq<Bytes>)
    ensures Reconstruct(h, leaf, index, treeSize, path).Some?
       <==> 0 <= index < treeSize && |path| == PathLength(index, treeSize - 1)
  {
    if 0 <= index < treeSize { ClimbShape(h, Leaf(h, leaf), index, treeSize - 1, path); }
  }

  /** On the audit path the climb reaches the root. */
  lemma {:induction false} ClimbComplete(h: Hash, index: nat, nodes: seq<Digest>)
    requires index < |nodes|
    ensures Climb(h, nodes[index], index, |nodes| - 1, NodesPath(h, index, nodes)) == Some(NodesRoot(h, nodes))
    decreases |nodes|
  {
    hide NodesRoot, NodesPath, Climb, LevelSibling;
    if |nodes| == 1 {
      ClimbOfOne(h, nodes[index], nodes, []);
      PathOfOne(h, nodes);
    } else {
      PairPath(h, index, nodes);
      PairRoot(h, nodes);
      ClimbComplete(h, index / 2, Pair(h, nodes));
      ClimbLevel(h, nodes[index], index, nodes, NodesPath(h, index / 2, Pair(h, nodes)));
    }
  }

  lemma ClimbLevel(h: Hash, node: Digest, index: nat, nodes: seq<Digest>, rest: seq<Bytes>)
    requires index < |nodes| && |nodes| >= 2 && node == nodes[index]
    ensures Climb(h, node, index, |nodes| - 1, LevelSibling(index, nodes) + rest)
         == Climb(h, Pair(h, nodes)[index / 2], index / 2, |Pair(h, nodes)| - 1, rest)
  {
    var path := LevelSibling(index, nodes) + rest;
    assert |LevelSibling(index, nodes)| == 1 ==> path[1..] == rest;
    assert LevelSibling(index, nodes) == [] ==> path == rest;
  }

  /** What is hashed on one level when the node has a sibling there. */
  function LevelPreimage(index: nat, node: Digest, sibling: Bytes): Bytes {
    if index % 2 == 1 then NodePreimage(sibling, node) else NodePreimage(node, sibling)
  }

  lemma LevelPreimageInjective(index: nat, a: Digest, b: Digest, x: Bytes, y: Bytes)
    requires LevelPreimage(index, a, x) == LevelPreimage(index, b, y)
    ensures a == b && x == y
  {
    if index % 2 == 1 { NodePreimageInjective(x, a, y, b); } else { NodePreimageInjective(a, x, b, y); }
  }

  predicate Promoted(index: nat, size: nat) {
    index % 2 == 0 && index + 1 == size
  }

  lemma PairLevel(h: Hash, index: nat, nodes: seq<Digest>)
    requires index < |nodes| && |nodes| >= 2
    ensures index / 2 < |Pair(h, nodes)| < |nodes|
    ensures Promoted(index, |nodes|) ==> LevelSibling(index, nodes) == [] && Pair(h, nodes)[index / 2] == nodes[index]
    ensures !Promoted(index, |nodes|) ==>
              |LevelSibling(index, nodes)| == 1
              && Pair(h, nodes)[index / 2] == h(LevelPreimage(index, nodes[index], LevelSibling(index, nodes)[0]))
  {}

  lemma ClimbUp(h: Hash, node: Digest, index: nat, size: nat, path: seq<Bytes>)
    requires index < size && size >= 2 && Climb(h, node, index, size - 1, path).Some?
    ensures Promoted(index, size) ==>
              Climb(h, node, index, size - 1, path) == Climb(h, node, index / 2, (size + 1) / 2 - 1, path)
    ensures !Promoted(index, size) ==>
              path != [] && Climb(h, node, index, size - 1, path)
                         == Climb(h, h(LevelPreimage(index, node, path[0])), index / 2, (size + 1) / 2 - 1, path[1..])
  {
    assert (size - 1) / 2 == (size + 1) / 2 - 1;
  }

  lemma ClimbOfOne(h: Hash, node: Digest, nodes: seq<Digest>, path: seq<Bytes>)
    requires |nodes| == 1
    ensures Climb(h, node, 0, 0, path) == Some(NodesRoot(h, nodes))
       <==> node == nodes[0] && path == NodesPath(h, 0, nodes)
  {}

  /** One level of the audit: what the climb claims, and what the tree holds, one level up. */
  lemma AuditStep(h: Hash, node: Digest, index: nat, nodes: seq<Digest>, path: seq<Bytes>)
    requires index < |nodes| && |nodes| >= 2
    requires Climb(h, node, index, |nodes| - 1, path) == Some(NodesRoot(h, nodes))
    ensures index / 2 < |Pair(h, nodes)| < |nodes|
    ensures Promoted(index, |nodes|) ==>
              Climb(h, node, index / 2, |Pair(h, nodes)| - 1, path) == Some(NodesRoot(h, Pair(h, nodes)))
              && nodes[index] == Pair(h, nodes)[index / 2]
              && NodesPath(h, index, nodes) == NodesPath(h, index / 2, Pair(h, nodes))
    ensures !Promoted(index, |nodes|) ==>
              path != [] && |LevelSibling(index, nodes)| == 1
              && Climb(h, h(LevelPreimage(index, node, path[0])), index / 2, |Pair(h, nodes)| - 1, path[1..])
                 == Some(NodesRoot(h, Pair(h, nodes)))
              && Pair(h, nodes)[index / 2] == h(LevelPreimage(index, nodes[index], LevelSibling(index, nodes)[0]))
              && NodesPath(h, index, nodes) == LevelSibling(index, nodes) + NodesPath(h, index / 2, Pair(h, nodes))
  {
    hide NodesRoot, NodesPath, Climb, Pair, LevelSibling, LevelPreimage, Promoted;
    PairRoot(h, nodes);
    PairPath(h, index, nodes);
    PairLevel(h, index, nodes);
    ClimbUp(h, node, index, |nodes|, path);
  }

  lemma AuditAgrees(h: Hash, node: Digest, index: nat, nodes: seq<Digest>, path: seq<Bytes>)
    requires index < |nodes| && path != [] && |LevelSibling(index, nodes)| == 1
    requires LevelPreimage(index, node, path[0]) == LevelPreimage(index, nodes[index], LevelSibling(index, nodes)[0])
    ensures node == nodes[index] && path == LevelSibling(index, nodes) + path[1..]
  {
    LevelPreimageInjective(index, node, nodes[index], path[0], LevelSibling(index, nodes)[0]);
  }

  /** Compares, level by level from the root down, what the climb hashed with what the tree
      hashed, and returns the topmost pair of preimages that differ. */
  function PathAudit(h: Hash, node: Digest, index: nat, nodes: seq<Digest>, path: seq<Bytes>): Option<(Bytes, Bytes)>
    requires index < |nodes|
    decreases |nodes|
  {
    if |nodes| == 1 then None
    else if Promoted(index, |nodes|) then PathAudit(h, node, index / 2, Pair(h, nodes), path)
    else if path == [] then None
    else
      var claimed := LevelPreimage(index, node, path[0]);
      var above := PathAudit(h, h(claimed), index / 2, Pair(h, nodes), path[1..]);
      var actual := LevelPreimage(index, nodes[index], LevelSibling(index, nodes)[0]);
      if above.Some? then above
      else if claimed != actual then Some((claimed, actual))
      else None
  }

  /** Nothing but the true node and its audit path climbs to the root, or the audit finds a
      collision. Path entries are as the verifier takes them: byte strings of any length. */
  lemma {:induction false} ClimbSound(h: Hash, node: Digest, index: nat, nodes: seq<Digest>, path: seq<Bytes>)
    requires index < |nodes|
    requires Climb(h, node, index, |nodes| - 1, path) == Some(NodesRoot(h, nodes))
    ensures var r := PathAudit(h, node, index, nodes, path);
            if r.Some? then Collides(h, r.value) else node == nodes[index] && path == NodesPath(h, index, nodes)
    decreases |nodes|
  {
    hide NodesRoot, NodesPath, Climb, Pair, LevelSibling, LevelPreimage, Promoted;
    if |nodes| == 1 {
      ClimbOfOne(h, node, nodes, path);
    } else {
      AuditStep(h, node, index, nodes, path);
      if Promoted(index, |nodes|) {
        ClimbSound(h, node, index / 2, Pair(h, nodes), path);
      } else {
        var claimed := LevelPreimage(index, node, path[0]);
        ClimbSound(h, h(claimed), index / 2, Pair(h, nodes), path[1..]);
        if PathAudit(h, node, index, nodes, path).None? { AuditAgrees(h, node, index, nodes, path); }
      }
    }
  }

  // ---------------------------------------------------------- main results

  /** The loop rebuilds the recursive tree hash from any leaf and its recursive audit path. */
  lemma ReconstructComplete(h: Hash, leaves: seq<Bytes>, index: nat)
    requires index < |leaves|
    ensures Reconstruct(h, leaves[index], index, |leaves|, AuditPath(h, index, leaves)) == Some(Mth(h, leaves))
  {
    hide Mth, AuditPath, NodesRoot, NodesPath, Climb;
    MthIsNodesRoot(h, leaves);
    AuditPathIsNodesPath(h, index, leaves);
    ClimbComplete(h, index, LeafHashes(h, leaves));
  }

  function InclusionAudit(h: Hash, leaf: Bytes, index: nat, path: seq<Bytes>, leaves: seq<Bytes>)
    : Option<(Bytes, Bytes)>
    requires index < |leaves|
  {
    var audit := PathAudit(h, Leaf(h, leaf), index, LeafHashes(h, leaves), path);
    if audit.Some? then audit
    else if leaf != leaves[index] then Some((LeafPreimage(leaf), LeafPreimage(leaves[index])))
    else None
  }

  /** The converse: a leaf and path that the loop takes to the tree hash are the leaf at that index
      and its audit path, or the audit returns a collision. */
  lemma ReconstructSound(h: Hash, leaf: Bytes, index: int, path: seq<Bytes>, leaves: seq<Bytes>)
    requires Reconstruct(h, leaf, index, |leaves|, path) == Some(Mth(h, leaves))
    ensures 0 <= index < |leaves|
    ensures var r := InclusionAudit(h, leaf, index, path, leaves);
            if r.Some? then Collides(h, r.value) else leaf == leaves[index] && path == AuditPath(h, index, leaves)
  {
    hide Mth, AuditPath, NodesRoot, NodesPath, Climb, PathAudit;
    MthIsNodesRoot(h, leaves);
    AuditPathIsNodesPath(h, index, leaves);
    ClimbSound(h, Leaf(h, leaf), index, LeafHashes(h, leaves), path);
    if leaf != leaves[index] && LeafPreimage(leaf) == LeafPreimage(leaves[index]) {
      LeafPreimageInjective(leaf, leaves[index]);
    }
  }
}
