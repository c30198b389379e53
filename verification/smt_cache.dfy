/** verify/smt.py: the per-shard cache of built trees and its fingerprint check. */
module TreeCache {
  import opened Hashing
  import opened Ordering
  import opened SparseMerkle
  import opened SparseTree
  import opened SparseProof
  import opened SparseTheorems

  /** `b"".join(keys)` */
  function Join(keys: seq<Key>): Bytes {
    if keys == [] then [] else keys[0] + Join(keys[1..])
  }

  /** Fixed-width keys make concatenation unambiguous. */
  lemma {:induction false} JoinInjective(a: seq<Key>, b: seq<Key>)
    requires Join(a) == Join(b)
    ensures a == b
  {
    if a != [] && b != [] {
      assert Join(a)[..32] == a[0] && Join(b)[..32] == b[0];
      assert Join(a)[32..] == Join(a[1..]) && Join(b)[32..] == Join(b[1..]);
      JoinInjective(a[1..], b[1..]);
      assert a == [a[0]] + a[1..] && b == [b[0]] + b[1..];
    }
  }

  /** Key i is bytes 32 i to 32 i + 31. */
  lemma {:induction false} JoinAt(keys: seq<Key>, i: nat)
    requires i < |keys|
    ensures |Join(keys)| == 32 * |keys| && Join(keys)[32 * i..32 * i + 32] == keys[i]
  {
    JoinSize(keys);
    if i > 0 {
      JoinAt(keys[1..], i - 1);
      assert Join(keys)[32..] == Join(keys[1..]);
      assert Join(keys)[32 * i..32 * i + 32] == Join(keys)[32..][32 * (i - 1)..32 * (i - 1) + 32];
    }
  }

  lemma {:induction false} JoinSize(keys: seq<Key>)
    ensures |Join(keys)| == 32 * |keys|
  {
    if keys != [] { JoinSize(keys[1..]); }
  }

  /** `fingerprint_of` over refs, and the `fingerprint` property over a tree's sorted keys. */
  function FingerprintOf(h: Hash, refs: seq<Key>): Digest { h(Join(AsKeys(refs))) }
  function Fingerprint(h: Hash, t: SparseMerkleTree): Digest { h(Join(t.keys)) }

  type Entries = map<int, SparseMerkleTree>

  ghost predicate ValidEntries(h: Hash, entries: Entries) {
    forall s | s in entries :: entries[s].Valid(h)
  }

  /** `tree_for_shard` */
  function TreeFor(h: Hash, entries: Entries, shard: int, refs: seq<Key>): SparseMerkleTree {
    if shard in entries && Fingerprint(h, entries[shard]) == FingerprintOf(h, refs) then entries[shard]
    else NewTree(h, refs)
  }

  /** A cached tree is handed out for every list of the refs it stands for, in any order and with any
      repetition, whatever the hash: nothing is rebuilt while the shard file holds the same subjects. */
  lemma SameRefsHit(h: Hash, entries: Entries, shard: int, refs: seq<Key>)
    requires ValidEntries(h, entries) && shard in entries && entries[shard].present == ToSet(refs)
    ensures TreeFor(h, entries, shard, refs) == entries[shard]
  {
    var keys: seq<Key>, sorted: seq<Key> := entries[shard].keys, AsKeys(refs);
    forall k: Bytes ensures k in keys <==> k in sorted {
      if i :| 0 <= i < |keys| && keys[i] == k { assert keys[i] in ToSet<Key>(keys); }
      if i :| 0 <= i < |sorted| && sorted[i] == k { assert sorted[i] in ToSet<Key>(sorted); }
    }
    assert ToSet<Bytes>(keys) == ToSet<Bytes>(sorted);
    AscendingUnique(keys, sorted);
  }

  /** The preimages compared when a cached tree is accepted for the refs on disk. */
  function FingerprintPair(entries: Entries, shard: int, refs: seq<Key>): (Bytes, Bytes) {
    if shard in entries then (Join(entries[shard].keys), Join(AsKeys(refs))) else ([], [])
  }

  /** Whatever was cached and whoever changed the shard file since, the tree handed out is valid
      and stands for exactly the refs passed in, or the fingerprint collides on the two joined
      key lists. */
  lemma TreeForAgrees(h: Hash, entries: Entries, shard: int, refs: seq<Key>)
    requires ValidEntries(h, entries)
    ensures TreeFor(h, entries, shard, refs).Valid(h)
    ensures TreeFor(h, entries, shard, refs).present == ToSet(refs)
         || Collides(h, FingerprintPair(entries, shard, refs))
  {
    if shard in entries && Fingerprint(h, entries[shard]) == FingerprintOf(h, refs) {
      if Join(entries[shard].keys) == Join(AsKeys(refs)) {
        JoinInjective(entries[shard].keys, AsKeys(refs));
      }
    }
  }

  /** Hence its root is the root of a fresh build, and its proofs are those of a fresh build. */
  lemma CachedTreeServesFresh(h: Hash, entries: Entries, shard: int, refs: seq<Key>, target: Key)
    requires ValidEntries(h, entries) && !Collides(h, FingerprintPair(entries, shard, refs))
    requires target !in refs
    ensures TreeFor(h, entries, shard, refs).root.hash == BuildRoot(h, refs)
    ensures var t, u := TreeFor(h, entries, shard, refs), NewTree(h, refs);
            t.Valid(h) && u.Valid(h) && target !in t.present && target !in u.present
            && (Prove(h, t, target) == Prove(h, u, target)
                || Exposes(h, CanonAudit(h, t.root, t.present, target, 0))
                || Exposes(h, CanonAudit(h, u.root, u.present, target, 0)))
  {
    TreeForAgrees(h, entries, shard, refs);
    var t, u := TreeFor(h, entries, shard, refs), NewTree(h, refs);
    RootOfSet(h, t, refs);
    ProofsAgree(h, t, u, target);
  }

  /** The module dictionary `_tree_cache`. */
  class Cache {
    const h: Hash
    var entries: Entries

    ghost predicate Valid()
      reads this
    {
      ValidEntries(h, entries)
    }

    constructor (h: Hash)
      ensures Valid() && this.h == h && entries == map[]
    {
      this.h := h;
      entries := map[];
    }

    method TreeForShard(shard: int, refs: seq<Key>) returns (t: SparseMerkleTree)
      requires Valid()
      ensures t == TreeFor(h, entries, shard, refs)
      ensures t.Valid(h)
      ensures t.present == ToSet(refs) || Collides(h, FingerprintPair(entries, shard, refs))
    {
      TreeForAgrees(h, entries, shard, refs);
      var fp := FingerprintOf(h, refs);
      if shard in entries {
        var cached := entries[shard];
        if Fingerprint(h, cached) == fp { return cached; }
      }
      t := NewTree(h, refs);
    }

    /** `cache_tree` */
    method CacheTree(shard: int, t: SparseMerkleTree)
      requires Valid() && t.Valid(h)
      modifies this
      ensures Valid() && entries == old(entries)[shard := t]
    {
      entries := entries[shard := t];
    }

    /** `clear_tree_cache` */
    method Clear()
      modifies this
      ensures Valid() && entries == map[]
    {
      entries := map[];
    }
  }
}
