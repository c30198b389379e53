/** Byte strings, the SHA-256 stand-in and collisions, shared by both Merkle trees.

    The hash is a parameter: every theorem quantifies over all functions from byte
    strings to 32-byte strings, and none assumes injectivity. A claim that can only
    fail when the hash collides is stated with an explicit pair of preimages that a
    function computes from the inputs, because mere existence of some collision is
    true of every such function and would say nothing. */
module Hashing {
  type Byte = x: int | 0 <= x < 256
  type Bytes = seq<Byte>
  type Digest = d: Bytes | |d| == 32 witness seq(32, i => 0)
  type Hash = Bytes -> Digest

  datatype Option<+T> = None | Some(value: T)

  /** Two different preimages with one digest. */
  predicate Collides(h: Hash, p: (Bytes, Bytes)) {
    p.0 != p.1 && h(p.0) == h(p.1)
  }

  function LeafPreimage(data: Bytes): Bytes { [0] + data }
  function NodePreimage(left: Bytes, right: Bytes): Bytes { [1] + left + right }

  function Leaf(h: Hash, data: Bytes): Digest { h(LeafPreimage(data)) }
  function Node(h: Hash, left: Bytes, right: Bytes): Digest { h(NodePreimage(left, right)) }

  /** The bytes hashed: a prefix of 0 or 1, then the data, or the left child before the right one. */
  lemma PreimagesAre(data: Bytes, left: Digest, right: Digest)
    ensures |LeafPreimage(data)| == 1 + |data| && LeafPreimage(data)[0] == 0 && LeafPreimage(data)[1..] == data
    ensures var p := NodePreimage(left, right); |p| == 65 && p[0] == 1 && p[1..33] == left && p[33..] == right
  {}

  /** An inner-node preimage determines both children as soon as one child on each
      side is known to be 32 bytes wide: the total length then fixes the other. */
  lemma NodePreimageInjective(a: Bytes, b: Bytes, x: Bytes, y: Bytes)
    requires NodePreimage(a, b) == NodePreimage(x, y)
    requires |a| == |x| || |b| == |y|
    ensures a == x && b == y
  {
    var p, q := NodePreimage(a, b), NodePreimage(x, y);
    assert |a| == |x|;
    assert p[1..1 + |a|] == a && q[1..1 + |x|] == x;
    assert p[1 + |a|..] == b && q[1 + |x|..] == y;
  }

  lemma LeafPreimageInjective(a: Bytes, b: Bytes)
    requires LeafPreimage(a) == LeafPreimage(b)
    ensures a == b
  {
    assert LeafPreimage(a)[1..] == a;
    assert LeafPreimage(b)[1..] == b;
  }
}
