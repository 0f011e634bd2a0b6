/** The salted hash tree, as a function of the data alone: hash every
    4096-byte block with the salt, lay the 32-byte digests out one after the
    other (128 of them fill a block exactly), pad with zeros to a whole block,
    and repeat until one block is left. */
module Merkle {
  import opened Bytes

  type Digest = d: seq<byte> | |d| == 32 witness Zeros(32)

  /** SHA-256, of which nothing is used but the length of its result. */
  type Hash = seq<byte> -> Digest

  /** Whole blocks, and at least one. */
  predicate Blocks(d: seq<byte>) {
    |d| >= 4096 && Whole(d)
  }

  function Digests(H: Hash, salt: seq<byte>, d: seq<byte>): (r: seq<byte>)
    requires Whole(d)
    ensures |r| == |d| / 128
  {
    if d == [] then [] else H(salt + d[..4096]) + Digests(H, salt, d[4096..])
  }

  /** Digests of q blocks fill q/128 blocks, rounded up. */
  lemma BlocksOfDigests(q: nat)
    requires q > 0
    ensures CeilDiv(32 * q, 4096) == CeilDiv(q, 128) > 0
    ensures q > 1 ==> CeilDiv(q, 128) < q
  {
  }

  lemma ParentSize(n: nat)
    requires n >= 4096 && n == 4096 * (n / 4096)
    ensures CeilDiv(n / 128, 4096) == CeilDiv(n / 4096, 128) > 0
    ensures n > 4096 ==> 4096 * CeilDiv(n / 4096, 128) < n
  {
    hide CeilDiv;
    BlocksOfDigests(n / 4096);
    assert n / 128 == 32 * (n / 4096);
  }

  /** The level above the level d. */
  function Parent(H: Hash, salt: seq<byte>, d: seq<byte>): (r: seq<byte>)
    requires Blocks(d)
    ensures Blocks(r)
    ensures |r| == 4096 * CeilDiv(|d| / 4096, 128)
    ensures |d| > 4096 ==> |r| < |d|
  {
    ParentSize(|d|);
    PadToBlock(Digests(H, salt, d))
  }

  function Root(H: Hash, salt: seq<byte>, d: seq<byte>): Digest
    requires Blocks(d)
    decreases |d|
  {
    if |d| == 4096 then H(salt + d) else Root(H, salt, Parent(H, salt, d))
  }

  /** All levels above d, the single-block top level first. */
  function Tree(H: Hash, salt: seq<byte>, d: seq<byte>): (r: seq<byte>)
    requires Blocks(d)
    ensures Whole(r)
    decreases |d|
  {
    if |d| == 4096 then []
    else
      var p := Parent(H, salt, d);
      Tree(H, salt, p) + p
  }

  /** Block i of the level d. */
  function Block(d: seq<byte>, i: nat): (b: seq<byte>)
    requires 4096 * i + 4096 <= |d|
    ensures |b| == 4096
  {
    Slice(d, 4096 * i, 4096)
  }

  /** Byte k of the level above d, by position: digest k/32, or padding. */
  function ParentByte(H: Hash, salt: seq<byte>, d: seq<byte>, k: nat): byte
    requires Whole(d)
  {
    if k / 32 < |d| / 4096 then H(salt + Block(d, k / 32))[k % 32] else 0
  }

  lemma {:induction false} DigestAt(H: Hash, salt: seq<byte>, d: seq<byte>, i: nat)
    requires Whole(d) && i < |d| / 4096
    ensures Slice(Digests(H, salt, d), 32 * i, 32) == H(salt + Block(d, i))
  {
    var first, rest := H(salt + d[..4096]), d[4096..];
    if i == 0 {
      assert Block(d, 0) == d[..4096];
    } else {
      DigestAt(H, salt, rest, i - 1);
      assert Block(rest, i - 1) == Block(d, i);
      assert Slice(Digests(H, salt, rest), 32 * (i - 1), 32) == Slice(first + Digests(H, salt, rest), 32 * i, 32);
    }
  }

  /** The packed level is, byte by byte, what its positions say. */
  lemma ParentAt(H: Hash, salt: seq<byte>, d: seq<byte>, k: nat)
    requires Blocks(d) && k < |Parent(H, salt, d)|
    ensures Parent(H, salt, d)[k] == ParentByte(H, salt, d, k)
  {
    if k / 32 < |d| / 4096 {
      DigestAt(H, salt, d, k / 32);
      assert Slice(Digests(H, salt, d), 32 * (k / 32), 32)[k % 32] == Digests(H, salt, d)[k];
    }
  }

  /** The digest of block i stands in the level above at byte 32*i. */
  lemma StoredDigest(H: Hash, salt: seq<byte>, d: seq<byte>, i: nat)
    requires Blocks(d) && i < |d| / 4096
    ensures 32 * i + 32 <= |Parent(H, salt, d)|
    ensures Slice(Parent(H, salt, d), 32 * i, 32) == H(salt + Block(d, i))
  {
    DigestAt(H, salt, d, i);
    assert Slice(Digests(H, salt, d), 32 * i, 32) == Slice(Parent(H, salt, d), 32 * i, 32);
  }

  // ---- Integrity: equal roots mean equal data, or a collision in hand ----

  predicate Collides(H: Hash, p: (seq<byte>, seq<byte>)) {
    p.0 != p.1 && H(p.0) == H(p.1)
  }

  /** The first block in which two levels of the same size differ. */
  function FirstDifference(a: seq<byte>, b: seq<byte>, i: nat): (j: nat)
    requires |a| == |b| && Whole(a) && a != b
    requires 4096 * i <= |a| && a[..4096 * i] == b[..4096 * i]
    ensures 4096 * j + 4096 <= |a| && Block(a, j) != Block(b, j)
    decreases |a| - 4096 * i
  {
    assert a[..|a|] == a && b[..|a|] == b;
    if Block(a, i) != Block(b, i) then i
    else
      assert a[..4096 * (i + 1)] == a[..4096 * i] + Block(a, i);
      assert b[..4096 * (i + 1)] == b[..4096 * i] + Block(b, i);
      FirstDifference(a, b, i + 1)
  }

  /** Two different images of one size with one root give two different
      strings with one digest; this function finds them. */
  function FindCollision(H: Hash, salt: seq<byte>, a: seq<byte>, b: seq<byte>): (p: (seq<byte>, seq<byte>))
    requires Blocks(a) && |a| == |b| && a != b
    requires Root(H, salt, a) == Root(H, salt, b)
    ensures p.0 != p.1 && H(p.0) == H(p.1)
    decreases |a|
  {
    if |a| == 4096 then BlockCollision(H, salt, a, b)
    else if Parent(H, salt, a) != Parent(H, salt, b) then
      FindCollision(H, salt, Parent(H, salt, a), Parent(H, salt, b))
    else LevelCollision(H, salt, a, b)
  }

  /** Different levels below one packed level. */
  function LevelCollision(H: Hash, salt: seq<byte>, a: seq<byte>, b: seq<byte>): (p: (seq<byte>, seq<byte>))
    requires Blocks(a) && |a| == |b| && a != b
    requires Parent(H, salt, a) == Parent(H, salt, b)
    ensures Collides(H, p)
  {
    var i := FirstDifference(a, b, 0);
    StoredDigest(H, salt, a, i);
    StoredDigest(H, salt, b, i);
    BlockCollision(H, salt, Block(a, i), Block(b, i))
  }

  /** Different blocks with one salted digest. */
  function BlockCollision(H: Hash, salt: seq<byte>, x: seq<byte>, y: seq<byte>): (p: (seq<byte>, seq<byte>))
    requires x != y && H(salt + x) == H(salt + y)
    ensures Collides(H, p)
  {
    assert (salt + x)[|salt|..] == x && (salt + y)[|salt|..] == y;
    (salt + x, salt + y)
  }

  /** Why the size is part of a reference: an image of 2 to 128 blocks and the
      one-block image made of its top tree block have the same root, whatever
      the hash function. */
  lemma SizeMattersForTheRoot(H: Hash, salt: seq<byte>, d: seq<byte>)
    requires Blocks(d) && 4096 < |d| <= 128 * 4096
    ensures |Tree(H, salt, d)| == 4096 && Tree(H, salt, d) != d
    ensures Root(H, salt, Tree(H, salt, d)) == Root(H, salt, d)
  {
    var p := Parent(H, salt, d);
    assert Tree(H, salt, p) == [];
    assert Tree(H, salt, d) == p;
  }

  /** Every tree above one block ends in a single block whose salted digest is
      the root; so the root is also the root of the tree's first block. */
  lemma {:induction false} TopBlock(H: Hash, salt: seq<byte>, d: seq<byte>)
    requires Blocks(d) && |d| > 4096
    ensures |Tree(H, salt, d)| >= 4096
    ensures Root(H, salt, d) == H(salt + Block(Tree(H, salt, d), 0))
    decreases |d|
  {
    var p := Parent(H, salt, d);
    if |p| == 4096 {
      assert Tree(H, salt, p) + p == p;
      assert Block(p, 0) == p;
    } else {
      TopBlock(H, salt, p);
      assert Block(Tree(H, salt, p) + p, 0) == Block(Tree(H, salt, p), 0);
    }
  }
}
