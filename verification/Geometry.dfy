/** Sizes and offsets of the tree levels, on unbounded integers, and the
    bounds that keep the program's 64-bit arithmetic from wrapping. */
module Geometry {
  import opened Bytes
  import opened Merkle

  /** The largest hash offset, and data area, of an artifact. */
  const MAX_HASH_OFFSET: nat := 0x4000_0000_0000_0000

  /** Blocks of the level above a level of n blocks. */
  function Up(n: nat): (m: nat)
    ensures n > 1 ==> 1 <= m < n
  {
    CeilDiv(n, 128)
  }

  /** Blocks of every level above n blocks, the lowest level first. */
  function Counts(n: nat): seq<nat> {
    if n <= 1 then [] else [Up(n)] + Counts(Up(n))
  }

  /** Blocks of all levels above n blocks together. */
  function TreeBlocks(n: nat): nat {
    if n <= 1 then 0 else Up(n) + TreeBlocks(Up(n))
  }

  /** Blocks of the i-th level below which the tree grows: the data for i = 0. */
  function BlocksBelow(n: nat, i: nat): nat
    requires i <= |Counts(n)|
  {
    if i == 0 then n else Counts(n)[i - 1]
  }

  /** Where level i starts when the tree starts at base: the levels above it
      come first on disk. */
  function LevelOffset(n: nat, base: nat, i: nat): nat
    requires i < |Counts(n)|
  {
    base + 4096 * TreeBlocks(Counts(n)[i])
  }

  function Pow128(k: nat): nat {
    if k == 0 then 1 else 128 * Pow128(k - 1)
  }

  lemma {:induction false} LevelCountBound(n: nat, k: nat)
    requires n <= Pow128(k)
    ensures |Counts(n)| <= k
    decreases k
  {
    if n > 1 && k > 0 {
      LevelCountBound(Up(n), k - 1);
    }
  }

  /** A data area that passes the size check has at most 8 tree levels, and 8
      is reached. */
  lemma AtMostEightLevels(n: nat)
    requires n <= 0x4_0000_0000_0000
    ensures |Counts(n)| <= 8
    ensures n == 0x4_0000_0000_0000 ==> |Counts(n)| == 8
  {
    assert Pow128(8) == 0x100_0000_0000_0000 by {
      assert Pow128(2) == 128 * Pow128(1) == 16384;
      assert Pow128(4) == 128 * Pow128(3) == 16384 * Pow128(2);
      assert Pow128(6) == 128 * Pow128(5) == 16384 * Pow128(4);
      assert Pow128(8) == 128 * Pow128(7) == 16384 * Pow128(6);
    }
    LevelCountBound(n, 8);
    LevelCountReached(7);
    assert Pow128(8) == 128 * Pow128(7);
  }

  lemma {:induction false} LevelCountReached(k: nat)
    ensures |Counts(2 * Pow128(k))| == k + 1
  {
    if k > 0 {
      assert Up(2 * Pow128(k)) == 2 * Pow128(k - 1);
      LevelCountReached(k - 1);
    } else {
      assert Counts(2) == [1] + Counts(1);
    }
  }

  /** Unless it is empty, a tree has a single-block top level. */
  lemma {:induction false} TopIsOneBlock(n: nat)
    requires n > 1
    ensures |Counts(n)| > 0 && Counts(n)[|Counts(n)| - 1] == 1
  {
    if Up(n) > 1 { TopIsOneBlock(Up(n)); }
  }

  /** Level i is the level above what lies below it, and the levels above it
      are the tree over it. */
  lemma {:induction false} CountsStep(n: nat, i: nat)
    requires i < |Counts(n)|
    ensures BlocksBelow(n, i) > 1
    ensures Counts(n)[i] == Up(BlocksBelow(n, i))
    ensures Counts(n)[i + 1..] == Counts(Counts(n)[i])
    ensures TreeBlocks(BlocksBelow(n, i)) == Counts(n)[i] + TreeBlocks(Counts(n)[i])
  {
    if i > 0 {
      CountsStep(Up(n), i - 1);
      assert BlocksBelow(n, i) == BlocksBelow(Up(n), i - 1);
      assert Counts(n)[i + 1..] == Counts(Up(n))[i..];
    }
  }

  /** The tree over n blocks has at most half as many. */
  lemma {:induction false} TreeIsSmall(n: nat)
    ensures 2 * TreeBlocks(n) <= n
  {
    if n > 1 { TreeIsSmall(Up(n)); }
  }

  /** Consecutive levels are adjacent, each level lies between the tree's start
      and its end, and the lowest level ends where the tree ends. */
  lemma {:induction false} LevelsAreContiguous(n: nat, base: nat, i: nat)
    requires i < |Counts(n)|
    ensures base <= LevelOffset(n, base, i)
    ensures LevelOffset(n, base, i) + 4096 * Counts(n)[i] ==
            if i == 0 then base + 4096 * TreeBlocks(n) else LevelOffset(n, base, i - 1)
    ensures LevelOffset(n, base, i) + 4096 * Counts(n)[i] <= base + 4096 * TreeBlocks(n)
    ensures i == |Counts(n)| - 1 ==> LevelOffset(n, base, i) == base
  {
    CountsStep(n, i);
    if i > 0 {
      LevelsAreContiguous(n, base, i - 1);
    }
    if i == |Counts(n)| - 1 {
      TopIsOneBlock(n);
    }
  }

  /** Two different levels never share a byte, and no level shares one with the
      data area or the superblock slot. */
  lemma {:induction false} LevelsAreDisjoint(n: nat, hashOffset: nat, i: nat, j: nat)
    requires i < j < |Counts(n)| && 4096 * n <= hashOffset
    ensures var base := hashOffset + 4096;
            LevelOffset(n, base, j) + 4096 * Counts(n)[j] <= LevelOffset(n, base, i)
    ensures 4096 * n <= hashOffset < hashOffset + 4096 <= LevelOffset(n, hashOffset + 4096, j)
    decreases j
  {
    var base := hashOffset + 4096;
    LevelsAreContiguous(n, base, j);
    if i < j - 1 {
      LevelsAreDisjoint(n, hashOffset, i, j - 1);
      LevelsAreContiguous(n, base, j - 1);
    }
  }

  /** With a data area the size check lets through and a hash offset up to 2^62,
      the end of the tree is a valid int64 file offset, so no offset below it
      wraps. */
  lemma OffsetsFitInt64(n: nat, hashOffset: nat)
    requires n <= 0x4_0000_0000_0000 && hashOffset <= 0x4000_0000_0000_0000
    ensures n * 4096 <= 0x4000_0000_0000_0000
    ensures hashOffset + 4096 + 4096 * TreeBlocks(n) <= MAX_INT64
    ensures var base := hashOffset + 4096;
            forall i | 0 <= i < |Counts(n)| :: Wrap64(LevelOffset(n, base, i)) == LevelOffset(n, base, i)
  {
    TreeIsSmall(n);
    var base := hashOffset + 4096;
    forall i | 0 <= i < |Counts(n)|
      ensures Wrap64(LevelOffset(n, base, i)) == LevelOffset(n, base, i)
    {
      LevelsAreContiguous(n, base, i);
    }
  }

  /** The tree's bytes are as many as the geometry says. */
  lemma {:induction false} TreeLength(H: Hash, salt: seq<byte>, d: seq<byte>)
    requires Blocks(d)
    ensures |Tree(H, salt, d)| == 4096 * TreeBlocks(|d| / 4096)
    decreases |d|
  {
    if |d| > 4096 {
      TreeLength(H, salt, Parent(H, salt, d));
    }
  }
}
