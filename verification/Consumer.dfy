/** The consumer's side: explicit parameters derived from the reference, and a
    verifier that walks the tree at the offsets they give. */
module Consumer {
  import opened Bytes
  import opened Geometry
  import opened Merkle
  import opened Wrappers

  const VERITY_SALT_BYTES: nat := 32

  datatype VerityParams = VerityParams(salt: seq<byte>, dataBlocks: nat, hashTreeOffset: nat)

  /** Derived from the attested hash offset alone; the artifact is not consulted.
      Exactly the whole, nonempty data areas up to 2^62 bytes are accepted. */
  function VerityParamsForArtifact(hashOffset: nat, salt: seq<byte>): (r: Result<VerityParams>)
    requires hashOffset <= MAX_UINT64
    ensures r.Ok? <==>
              |salt| == 32 && exists n: nat :: 0 < n <= 0x4_0000_0000_0000 && 4096 * n == hashOffset
    ensures r.Ok? ==>
              && r.value.salt == salt && 4096 * r.value.dataBlocks == hashOffset
              && r.value.hashTreeOffset == hashOffset + 4096
  {
    if |salt| != VERITY_SALT_BYTES then Err
    else if hashOffset == 0 || hashOffset % 4096 != 0 then Err
    else if hashOffset > MAX_HASH_OFFSET then Err
    else
      assert 4096 * (hashOffset / 4096) == hashOffset;
      Ok(VerityParams(salt, hashOffset / 4096, hashOffset + 4096))
  }

  /** Checks block i of the level of n blocks at off against the root: its digest
      must be the one stored in the level above, and the block that stores it
      must check in turn; the single top block must hash to the root. */
  predicate Walk(H: Hash, salt: seq<byte>, file: seq<byte>, base: nat, root: Digest, n: nat, off: nat, i: nat)
    decreases n
  {
    && off + 4096 * i + 4096 <= |file|
    && var digest := H(salt + Slice(file, off + 4096 * i, 4096));
       if n <= 1 then digest == root
       else
         var up := base + 4096 * TreeBlocks(Up(n));
         && up + 32 * i + 32 <= |file|
         && digest == Slice(file, up + 32 * i, 32)
         && Walk(H, salt, file, base, root, Up(n), up, i / 128)
  }

  /** Data block i of the artifact verifies. */
  predicate VerifyBlock(H: Hash, file: seq<byte>, v: VerityParams, root: Digest, i: nat) {
    Walk(H, v.salt, file, v.hashTreeOffset, root, v.dataBlocks, 0, i)
  }

  predicate StandsAt(file: seq<byte>, off: nat, d: seq<byte>) {
    off + |d| <= |file| && Slice(file, off, |d|) == d
  }

  lemma StandsInside(file: seq<byte>, off: nat, d: seq<byte>, o: nat, n: nat)
    requires StandsAt(file, off, d) && o + n <= |d|
    ensures Slice(file, off + o, n) == Slice(d, o, n)
  {
    SliceOfSlice(file, off, |d|, o, n);
  }

  lemma StandsApart(file: seq<byte>, off: nat, a: seq<byte>, b: seq<byte>)
    requires StandsAt(file, off, a + b)
    ensures StandsAt(file, off, a) && StandsAt(file, off + |a|, b)
  {
    StandsInside(file, off, a + b, 0, |a|);
    StandsInside(file, off, a + b, |a|, |b|);
    assert Slice(a + b, 0, |a|) == a && Slice(a + b, |a|, |b|) == b;
  }

  /** Where the tree over d starts at base, the level above d stands where the
      walk looks for it. */
  lemma ParentStands(H: Hash, salt: seq<byte>, file: seq<byte>, base: nat, d: seq<byte>)
    requires Blocks(d) && |d| > 4096 && StandsAt(file, base, Tree(H, salt, d))
    ensures var p := Parent(H, salt, d);
            && |p| / 4096 == Up(|d| / 4096)
            && StandsAt(file, base, Tree(H, salt, p))
            && StandsAt(file, base + 4096 * TreeBlocks(Up(|d| / 4096)), p)
  {
    var p := Parent(H, salt, d);
    TreeLength(H, salt, p);
    StandsApart(file, base, Tree(H, salt, p), p);
  }

  lemma StorageExists(H: Hash, salt: seq<byte>, d: seq<byte>, i: nat)
    requires Blocks(d) && i < |d| / 4096
    ensures var p := Parent(H, salt, d);
            |p| / 4096 == Up(|d| / 4096) && i / 128 < |p| / 4096 && 4096 * (i / 128) + 4096 <= |p|
  {
  }

  lemma OnlyBlock(d: seq<byte>)
    requires |d| == 4096
    ensures Block(d, 0) == d
  {
  }

  lemma BlockStands(file: seq<byte>, off: nat, d: seq<byte>, i: nat)
    requires Blocks(d) && i < |d| / 4096 && StandsAt(file, off, d)
    ensures off + 4096 * i + 4096 <= |file| && Slice(file, off + 4096 * i, 4096) == Block(d, i)
  {
    StandsInside(file, off, d, 4096 * i, 4096);
  }

  /** Where the level above d stands, so does the digest of each of d's blocks. */
  lemma DigestStands(H: Hash, salt: seq<byte>, file: seq<byte>, up: nat, d: seq<byte>, i: nat)
    requires Blocks(d) && i < |d| / 4096 && StandsAt(file, up, Parent(H, salt, d))
    ensures up + 32 * i + 32 <= |file| && Slice(file, up + 32 * i, 32) == H(salt + Block(d, i))
  {
    StoredDigest(H, salt, d, i);
    StandsInside(file, up, Parent(H, salt, d), 32 * i, 32);
  }

  /** Completeness: where the data and its tree stand, every block verifies. */
  lemma {:induction false} WalkAccepts(H: Hash, salt: seq<byte>, file: seq<byte>, base: nat, d: seq<byte>, off: nat,
                                       i: nat)
    requires Blocks(d) && i < |d| / 4096
    requires StandsAt(file, off, d) && StandsAt(file, base, Tree(H, salt, d))
    ensures Walk(H, salt, file, base, Root(H, salt, d), |d| / 4096, off, i)
    decreases |d|
  {
    hide StandsAt, Parent, TreeBlocks, Slice;
    BlockStands(file, off, d, i);
    if |d| == 4096 {
      OnlyBlock(d);
    } else {
      var p, up := Parent(H, salt, d), base + 4096 * TreeBlocks(Up(|d| / 4096));
      ParentStands(H, salt, file, base, d);
      StorageExists(H, salt, d, i);
      DigestStands(H, salt, file, up, d, i);
      WalkAccepts(H, salt, file, base, p, up, i / 128);
    }
  }

  /** Digest i is part of block i/128 of the level that stores it. */
  lemma StoredInside(file: seq<byte>, up: nat, p: seq<byte>, i: nat)
    requires up + 4096 * (i / 128) + 4096 <= |file| && 4096 * (i / 128) + 4096 <= |p|
    requires Slice(file, up + 4096 * (i / 128), 4096) == Block(p, i / 128)
    ensures 32 * i + 32 <= |p| && up + 32 * i + 32 <= |file|
    ensures Slice(file, up + 32 * i, 32) == Slice(p, 32 * i, 32)
  {
    var q, r := i / 128, i % 128;
    SliceOfSlice(file, up + 4096 * q, 4096, 32 * r, 32);
    SliceOfSlice(p, 4096 * q, 4096, 32 * r, 32);
    assert 4096 * q + 32 * r == 32 * i;
  }

  /** If the block storing it is the original one, the stored digest is that of
      the original block. */
  lemma StoredAgrees(H: Hash, salt: seq<byte>, file: seq<byte>, up: nat, d: seq<byte>, i: nat)
    requires Blocks(d) && i < |d| / 4096
    requires up + 4096 * (i / 128) + 4096 <= |file| && 4096 * (i / 128) + 4096 <= |Parent(H, salt, d)|
    requires Slice(file, up + 4096 * (i / 128), 4096) == Block(Parent(H, salt, d), i / 128)
    ensures up + 32 * i + 32 <= |file| && Slice(file, up + 32 * i, 32) == H(salt + Block(d, i))
  {
    StoredDigest(H, salt, d, i);
    StoredInside(file, up, Parent(H, salt, d), i);
  }

  /** Soundness, block by block and whatever else in the file was changed: a
      block that verifies against the root of d is d's block, or the walk has
      met two strings with one digest, which this function returns. */
  function TamperCollision(H: Hash, salt: seq<byte>, file: seq<byte>, base: nat, d: seq<byte>, off: nat, i: nat)
    : (c: (seq<byte>, seq<byte>))
    requires Blocks(d) && i < |d| / 4096
    requires Walk(H, salt, file, base, Root(H, salt, d), |d| / 4096, off, i)
    ensures Slice(file, off + 4096 * i, 4096) == Block(d, i) || Collides(H, c)
    decreases |d|
  {
    hide TreeBlocks;
    var b := Slice(file, off + 4096 * i, 4096);
    if b == Block(d, i) then (b, b)
    else if |d| == 4096 then
      OnlyBlock(d);
      BlockCollision(H, salt, b, d)
    else
      var p, up := Parent(H, salt, d), base + 4096 * TreeBlocks(Up(|d| / 4096));
      StorageExists(H, salt, d, i);
      var c := TamperCollision(H, salt, file, base, p, up, i / 128);
      if Slice(file, up + 4096 * (i / 128), 4096) == Block(p, i / 128) then
        StoredAgrees(H, salt, file, up, d, i);
        BlockCollision(H, salt, b, Block(d, i))
      else c
  }

  /** A file all of whose data blocks verify has the original data, or gives a
      collision. */
  function FullCheckCollision(H: Hash, file: seq<byte>, v: VerityParams, d: seq<byte>): (c: (seq<byte>, seq<byte>))
    requires Blocks(d) && v.dataBlocks == |d| / 4096
    requires forall i: nat | i < v.dataBlocks :: VerifyBlock(H, file, v, Root(H, v.salt, d), i)
    ensures |d| <= |file|
    ensures file[..|d|] == d || (c.0 != c.1 && H(c.0) == H(c.1))
  {
    assert VerifyBlock(H, file, v, Root(H, v.salt, d), v.dataBlocks - 1);
    var image := file[..|d|];
    if image == d then (d, d)
    else
      var j := FirstDifference(image, d, 0);
      assert VerifyBlock(H, file, v, Root(H, v.salt, d), j);
      assert Block(image, j) == Slice(file, 0 + 4096 * j, 4096);
      TamperCollision(H, v.salt, file, v.hashTreeOffset, d, 0, j)
  }

  lemma SameSlice(f: seq<byte>, g: seq<byte>, base: nat, o: nat, n: nat)
    requires |f| == |g| && o + n <= |f| && (o + n <= base - 4096 || base <= o)
    requires forall k | 0 <= k < |f| && !(base - 4096 <= k < base) :: f[k] == g[k]
    ensures Slice(f, o, n) == Slice(g, o, n)
  {
  }

  lemma StoredIn(n: nat, i: nat)
    requires i < n && n > 1
    ensures i / 128 < Up(n) < n
  {
  }

  /** The walk never reads the superblock: files that differ only in its slot
      verify alike. */
  lemma {:induction false} WalkSkipsSuperblock(H: Hash, salt: seq<byte>, f: seq<byte>, g: seq<byte>, base: nat,
                                               root: Digest, n: nat, off: nat, i: nat)
    requires base >= 4096 && |f| == |g| && i < n
    requires forall k | 0 <= k < |f| && !(base - 4096 <= k < base) :: f[k] == g[k]
    requires off + 4096 * n <= base - 4096 || base <= off
    ensures Walk(H, salt, f, base, root, n, off, i) == Walk(H, salt, g, base, root, n, off, i)
    decreases n
  {
    hide Slice, TreeBlocks, Up;
    if off + 4096 * i + 4096 <= |f| {
      SameSlice(f, g, base, off + 4096 * i, 4096);
      if n > 1 {
        var up := base + 4096 * TreeBlocks(Up(n));
        StoredIn(n, i);
        if up + 32 * i + 32 <= |f| { SameSlice(f, g, base, up + 32 * i, 32); }
        WalkSkipsSuperblock(H, salt, f, g, base, root, Up(n), up, i / 128);
      }
    }
  }
}
