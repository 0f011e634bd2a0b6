/** Building a plaintext artifact from an image, and what its reference promises
    a consumer. */
module Packer {
  import opened Bytes
  import opened Consumer
  import opened Files
  import opened Geometry
  import opened Merkle
  import opened Reference
  import opened VerityFormat
  import opened Wrappers

  /** A reference vouches for the image d inside file: it parses, the numbers it
      carries are those the image was built with, and at the offsets a consumer
      derives from it stand the image and its tree. */
  predicate Vouches(H: Hash, salt: seq<byte>, ref: string, file: seq<byte>, d: seq<byte>) {
    && Blocks(d) && |d| <= MAX_UINT64
    && ParseRef(ref).Ok?
    && (var r := ParseRef(ref).value;
        && HashOffsetBytes(r) == Ok(|d|)
        && RootHashOk(r.rootHash) && HexDecode(r.rootHash) == Root(H, salt, d))
    && VerityParamsForArtifact(|d|, salt) == Ok(VerityParams(salt, |d| / 4096, |d| + 4096))
    && StandsAt(file, 0, d) && StandsAt(file, |d| + 4096, Tree(H, salt, d))
    && |file| == |d| + 4096 + |Tree(H, salt, d)|
  }

  /** A formatted image, read back at the offsets of its parameters. */
  lemma FormattedStands(H: Hash, p: Params, sb: seq<byte>, d: seq<byte>)
    requires Blocks(d) && p.hashOffset == |d| && p.dataBlocks == |d| / 4096 && |sb| == 4096
    ensures var file := Formatted(H, p, sb, d);
            && StandsAt(file, 0, d) && StandsAt(file, |d| + 4096, Tree(H, p.salt, d))
            && |file| == |d| + 4096 + |Tree(H, p.salt, d)| && Slice(file, |d|, 4096) == sb
  {
    assert DataArea(p, d) == d;
    var tree, slotted := Tree(H, p.salt, d), WriteBytes(d, |d|, sb);
    var file := WriteBytes(slotted, |d| + 4096, tree);
    assert Slice(slotted, 0, |d|) == d;
    ReadElsewhere(slotted, |d| + 4096, tree, 0, |d|);
    ReadElsewhere(slotted, |d| + 4096, tree, |d|, 4096);
    ReadBack(d, |d|, sb);
    if tree == [] {
      assert Slice(file, |d| + 4096, 0) == tree;
    } else {
      ReadBack(slotted, |d| + 4096, tree);
    }
  }

  /** For a file laid out as data, superblock, tree, the consumer accepts exactly
      the sizes the formatter does, finds the number of data blocks, and looks for
      the tree where the formatter puts its top level. */
  lemma ParamsAgreeWithFormatter(p: Params, size: nat, parseUuid: string -> Option<Uuid>)
    requires p.hashOffset == 4096 * p.dataBlocks <= size && p.hashOffset <= MAX_UINT64
    requires |p.salt| == VERITY_SALT_BYTES && parseUuid(p.uuid).Some?
    ensures VerityParamsForArtifact(p.hashOffset, p.salt).Ok? <==> Accepted(p, size, parseUuid)
    ensures VerityParamsForArtifact(p.hashOffset, p.salt).Ok? ==>
              var v := VerityParamsForArtifact(p.hashOffset, p.salt).value;
              && v.dataBlocks == p.dataBlocks
              && (p.dataBlocks > 1 ==>
                    |Counts(p.dataBlocks)| > 0
                    && v.hashTreeOffset == LevelOffset(p.dataBlocks, p.hashOffset + 4096, |Counts(p.dataBlocks)| - 1))
  {
    if p.dataBlocks > 1 {
      TopIsOneBlock(p.dataBlocks);
      LevelsAreContiguous(p.dataBlocks, p.hashOffset + 4096, |Counts(p.dataBlocks)| - 1);
    }
  }

  lemma PrintedVouches(H: Hash, salt: seq<byte>, uuid: string, file: seq<byte>, d: seq<byte>)
    requires Blocks(d) && |d| <= MAX_HASH_OFFSET && |salt| == VERITY_SALT_BYTES && UuidOk(uuid)
    requires StandsAt(file, 0, d) && StandsAt(file, |d| + 4096, Tree(H, salt, d))
    requires |file| == |d| + 4096 + |Tree(H, salt, d)|
    ensures var ref := HexEncode(Root(H, salt, d)) + "_" + Decimal(|d|) + "_" + uuid;
            Vouches(H, salt, ref, file, d) && ParseRef(ref).value.uuid == uuid
  {
    var root := Root(H, salt, d);
    var r := ArtifactRef(HexEncode(root), Decimal(|d|), uuid);
    PrintThenParse(r);
    DecimalRoundTrip(|d|);
    HexRoundTrip(root);
  }

  /** What a finished artifact is, byte for byte: the file, its reference, and
      the image it was made from. */
  datatype Artifact = Artifact(file: seq<byte>, ref: string, image: seq<byte>)

  /** How artifacts are made: the hash function, the model identity, its verity
      UUID (a name-based one, so of the reference grammar's form), how UUIDs are
      parsed, and the number of processors. */
  datatype Recipe = Recipe(H: Hash, model: seq<byte>, uuid: string, parseUuid: string -> Option<Uuid>, procs: nat)
  {
    predicate Valid() { UuidOk(uuid) && procs > 0 }

    /** The image is one the formatter takes. */
    predicate Accepts(image: seq<byte>) {
      Blocks(image) && |image| <= MAX_HASH_OFFSET && parseUuid(uuid).Some?
    }

    /** Reference and superblock name one UUID, that of the model. */
    predicate Named(a: Artifact) {
      && ParseRef(a.ref).Ok? && ParseRef(a.ref).value.uuid == uuid && parseUuid(uuid).Some?
      && |a.image| + 4096 <= |a.file|
      && IsSuperblock(Slice(a.file, |a.image|, 4096), Params(H(model), uuid, |a.image| / 4096, |a.image|, procs),
                      parseUuid(uuid).value)
    }

    /** The reference vouches for the file, and both are the model's. */
    predicate Genuine(a: Artifact) {
      Vouches(H, H(model), a.ref, a.file, a.image) && Named(a)
    }
  }

  /** The parameters BuildMwp formats an image of the given size with. */
  function Plan(r: Recipe, size: nat): Params {
    Params(r.H(r.model), r.uuid, size / 4096, size, r.procs)
  }

  function Printed(r: Recipe, d: seq<byte>): string
    requires Blocks(d)
  {
    HexEncode(Root(r.H, r.H(r.model), d)) + "_" + Decimal(|d|) + "_" + r.uuid
  }

  /** A formatted image with the reference printed for it is genuine. */
  lemma FormattedIsGenuine(r: Recipe, d: seq<byte>, sb: seq<byte>)
    requires r.Valid() && Blocks(d) && |d| <= MAX_HASH_OFFSET && r.parseUuid(r.uuid).Some?
    requires IsSuperblock(sb, Plan(r, |d|), r.parseUuid(r.uuid).value)
    ensures r.Genuine(Artifact(Formatted(r.H, Plan(r, |d|), sb, d), Printed(r, d), d))
  {
    hide NamesFormat, GivesSizes, GivesSalt, ParseRef, Root, Tree, HexEncode, Decimal, VerityParamsForArtifact;
    hide Formatted;
    var file := Formatted(r.H, Plan(r, |d|), sb, d);
    FormattedStands(r.H, Plan(r, |d|), sb, d);
    PrintedVouches(r.H, r.H(r.model), r.uuid, file, d);
  }

  /** What a genuine artifact says of the model: in its reference, and in the
      superblock between image and tree. */
  lemma GenuineNames(r: Recipe, a: Artifact)
    requires r.Genuine(a)
    ensures ParseRef(a.ref).Ok? && ParseRef(a.ref).value.uuid == r.uuid
    ensures |a.image| + 4096 <= |a.file| && r.parseUuid(r.uuid).Some?
    ensures Slice(a.file, |a.image| + 16, 16) == r.parseUuid(r.uuid).value
    ensures Slice(a.file, |a.image| + 88, 32) == r.H(r.model)
  {
    hide ParseRef, Vouches;
    SliceOfSlice(a.file, |a.image|, 4096, 16, 16);
    SliceOfSlice(a.file, |a.image|, 4096, 88, 32);
  }

  lemma AcceptsExactly(r: Recipe, d: seq<byte>)
    ensures r.Accepts(d) <==>
              |d| % 4096 == 0 && 0 < |d| <= 0x4000_0000_0000_0000 && r.parseUuid(r.uuid).Some?
  {
  }

  lemma RoundsUp(size: nat)
    requires size <= MAX_INT64
    ensures var offset := Wrap64(Quot(Wrap64(size + 4095), 4096) * 4096);
            size == offset <==> size % 4096 == 0
  {
    if size % 4096 == 0 {
      assert size + 4095 <= MAX_INT64;
    }
  }

  lemma WholeData(r: Recipe, d: seq<byte>)
    requires r.Accepts(d)
    ensures HasData(Plan(r, |d|), d) && DataArea(Plan(r, |d|), d) == d
  {
  }

  lemma TreeHasRoom(r: Recipe, size: nat)
    requires size <= MAX_HASH_OFFSET
    ensures TreeFits(Plan(r, size))
  {
    TreeIsSmall(size / 4096);
  }

  lemma PlanIsAccepted(r: Recipe, d: seq<byte>)
    requires |d| % 4096 == 0
    ensures Accepted(Plan(r, |d|), |d|, r.parseUuid) <==> r.Accepts(d)
  {
  }

  /** From the image mkfs left in a staged file to the reference of the
      finished artifact. The salt is the digest of the model identity. */
  method BuildMwp(image: File, r: Recipe) returns (ref: Result<string>)
    requires |image.data| <= MAX_INT64 && r.Valid()
    modifies image
    ensures ref.Ok? ==> r.Genuine(Artifact(image.data, ref.value, old(image.data)))
    ensures ref.Ok? ==>
              && ParseRef(ref.value).Ok? && ParseRef(ref.value).value.uuid == r.uuid
              && |old(image.data)| + 4096 <= |image.data| && r.parseUuid(r.uuid).Some?
              && Slice(image.data, |old(image.data)| + 16, 16) == r.parseUuid(r.uuid).value
              && Slice(image.data, |old(image.data)| + 88, 32) == r.H(r.model)
    ensures image.reliable ==> (ref.Ok? <==> r.Accepts(old(image.data)))
    ensures image.reliable ==>
              (ref.Ok? <==>
                 && |old(image.data)| % 4096 == 0 && 0 < |old(image.data)| <= 0x4000_0000_0000_0000
                 && r.parseUuid(r.uuid).Some?)
    ensures |old(image.data)| <= |image.data| && image.data[..|old(image.data)|] == old(image.data)
  {
    hide Wrap64, Quot, Accepted, TreeFits, DataArea, IsSuperblock, Formatted, ParseRef, Root, HexEncode, Decimal;
    hide Recipe.Genuine;
    ghost var d := image.data;
    AcceptsExactly(r, d);
    RoundsUp(|d|);
    var size := |image.data|;
    var offset := Wrap64(Quot(Wrap64(size + 4095), 4096) * 4096);
    if size != offset { return Err; }
    PlanIsAccepted(r, d);
    if r.Accepts(d) {
      WholeData(r, d);
      TreeHasRoom(r, size);
    }
    var p := Params(r.H(r.model), r.uuid, offset / 4096, offset, r.procs);
    var root := FormatVerityHashTree(image, p, r.H, r.parseUuid, r.procs);
    if root.Err? { return Err; }
    ghost var sb :| IsSuperblock(sb, p, r.parseUuid(r.uuid).value) && image.data == Formatted(r.H, p, sb, d);
    FormattedIsGenuine(r, d, sb);
    GenuineNames(r, Artifact(image.data, Printed(r, d), d));
    return Ok(HexEncode(root.value) + "_" + Decimal(offset) + "_" + r.uuid);
  }

  /** Completeness, end to end: every data block of an artifact verifies against
      its reference, by the parameters the consumer derives from it. */
  lemma EveryBlockVerifies(H: Hash, salt: seq<byte>, ref: string, file: seq<byte>, d: seq<byte>, i: nat)
    requires Vouches(H, salt, ref, file, d) && i < |d| / 4096
    ensures VerifyBlock(H, file, VerityParamsForArtifact(|d|, salt).value, HexDecode(ParseRef(ref).value.rootHash), i)
  {
    hide ParseRef, Walk, Root, Tree;
    WalkAccepts(H, salt, file, |d| + 4096, d, 0, i);
  }

  /** For a genuine artifact the salt is the digest of the model identity, which
      the consumer has, and the root hash the one its reference gives. */
  lemma GenuineVerifies(r: Recipe, a: Artifact, i: nat)
    requires r.Genuine(a) && i < |a.image| / 4096
    ensures ParseRef(a.ref).Ok? && ParseRef(a.ref).value.uuid == r.uuid
    ensures HashOffsetBytes(ParseRef(a.ref).value) == Ok(|a.image|)
    ensures RootHashOk(ParseRef(a.ref).value.rootHash)
    ensures VerifyBlock(r.H, a.file, VerityParams(r.H(r.model), |a.image| / 4096, |a.image| + 4096),
                        HexDecode(ParseRef(a.ref).value.rootHash), i)
    ensures |a.image| + 4096 <= |a.file| && r.parseUuid(r.uuid).Some?
    ensures Slice(Slice(a.file, |a.image|, 4096), 16, 16) == r.parseUuid(r.uuid).value
  {
    hide ParseRef, Walk, Root, Tree;
    EveryBlockVerifies(r.H, r.H(r.model), a.ref, a.file, a.image, i);
  }

  /** Soundness, end to end: whatever file is presented under a reference that
      vouches for d, a block that verifies is d's block, or the two different
      strings returned have one digest. */
  function ForgedBlock(H: Hash, salt: seq<byte>, ref: string, file: seq<byte>, d: seq<byte>, forged: seq<byte>, i: nat)
    : (c: (seq<byte>, seq<byte>))
    requires Vouches(H, salt, ref, file, d) && i < |d| / 4096
    requires VerifyBlock(H, forged, VerityParamsForArtifact(|d|, salt).value,
                         HexDecode(ParseRef(ref).value.rootHash), i)
    ensures 4096 * i + 4096 <= |forged|
    ensures Slice(forged, 4096 * i, 4096) == Block(d, i) || (c.0 != c.1 && H(c.0) == H(c.1))
  {
    TamperCollision(H, salt, forged, |d| + 4096, d, 0, i)
  }

  /** A whole artifact is a whole number of sectors. */
  lemma ArtifactIsWhole(H: Hash, salt: seq<byte>, ref: string, file: seq<byte>, d: seq<byte>)
    requires Vouches(H, salt, ref, file, d)
    ensures Blocks(file)
  {
    hide ParseRef, StandsAt, VerityParamsForArtifact, HexDecode, Root, Tree, TreeBlocks;
    TreeLength(H, salt, d);
    var n := |d| / 4096;
    SectorsAreWhole(file, n + 1 + TreeBlocks(n));
  }

  lemma SectorsAreWhole(file: seq<byte>, n: nat)
    requires |file| == 4096 * n && n > 0
    ensures Blocks(file)
  {
  }
}
