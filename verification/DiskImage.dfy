/** The encrypted artifact: a disk image whose single partition holds the
    sector-encrypted plaintext artifact, and the way back. */
module DiskImage {
  import opened Bytes
  import opened Crypt
  import opened Files
  import opened Geometry
  import opened Merkle
  import opened Packer
  import opened Reference
  import opened Streams
  import opened Wrappers

  const GPT_SECTOR: nat := 512
  const START_SECTOR: nat := 2048
  const TRAILING_SECTORS: nat := 40
  const PART_OFFSET: nat := 1048576
  const TRAILER: nat := 20480

  /** The sizes encryptEMWP computes in int64 from the size of the plaintext. */
  function EncryptedSize(size: int): int { Wrap64(Quot(Wrap64(size + 4095), 4096) * 4096) }

  function EndSector(size: int): int { Wrap64(Wrap64(START_SECTOR + Quot(EncryptedSize(size), 512)) - 1) }

  function ImageBytes(size: int): int { Wrap64(Wrap64(Wrap64(EndSector(size) + 1) + TRAILING_SECTORS) * 512) }

  /** For every size an int64 can hold, the computed image size is negative, and
      so refused, or none of the computations overflowed: the image is the area
      before the partition, the padded plaintext and the trailer. */
  lemma ImageSizeIsExact(size: nat)
    requires size <= MAX_INT64
    ensures 0 <= ImageBytes(size) <==> PART_OFFSET + 4096 * CeilDiv(size, 4096) + TRAILER <= MAX_INT64
    ensures 0 <= ImageBytes(size) ==>
              && ImageBytes(size) == PART_OFFSET + 4096 * CeilDiv(size, 4096) + TRAILER
              && (EndSector(size) + 1) * GPT_SECTOR == PART_OFFSET + 4096 * CeilDiv(size, 4096)
  {
    var blocks := CeilDiv(size, 4096);
    assert size <= 4096 * blocks < size + 4096;
    if size + 4095 <= MAX_INT64 {
      assert EncryptedSize(size) == 4096 * blocks;
      assert Quot(4096 * blocks, 512) == 8 * blocks;
    } else {
      var low := size + 4095 - 0x1_0000_0000_0000_0000;
      assert Wrap64(size + 4095) == low < 0;
      var q := -low / 4096;
      assert EncryptedSize(size) == -4096 * q;
      assert Quot(-4096 * q, 512) == -8 * q;
    }
  }

  /** The partition of an image over a plaintext of the given length. */
  predicate InPartition(k: nat, size: nat) {
    PART_OFFSET <= k < PART_OFFSET + 4096 * CeilDiv(size, 4096)
  }

  predicate SameOutsidePartition(a: seq<byte>, b: seq<byte>, size: nat) {
    |a| == |b| && forall k: nat | k < |a| && !InPartition(k, size) :: a[k] == b[k]
  }

  predicate ImageFor(img: seq<byte>, size: nat) {
    |img| == PART_OFFSET + 4096 * CeilDiv(size, 4096) + TRAILER
  }

  /** img carries the plaintext artifact mwp under the cipher c. */
  predicate Carries(c: SectorCipher, img: seq<byte>, mwp: seq<byte>) {
    ImageFor(img, |mwp|) && Slice(img, PART_OFFSET, |PadToBlock(mwp)|) == Transform(c, PadToBlock(mwp), 0, false)
  }

  /** The partitioning tool: it may fail and leave anything; where it succeeds it
      has written its tables around the partition. */
  method Sgdisk(img: File, size: nat, works: bool) returns (ok: bool)
    requires ImageFor(img.data, size)
    modifies img
    ensures ok == works
    ensures ok ==> ImageFor(img.data, size)
    ensures ok ==> forall k: nat | k < |img.data| && InPartition(k, size) :: img.data[k] == old(img.data[k])
  {
    var tables: seq<byte> := *;
    ok := works;
    var after := tables;
    if ok {
      var d := img.data;
      after := seq(|d|, k requires 0 <= k < |d| => if InPartition(k, size) then d[k] else ByteAt(tables, k));
    }
    img.data := after;
  }

  /** Opens a file, or a section of one, as a source: its whole content, or what
      comes before a read error. */
  method Open(content: seq<byte>, reliable: bool) returns (r: Reader)
    ensures reliable ==> r.fate == EOF
    ensures fresh(r) && r.rest <= content && (if r.fate == EOF then r.rest == content else r.fate == Broken)
  {
    var patience: nat := *;
    var broken, at := *, *;
    if broken && !reliable && 0 <= at <= |content| {
      r := new Reader(content[..at], Broken, patience);
    } else {
      r := new Reader(content, EOF, patience);
    }
  }

  lemma StretchInPartition(before: seq<byte>, w: seq<byte>, size: nat)
    requires ImageFor(before, size) && |w| <= 4096 * CeilDiv(size, 4096)
    ensures SameOutsidePartition(before, WriteBytes(before, PART_OFFSET, w), size)
  {
  }

  lemma PaddingGrows(n: nat, size: nat)
    requires n <= size
    ensures 4096 * CeilDiv(n, 4096) <= 4096 * CeilDiv(size, 4096)
  {
  }

  /** A complete stream onto a partitioned image makes it carry the source. */
  lemma CompleteCarries(c: SectorCipher, mwp: seq<byte>, before: seq<byte>, after: seq<byte>, written: nat)
    requires Lawful(c) && ImageFor(before, |mwp|)
    requires Delivered(c, mwp, EOF, false, before, PART_OFFSET, after, written, Done)
    ensures Carries(c, after, mwp)
  {
    var out := Transform(c, PadToBlock(mwp), 0, false);
    TransformLength(c, PadToBlock(mwp), 0, false);
    if out != [] {
      ReadBack(before, PART_OFFSET, out);
    }
  }

  /** Streams the encryption of mwp into the partition. Whatever happens, not a
      byte outside the partition changes. */
  method EncryptPayload(img: File, mwp: File, key: seq<byte>, xts: Xts) returns (ok: bool)
    requires LawfulFamily(xts) && img != mwp && ImageFor(img.data, |mwp.data|)
    modifies img
    ensures SameOutsidePartition(old(img.data), img.data, |mwp.data|)
    ensures ok ==> |key| == KEY_BYTES && Carries(xts(key), img.data, mwp.data)
    ensures img.reliable && mwp.reliable && |img.data| <= MAX_INT64 ==> (ok <==> |key| == KEY_BYTES)
  {
    ghost var before := img.data;
    var src := Open(mwp.data, mwp.reliable);
    ghost var d := src.rest;
    var dst := new Writer(img, PART_OFFSET);
    if |key| == KEY_BYTES { WantedLength(xts(key), d, src.fate, false); }
    PaddingGrows(|d|, |mwp.data|);
    var written, outcome := Stream(xts, key, dst, src, false);
    if outcome == BadKey { return false; }
    DeliveredStretch(xts(key), d, src.fate, false, before, PART_OFFSET, img.data, written, outcome);
    ghost var w: seq<byte> :| |w| <= |PadToBlock(d)| && img.data == WriteBytes(before, PART_OFFSET, w);
    StretchInPartition(before, w, |mwp.data|);
    if outcome != Done { return false; }
    CompleteCarries(xts(key), mwp.data, before, img.data, written);
    ok := img.Touch();
  }

  /** Wraps a plaintext artifact into a fresh image, under the key derived for
      its reference. */
  method EncryptEmwp(mwp: File, ref: ArtifactRef, masterKey: seq<byte>, hkdf: (seq<byte>, string) -> seq<byte>,
                     xts: Xts, reliable: bool, sgdiskWorks: bool)
    returns (ok: bool, img: File)
    requires LawfulFamily(xts) && |mwp.data| <= MAX_INT64
    ensures fresh(img)
    ensures reliable && mwp.reliable ==>
              (ok <==> sgdiskWorks && ImageBytes(|mwp.data|) >= 0
                       && DeriveKey(hkdf, masterKey, ref).Ok? && |DeriveKey(hkdf, masterKey, ref).value| == KEY_BYTES)
    ensures ok ==>
              && DeriveKey(hkdf, masterKey, ref).Ok? && |DeriveKey(hkdf, masterKey, ref).value| == KEY_BYTES
              && Carries(xts(DeriveKey(hkdf, masterKey, ref).value), img.data, mwp.data)
  {
    var size := |mwp.data|;
    img := new File([], reliable);
    var key := DeriveKey(hkdf, masterKey, ref);
    if key.Err? { return false, img; }
    ImageSizeIsExact(size);
    ok := img.Truncate(ImageBytes(size));
    if !ok { return; }
    ok := Sgdisk(img, size, sgdiskWorks);
    if !ok { return; }
    ok := EncryptPayload(img, mwp, key.value, xts);
  }

  /** What a section reader over d delivers: n bytes from off, as far as d goes. */
  function Section(d: seq<byte>, off: nat, n: int): seq<byte> {
    if n <= 0 || |d| <= off then [] else d[off..Min(off + n, |d|)]
  }

  /** The ciphertext decryptPayload reads, the image size being what a caller
      found it to be. */
  function Payload(img: seq<byte>, size: int): seq<byte> {
    Section(img, PART_OFFSET, size - PART_OFFSET - TRAILER)
  }

  /** A complete decrypting stream into an empty file. */
  lemma CompleteDecrypts(c: SectorCipher, d: seq<byte>, after: seq<byte>, written: nat)
    requires Delivered(c, d, EOF, true, [], 0, after, written, Done)
    ensures Whole(d) && after == Transform(c, d, 0, true)
  {
    hide CeilDiv, Transform;
    SectorsRoundUp(|d| / 4096);
    assert PadToBlock(d) == d;
  }

  /** Streams the decryption of the payload into plain. */
  method DecryptPayload(img: File, plain: File, size: int, key: seq<byte>, xts: Xts) returns (outcome: Outcome)
    requires LawfulFamily(xts) && img != plain
    modifies plain
    ensures outcome == BadKey <==> |key| != KEY_BYTES
    ensures outcome == NotAligned ==> !Whole(Payload(img.data, size))
    ensures outcome == Done ==>
              Whole(Payload(img.data, size)) && plain.data == Transform(xts(key), Payload(img.data, size), 0, true)
    ensures img.reliable && plain.reliable && |img.data| <= MAX_INT64 - 4096 ==>
              outcome == if |key| != KEY_BYTES then BadKey
                         else if !Whole(Payload(img.data, size)) then NotAligned
                         else Done
  {
    plain.data := [];
    var src := Open(Payload(img.data, size), img.reliable);
    ghost var d := src.rest;
    var dst := new Writer(plain, 0);
    if |key| == KEY_BYTES { WantedLength(xts(key), d, src.fate, true); }
    var written;
    written, outcome := Stream(xts, key, dst, src, true);
    if outcome == Done {
      CompleteDecrypts(xts(key), d, plain.data, written);
      var synced := plain.Touch();
      if !synced { outcome := WriteFailed; }
    }
  }

  /** The way there and back: the payload of an image that carries mwp decrypts
      to mwp with fewer than 4096 zeros appended, and to mwp itself exactly when
      that is a whole number of sectors. */
  lemma RoundTrip(c: SectorCipher, img: seq<byte>, mwp: seq<byte>)
    requires Lawful(c) && Carries(c, img, mwp)
    ensures Whole(Payload(img, |img|))
    ensures Transform(c, Payload(img, |img|), 0, true) == PadToBlock(mwp)
    ensures |PadToBlock(mwp)| < |mwp| + 4096
    ensures Transform(c, Payload(img, |img|), 0, true) == mwp <==> Whole(mwp)
  {
    var padded := PadToBlock(mwp);
    TransformLength(c, padded, 0, false);
    TransformRoundTrip(c, padded, 0, false);
    assert Payload(img, |img|) == Slice(img, PART_OFFSET, |padded|);
    assert Whole(mwp) ==> padded == mwp;
  }

  /** Every finished artifact survives encryption byte for byte. */
  lemma ArtifactRoundTrip(H: Hash, salt: seq<byte>, ref: string, file: seq<byte>, d: seq<byte>, c: SectorCipher,
                          img: seq<byte>)
    requires Vouches(H, salt, ref, file, d) && Lawful(c) && Carries(c, img, file)
    ensures PadToBlock(file) == file && Transform(c, Payload(img, |img|), 0, true) == file
  {
    ArtifactIsWhole(H, salt, ref, file, d);
    assert Whole(file);
    RoundTrip(c, img, file);
  }

  // ---- Encrypting a stored artifact ----

  /** How artifacts are encrypted: what loading the master key gives, which fails
      or is of the right length; HKDF with its fixed output length; the cipher;
      the UUID of the encrypted artifact, a name-based one; and whether the
      partitioning tool works. */
  datatype Vault = Vault(masterKey: Result<seq<byte>>, hkdf: (seq<byte>, string) -> seq<byte>, xts: Xts, uuid: string,
                         sgdiskWorks: bool)
  {
    ghost predicate Valid() {
      && (masterKey.Ok? ==> |masterKey.value| == MASTER_KEY_BYTES)
      && (forall key, salt :: |hkdf(key, salt)| == KEY_BYTES)
      && LawfulFamily(xts) && UuidOk(uuid)
    }

    /** The reference of the encryption of an artifact. */
    function Outer(plain: ArtifactRef): ArtifactRef { plain.(uuid := uuid) }

    function CipherFor(plain: ArtifactRef): SectorCipher
      requires masterKey.Ok?
    {
      xts(hkdf(masterKey.value, ArtifactID(Outer(plain))))
    }

    /** The tool works, and the image of a plaintext of this size can be made. */
    predicate CanSeal(size: nat) { sgdiskWorks && ImageBytes(size) >= 0 }

    /** disk carries mwp under the key of the reference of its encryption. */
    predicate Seals(plain: ArtifactRef, disk: seq<byte>, mwp: seq<byte>) {
      masterKey.Ok? && Carries(CipherFor(plain), disk, mwp)
    }

    /** What follows the first mebibyte of disk and precedes the trailing 20 KiB is
        the artifact, encrypted sector by sector under the key derived for its root
        hash and the UUID of the encryption; and it decrypts to the artifact. */
    ghost predicate Opens(disk: seq<byte>, a: Artifact) {
      && masterKey.Ok? && ParseRef(a.ref).Ok? && |disk| == 1048576 + |a.file| + 20480
      && var c := xts(hkdf(masterKey.value, ParseRef(a.ref).value.rootHash + "_" + uuid));
         && SectorBySector(c, a.file, 0, Slice(disk, 1048576, |a.file|), false)
         && Transform(c, Slice(disk, 1048576, |a.file|), 0, true) == a.file
    }
  }

  /** Encrypts an artifact, of which plain is the reference. */
  method Seal(mwp: File, plain: ArtifactRef, v: Vault, reliable: bool) returns (ok: bool, img: File)
    requires v.Valid() && v.masterKey.Ok? && |mwp.data| <= MAX_INT64
    ensures fresh(img)
    ensures ok ==> v.Seals(plain, img.data, mwp.data)
    ensures reliable && mwp.reliable ==> (ok <==> v.CanSeal(|mwp.data|))
  {
    hide Carries, ImageBytes, LawfulFamily;
    ok, img := EncryptEmwp(mwp, v.Outer(plain), v.masterKey.value, v.hkdf, v.xts, reliable, v.sgdiskWorks);
  }

  /** A genuine artifact that was encrypted comes back byte for byte. */
  lemma SealedOpens(r: Recipe, v: Vault, a: Artifact, disk: seq<byte>)
    requires r.Genuine(a) && v.Valid() && v.Seals(ParseRef(a.ref).value, disk, a.file)
    ensures v.Opens(disk, a)
  {
    hide Vouches, Payload, LawfulFamily, Transform, Whole, ParseRef, SectorBySector, Slice;
    RefParses(r, a);
    var c := v.CipherFor(ParseRef(a.ref).value);
    KeyIsLawful(v, ParseRef(a.ref).value);
    ArtifactRoundTrip(r.H, r.H(r.model), a.ref, a.file, a.image, c, disk);
    PayloadIsSlice(c, disk, a.file);
    ArtifactIsWhole(r.H, r.H(r.model), a.ref, a.file, a.image);
    TransformBySector(c, a.file, 0, false);
  }

  lemma PayloadIsSlice(c: SectorCipher, disk: seq<byte>, file: seq<byte>)
    requires Carries(c, disk, file) && PadToBlock(file) == file
    ensures |disk| == 1048576 + |file| + 20480 && Payload(disk, |disk|) == Slice(disk, 1048576, |file|)
  {
  }

  lemma RefParses(r: Recipe, a: Artifact)
    requires r.Genuine(a)
    ensures ParseRef(a.ref).Ok?
  {
  }

  lemma KeyIsLawful(v: Vault, plain: ArtifactRef)
    requires v.Valid() && v.masterKey.Ok?
    ensures Lawful(v.CipherFor(plain))
  {
  }

  /** The image of an artifact the packer made can always be made. */
  lemma ArtifactFits(r: Recipe, a: Artifact)
    requires r.Genuine(a)
    ensures |a.file| <= MAX_INT64 && ImageBytes(|a.file|) >= 0
  {
    var n := |a.image| / 4096;
    TreeLength(r.H, r.H(r.model), a.image);
    TreeIsSmall(n);
    ImageSizeIsExact(|a.file|);
  }
}
