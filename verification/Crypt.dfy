/** Sector encryption, whole-buffer and streamed. The cipher is any keyed family
    of length-preserving bijections on 4096-byte sectors, indexed by the IV. */
module Crypt {
  import opened Bytes
  import opened Wrappers

  datatype SectorCipher = SectorCipher(enc: (seq<byte>, nat) -> seq<byte>, dec: (seq<byte>, nat) -> seq<byte>)

  /** All that is used of XTS: for every IV the two directions are inverse to
      each other on sectors. */
  ghost predicate Lawful(c: SectorCipher) {
    forall s: seq<byte>, iv: nat | |s| == 4096 :: LawfulAt(c, s, iv)
  }

  predicate LawfulAt(c: SectorCipher, s: seq<byte>, iv: nat) {
    && |c.enc(s, iv)| == 4096 && c.dec(c.enc(s, iv), iv) == s
    && |c.dec(s, iv)| == 4096 && c.enc(c.dec(s, iv), iv) == s
  }

  function Rotate(s: seq<byte>, shift: int): (r: seq<byte>)
    ensures |r| == |s|
  {
    seq(|s|, i requires 0 <= i < |s| => ((s[i] as int + shift) % 256) as byte)
  }

  /** The laws can be met: rotating every byte by the IV is a lawful cipher. */
  const ROTATION: SectorCipher := SectorCipher((s, iv) => Rotate(s, iv), (s, iv) => Rotate(s, -(iv as int)))

  lemma RotationIsLawful()
    ensures Lawful(ROTATION)
  {
    forall s: seq<byte>, iv: nat | |s| == 4096
      ensures LawfulAt(ROTATION, s, iv)
    {
      RotateBack(s, iv);
      RotateBack(s, -(iv as int));
    }
  }

  lemma SameRest(b: int, q: int)
    requires 0 <= b < 256
    ensures (b - 256 * q) % 256 == b
  {
  }

  lemma ByteBack(b: int, shift: int)
    requires 0 <= b < 256
    ensures ((b + shift) % 256 - shift) % 256 == b
  {
    var q := (b + shift) / 256;
    SameRest(b, q);
    assert (b + shift) % 256 - shift == b - 256 * q;
  }

  lemma RotateBack(s: seq<byte>, shift: int)
    ensures Rotate(Rotate(s, shift), -shift) == s
  {
    forall i | 0 <= i < |s|
      ensures Rotate(Rotate(s, shift), -shift)[i] == s[i]
    {
      ByteBack(s[i] as int, shift);
    }
  }

  /** The IV of a sector: plain64 counts 512-byte sectors, in uint64. */
  function Iv(unit: nat): nat {
    unit * 8 % 0x1_0000_0000_0000_0000
  }

  /** No two sectors of a volume below 2^61 sectors share an IV. */
  lemma IvsAreDistinct(u: nat, v: nat)
    requires u < 0x2000_0000_0000_0000 && v < 0x2000_0000_0000_0000
    ensures Iv(u) == Iv(v) ==> u == v
  {
  }

  function Sector(c: SectorCipher, s: seq<byte>, unit: nat, decrypt: bool): seq<byte> {
    if decrypt then c.dec(s, Iv(unit)) else c.enc(s, Iv(unit))
  }

  /** The whole-buffer form: sector i of d is data unit base + i. */
  function Transform(c: SectorCipher, d: seq<byte>, base: nat, decrypt: bool): seq<byte>
    decreases |d|
  {
    if |d| < 4096 then []
    else Sector(c, d[..4096], base, decrypt) + Transform(c, d[4096..], base + 1, decrypt)
  }

  lemma {:induction false} TransformLength(c: SectorCipher, d: seq<byte>, base: nat, decrypt: bool)
    requires Lawful(c) && Whole(d)
    ensures |Transform(c, d, base, decrypt)| == |d|
    decreases |d|
  {
    if d != [] {
      assert LawfulAt(c, d[..4096], Iv(base));
      TransformLength(c, d[4096..], base + 1, decrypt);
    }
  }

  /** Sectors are independent of each other: a buffer can be cut anywhere
      between two of them. */
  lemma {:induction false} TransformConcat(c: SectorCipher, a: seq<byte>, b: seq<byte>, base: nat, decrypt: bool)
    requires Whole(a)
    ensures Transform(c, a + b, base, decrypt)
         == Transform(c, a, base, decrypt) + Transform(c, b, base + |a| / 4096, decrypt)
    decreases |a|
  {
    if a == [] {
      assert a + b == b;
    } else {
      TransformConcat(c, a[4096..], b, base + 1, decrypt);
      assert (a + b)[..4096] == a[..4096] && (a + b)[4096..] == a[4096..] + b;
      assert base + |a| / 4096 == base + 1 + |a[4096..]| / 4096;
    }
  }

  lemma FirstSector(c: SectorCipher, s: seq<byte>, unit: nat, decrypt: bool)
    requires Lawful(c) && |s| == 4096
    ensures var iv := 8 * unit % 0x1_0000_0000_0000_0000;
            |Sector(c, s, unit, decrypt)| == 4096
            && Sector(c, s, unit, decrypt) == if decrypt then c.dec(s, iv) else c.enc(s, iv)
  {
    assert LawfulAt(c, s, Iv(unit));
  }

  /** Sector i of the output is what the cipher makes of sector i of the input, in
      the wanted direction and under the number of its first 512-byte sector,
      which as a uint64 is exact below 2^61 sectors. */
  lemma {:induction false} SectorAt(c: SectorCipher, d: seq<byte>, base: nat, decrypt: bool, i: nat)
    requires Lawful(c) && Whole(d) && i < |d| / 4096
    ensures |Transform(c, d, base, decrypt)| == |d|
    ensures var iv, s := 8 * (base + i) % 0x1_0000_0000_0000_0000, Slice(d, 4096 * i, 4096);
            && Slice(Transform(c, d, base, decrypt), 4096 * i, 4096) == (if decrypt then c.dec(s, iv) else c.enc(s, iv))
            && (base + i < 0x2000_0000_0000_0000 ==> iv == 8 * (base + i))
    decreases i
  {
    hide Lawful, Sector;
    var first, rest := d[..4096], d[4096..];
    FirstSector(c, first, base, decrypt);
    TransformLength(c, d, base, decrypt);
    var t := Transform(c, d, base, decrypt);
    if i == 0 {
      assert Slice(d, 0, 4096) == first && Slice(t, 0, 4096) == t[..4096];
    } else {
      SectorAt(c, rest, base + 1, decrypt, i - 1);
      assert t[4096..] == Transform(c, rest, base + 1, decrypt);
      SliceOfSlice(d, 4096, |d| - 4096, 4096 * (i - 1), 4096);
      SliceOfSlice(t, 4096, |d| - 4096, 4096 * (i - 1), 4096);
      assert Slice(d, 4096, |d| - 4096) == rest && Slice(t, 4096, |d| - 4096) == t[4096..];
    }
  }

  /** out is d, sector by sector through the cipher, the first with the IV 8 * base
      and each with an IV 8 further than the one before. */
  ghost predicate SectorBySector(c: SectorCipher, d: seq<byte>, base: nat, out: seq<byte>, decrypt: bool) {
    && |out| == |d|
    && forall i: nat | 4096 * i + 4096 <= |d| && base + i < 0x2000_0000_0000_0000 ::
         var s, iv := Slice(d, 4096 * i, 4096), 8 * (base + i);
         Slice(out, 4096 * i, 4096) == if decrypt then c.dec(s, iv) else c.enc(s, iv)
  }

  lemma TransformBySector(c: SectorCipher, d: seq<byte>, base: nat, decrypt: bool)
    requires Lawful(c) && Whole(d)
    ensures SectorBySector(c, d, base, Transform(c, d, base, decrypt), decrypt)
  {
    hide Lawful, Transform, Slice;
    TransformLength(c, d, base, decrypt);
    forall i: nat | 4096 * i + 4096 <= |d| && base + i < 0x2000_0000_0000_0000
      ensures var s, iv := Slice(d, 4096 * i, 4096), 8 * (base + i);
              Slice(Transform(c, d, base, decrypt), 4096 * i, 4096) == if decrypt then c.dec(s, iv) else c.enc(s, iv)
    {
      SectorAt(c, d, base, decrypt, i);
    }
  }

  /** Each direction undoes the other. */
  lemma {:induction false} TransformRoundTrip(c: SectorCipher, d: seq<byte>, base: nat, decrypt: bool)
    requires Lawful(c) && Whole(d)
    ensures Transform(c, Transform(c, d, base, decrypt), base, !decrypt) == d
    decreases |d|
  {
    if d != [] {
      var first, rest := d[..4096], d[4096..];
      TransformRoundTrip(c, rest, base + 1, decrypt);
      var sector := Sector(c, first, base, decrypt);
      assert LawfulAt(c, first, Iv(base));
      var t := Transform(c, d, base, decrypt);
      assert |sector| == 4096 && t[..4096] == sector && t[4096..] == Transform(c, rest, base + 1, decrypt);
      assert Sector(c, sector, base, !decrypt) == first;
    }
  }

  /** One sector of a buffer, in place. */
  method SectorInPlace(c: SectorCipher, buf: array<byte>, off: nat, unit: nat, decrypt: bool)
    requires off + 4096 <= buf.Length && Lawful(c)
    modifies buf
    ensures buf[off..off + 4096] == Sector(c, old(buf[off..off + 4096]), unit, decrypt)
    ensures buf[..off] == old(buf[..off]) && buf[off + 4096..] == old(buf[off + 4096..])
  {
    var s := Sector(c, buf[off..off + 4096], unit, decrypt);
    assert |s| == 4096 by { assert LawfulAt(c, buf[off..off + 4096], Iv(unit)); }
    forall k | 0 <= k < 4096 { buf[off + k] := s[k]; }
    forall k | off <= k < off + 4096 ensures buf[k] == s[k - off] {
      assert buf[off + (k - off)] == s[k - off];
    }
    assert buf[off..off + 4096] == s;
  }

  /** The first off bytes of a buffer are through, the rest are as they were. */
  ghost predicate SectorsDone(c: SectorCipher, before: seq<byte>, now: seq<byte>, off: nat, base: nat, decrypt: bool) {
    && off == 4096 * (off / 4096) && off <= |now| == |before|
    && now[..off] == Transform(c, before[..off], base, decrypt) && now[off..] == before[off..]
  }

  lemma SectorDone(c: SectorCipher, before: seq<byte>, now: seq<byte>, after: seq<byte>, off: nat, base: nat,
                   decrypt: bool)
    requires SectorsDone(c, before, now, off, base, decrypt) && off + 4096 <= |before| == |after|
    requires after[..off] == now[..off] && after[off + 4096..] == now[off + 4096..]
    requires after[off..off + 4096] == Sector(c, now[off..off + 4096], base + off / 4096, decrypt)
    ensures SectorsDone(c, before, after, off + 4096, base, decrypt)
  {
    var last := before[off..off + 4096];
    assert last == now[off..off + 4096] by { assert now[off..][..4096] == before[off..][..4096]; }
    assert before[..off + 4096] == before[..off] + last;
    TransformConcat(c, before[..off], last, base, decrypt);
    assert last[..4096] == last && Transform(c, last[4096..], base + off / 4096 + 1, decrypt) == [];
    assert after[..off + 4096] == after[..off] + after[off..off + 4096];
    assert now[off..][4096..] == now[off + 4096..] && before[off..][4096..] == before[off + 4096..];
  }

  lemma NoSectorDone(c: SectorCipher, before: seq<byte>, base: nat, decrypt: bool)
    ensures SectorsDone(c, before, before, 0, base, decrypt)
  {
    assert before[..0] == [];
  }

  lemma AllSectorsDone(c: SectorCipher, before: seq<byte>, now: seq<byte>, n: nat, base: nat, decrypt: bool)
    requires SectorsDone(c, before, now, n, base, decrypt)
    ensures n <= |now| == |before| && Whole(before[..n])
    ensures now[..n] == Transform(c, before[..n], base, decrypt) && now[n..] == before[n..]
  {
  }

  lemma OneMoreSector(off: nat, n: nat)
    requires off < n && off % 4096 == 0 && n % 4096 == 0
    ensures off + 4096 <= n && (off + 4096) % 4096 == 0
  {
  }

  /** Encrypts or decrypts the first n bytes of a buffer in place. */
  method TransformInPlace(c: SectorCipher, buf: array<byte>, n: nat, baseUnit: nat, decrypt: bool)
    requires n <= buf.Length && n % 4096 == 0
    requires Lawful(c)
    modifies buf
    ensures buf[..n] == Transform(c, old(buf[..n]), baseUnit, decrypt)
    ensures SectorBySector(c, old(buf[..n]), baseUnit, buf[..n], decrypt)
    ensures buf[n..] == old(buf[n..])
  {
    hide *;
    ghost var before := buf[..];
    var off := 0;
    NoSectorDone(c, before, baseUnit, decrypt);
    while off < n
      invariant 0 <= off <= n && off % 4096 == 0
      invariant SectorsDone(c, before, buf[..], off, baseUnit, decrypt)
    {
      OneMoreSector(off, n);
      ghost var now := buf[..];
      assert buf[off..off + 4096] == now[off..off + 4096];
      SectorInPlace(c, buf, off, baseUnit + off / 4096, decrypt);
      assert buf[..off] == buf[..][..off] && buf[off + 4096..] == buf[..][off + 4096..];
      SectorDone(c, before, now, buf[..], off, baseUnit, decrypt);
      off := off + 4096;
    }
    AllSectorsDone(c, before, buf[..], n, baseUnit, decrypt);
    TransformBySector(c, before[..n], baseUnit, decrypt);
    assert before[..n] == old(buf[..n]) && buf[..][..n] == buf[..n] && buf[..][n..] == buf[n..];
  }

  // ---- Keys and the in-memory form ----

  type Xts = seq<byte> -> SectorCipher

  const KEY_BYTES: nat := 64

  ghost predicate LawfulFamily(xts: Xts) {
    forall key: seq<byte> | |key| == KEY_BYTES :: Lawful(xts(key))
  }

  function NewCipher(xts: Xts, key: seq<byte>): Result<SectorCipher> {
    if |key| != KEY_BYTES then Err else Ok(xts(key))
  }

  method InMemory(xts: Xts, key: seq<byte>, input: seq<byte>, decrypt: bool) returns (r: Result<seq<byte>>)
    requires LawfulFamily(xts)
    ensures r.Ok? <==> |input| % 4096 == 0 && |key| == 64
    ensures r.Ok? ==> r.value == Transform(xts(key), input, 0, decrypt)
    ensures r.Ok? ==> SectorBySector(xts(key), input, 0, r.value, decrypt)
  {
    if |input| % 4096 != 0 { return Err; }
    var c := NewCipher(xts, key);
    if c.Err? { return Err; }
    var out := new byte[|input|](i requires 0 <= i < |input| => input[i]);
    assert out[..|input|] == input;
    TransformInPlace(c.value, out, |input|, 0, decrypt);
    assert out[..] == out[..|input|];
    return Ok(out[..]);
  }
}
