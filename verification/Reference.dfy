/** The artifact reference rootHash_hashOffset_uuid: its grammar, its printing,
    and the numbers and digests in it. */
module Reference {
  import opened Bytes
  import opened Wrappers

  datatype ArtifactRef = ArtifactRef(rootHash: string, hashOffset: string, uuid: string)

  // ---- Splitting and joining at underscores ----

  function Split(s: string, sep: char): (parts: seq<string>)
    ensures |parts| > 0
  {
    if s == "" then [""]
    else
      var rest := Split(s[1..], sep);
      if s[0] == sep then [""] + rest else [[s[0]] + rest[0]] + rest[1..]
  }

  function Join(parts: seq<string>, sep: char): string
    requires |parts| > 0
  {
    if |parts| == 1 then parts[0] else parts[0] + [sep] + Join(parts[1..], sep)
  }

  lemma {:induction false} JoinSplit(s: string, sep: char)
    ensures Join(Split(s, sep), sep) == s
  {
    if s != "" {
      JoinSplit(s[1..], sep);
      var rest := Split(s[1..], sep);
      if s[0] == sep {
        assert ([""] + rest)[1..] == rest;
      } else {
        var parts := [[s[0]] + rest[0]] + rest[1..];
        assert parts[1..] == rest[1..];
        assert Join(parts, sep) == [s[0]] + Join(rest, sep);
      }
    }
  }

  lemma {:induction false} SplitPart(part: string, sep: char)
    requires sep !in part
    ensures Split(part, sep) == [part]
  {
    if part != "" {
      SplitPart(part[1..], sep);
      assert [part[0]] + part[1..] == part;
    }
  }

  lemma {:induction false} SplitHead(part: string, rest: string, sep: char)
    requires sep !in part
    ensures Split(part + [sep] + rest, sep) == [part] + Split(rest, sep)
  {
    var s := part + [sep] + rest;
    if part == "" {
      assert s[1..] == rest;
    } else {
      assert s[1..] == part[1..] + [sep] + rest;
      SplitHead(part[1..], rest, sep);
      var tail := [part[1..]] + Split(rest, sep);
      assert tail[1..] == Split(rest, sep) && [s[0]] + tail[0] == part;
    }
  }

  // ---- The reference grammar ----

  predicate IsLowerHex(c: char) { '0' <= c <= '9' || 'a' <= c <= 'f' }

  predicate IsDigit(c: char) { '0' <= c <= '9' }

  predicate RootHashOk(s: string) {
    |s| == 64 && forall i | 0 <= i < |s| :: IsLowerHex(s[i])
  }

  predicate HashOffsetOk(s: string) {
    |s| > 0 && forall i | 0 <= i < |s| :: IsDigit(s[i])
  }

  predicate UuidOk(s: string) {
    |s| == 36 && forall i | 0 <= i < |s| :: if i in {8, 13, 18, 23} then s[i] == '-' else IsLowerHex(s[i])
  }

  predicate AllHex(s: string, n: nat) {
    |s| == n && forall i | 0 <= i < |s| :: '0' <= s[i] <= '9' || 'a' <= s[i] <= 'f'
  }

  /** A UUID is five groups of 8, 4, 4, 4 and 12 lower-case hex digits, joined by
      hyphens. */
  lemma UuidGroups(s: string)
    ensures UuidOk(s) <==>
              exists a, b, c, d, e ::
                && AllHex(a, 8) && AllHex(b, 4) && AllHex(c, 4) && AllHex(d, 4) && AllHex(e, 12)
                && s == a + "-" + b + "-" + c + "-" + d + "-" + e
  {
    if UuidOk(s) {
      assert s == s[..8] + "-" + s[9..13] + "-" + s[14..18] + "-" + s[19..23] + "-" + s[24..];
      assert AllHex(s[..8], 8) && AllHex(s[9..13], 4) && AllHex(s[14..18], 4) && AllHex(s[19..23], 4);
      assert AllHex(s[24..], 12);
    }
  }

  predicate Valid(r: ArtifactRef) {
    RootHashOk(r.rootHash) && HashOffsetOk(r.hashOffset) && UuidOk(r.uuid)
  }

  function ToString(r: ArtifactRef): string {
    r.rootHash + "_" + r.hashOffset + "_" + r.uuid
  }

  function ParseRef(ref: string): Result<ArtifactRef> {
    var parts := Split(ref, '_');
    if |parts| != 3 then Err
    else
      var r := ArtifactRef(parts[0], parts[1], parts[2]);
      if !RootHashOk(r.rootHash) then Err
      else if !HashOffsetOk(r.hashOffset) then Err
      else if !UuidOk(r.uuid) then Err
      else Ok(r)
  }

  /** What parses prints back unchanged, and only valid references parse. */
  lemma ParseThenPrint(s: string)
    ensures ParseRef(s).Ok? ==> Valid(ParseRef(s).value) && ToString(ParseRef(s).value) == s
  {
    var parts := Split(s, '_');
    if |parts| == 3 {
      JoinSplit(s, '_');
      assert Join(parts[2..], '_') == parts[2];
      assert Join(parts[1..], '_') == parts[1] + ['_'] + parts[2];
      assert Join(parts, '_') == parts[0] + ['_'] + Join(parts[1..], '_');
    }
  }

  /** Exactly the valid references survive printing and parsing. */
  lemma PrintThenParse(r: ArtifactRef)
    ensures Valid(r) <==> ParseRef(ToString(r)) == Ok(r)
  {
    if Valid(r) {
      assert '_' !in r.rootHash && '_' !in r.hashOffset && '_' !in r.uuid;
      var tail := r.hashOffset + ['_'] + r.uuid;
      assert ToString(r) == r.rootHash + ['_'] + tail;
      SplitHead(r.rootHash, tail, '_');
      SplitHead(r.hashOffset, r.uuid, '_');
      SplitPart(r.uuid, '_');
    }
  }

  predicate AllDigits(s: string) {
    |s| >= 1 && forall i | 0 <= i < |s| :: '0' <= s[i] <= '9'
  }

  /** The grammar, exactly: 64 lower-case hex digits, a number, and a UUID, joined
      by underscores. */
  lemma ParsesExactly(s: string)
    ensures ParseRef(s).Ok? <==>
              exists a, b, c :: AllHex(a, 64) && AllDigits(b) && UuidOk(c) && s == a + "_" + b + "_" + c
  {
    ParseThenPrint(s);
    if ParseRef(s).Ok? {
      var r := ParseRef(s).value;
      assert AllHex(r.rootHash, 64) && AllDigits(r.hashOffset);
    } else if a, b, c :| AllHex(a, 64) && AllDigits(b) && UuidOk(c) && s == a + "_" + b + "_" + c {
      PrintThenParse(ArtifactRef(a, b, c));
    }
  }

  // ---- The artifact identity and the key bound to it ----

  function ArtifactID(r: ArtifactRef): string {
    r.rootHash + "_" + r.uuid
  }

  /** The identity tells artifacts apart by root hash and UUID, and by nothing
      else: the hash offset is not part of it. */
  lemma IdentityIsRootAndUuid(a: ArtifactRef, b: ArtifactRef)
    requires Valid(a) && Valid(b)
    ensures ArtifactID(a) == ArtifactID(b) <==> a.rootHash == b.rootHash && a.uuid == b.uuid
  {
    assert ArtifactID(a)[..64] == a.rootHash && ArtifactID(a)[65..] == a.uuid;
    assert ArtifactID(b)[..64] == b.rootHash && ArtifactID(b)[65..] == b.uuid;
  }

  /** It splits back into the two, in that order. */
  lemma IdentitySplits(r: ArtifactRef)
    requires Valid(r)
    ensures Split(ArtifactID(r), '_') == [r.rootHash, r.uuid]
  {
    assert '_' !in r.rootHash && '_' !in r.uuid;
    assert ArtifactID(r) == r.rootHash + ['_'] + r.uuid;
    SplitHead(r.rootHash, r.uuid, '_');
    SplitPart(r.uuid, '_');
  }

  const MASTER_KEY_BYTES: nat := 64

  /** The key of one artifact; hkdf stands for HKDF-SHA256 with the fixed info
      string and output length. */
  function DeriveKey(hkdf: (seq<byte>, string) -> seq<byte>, masterKey: seq<byte>, r: ArtifactRef): Result<seq<byte>> {
    if |masterKey| != MASTER_KEY_BYTES then Err else Ok(hkdf(masterKey, ArtifactID(r)))
  }

  /** A key is had from exactly the 64-byte master keys, salted with root hash and
      UUID of the reference. */
  lemma KeyIsBound(hkdf: (seq<byte>, string) -> seq<byte>, masterKey: seq<byte>, r: ArtifactRef)
    ensures DeriveKey(hkdf, masterKey, r).Ok? <==> |masterKey| == 64
    ensures |masterKey| == 64 ==> DeriveKey(hkdf, masterKey, r).value == hkdf(masterKey, r.rootHash + "_" + r.uuid)
  {
  }

  // ---- The hash offset field ----

  function DigitValue(c: char): nat
    requires IsDigit(c)
  {
    c as int - '0' as int
  }

  function Digit(d: nat): char
    requires d < 10
  {
    ('0' as int + d) as char
  }

  /** The number a string of digits denotes. */
  function Number(s: string): nat
    requires forall i | 0 <= i < |s| :: IsDigit(s[i])
  {
    if s == "" then 0 else 10 * Number(s[..|s| - 1]) + DigitValue(s[|s| - 1])
  }

  /** Parsing as uint64: no sign, no separators, no value past 2^64-1. */
  function HashOffsetBytes(r: ArtifactRef): Result<nat> {
    if !HashOffsetOk(r.hashOffset) then Err
    else if Number(r.hashOffset) > MAX_UINT64 then Err
    else Ok(Number(r.hashOffset))
  }

  /** An offset is had from exactly the digit strings that denote a uint64. */
  lemma OffsetsAreUint64(r: ArtifactRef)
    ensures HashOffsetBytes(r).Ok? <==> AllDigits(r.hashOffset) && Number(r.hashOffset) <= 0xFFFF_FFFF_FFFF_FFFF
    ensures HashOffsetBytes(r).Ok? ==> HashOffsetBytes(r).value == Number(r.hashOffset)
  {
    assert AllDigits(r.hashOffset) <==> HashOffsetOk(r.hashOffset);
  }

  function Decimal(n: nat): (s: string)
    ensures HashOffsetOk(s)
  {
    if n < 10 then [Digit(n)] else Decimal(n / 10) + [Digit(n % 10)]
  }

  lemma {:induction false} DecimalRoundTrip(n: nat)
    ensures Number(Decimal(n)) == n
  {
    if n < 10 {
      assert Decimal(n)[..0] == "";
    } else {
      DecimalRoundTrip(n / 10);
      var s := Decimal(n);
      assert s[..|s| - 1] == Decimal(n / 10);
    }
  }

  /** The grammar lets leading zeros through, so references are not canonical:
      a valid reference can be given another spelling that parses and denotes
      the same offset. */
  lemma LeadingZeros(r: ArtifactRef)
    requires Valid(r)
    ensures var z := r.(hashOffset := "0" + r.hashOffset);
            z != r && Valid(z) && HashOffsetBytes(z) == HashOffsetBytes(r)
  {
    ZeroInFront(r.hashOffset);
    assert |("0" + r.hashOffset)| != |r.hashOffset|;
  }

  lemma {:induction false} ZeroInFront(s: string)
    requires forall i | 0 <= i < |s| :: IsDigit(s[i])
    ensures Number("0" + s) == Number(s)
  {
    var z := "0" + s;
    if s == "" {
      assert z[..0] == "";
    } else {
      ZeroInFront(s[..|s| - 1]);
      assert z[..|z| - 1] == "0" + s[..|s| - 1];
    }
  }

  // ---- The root hash field ----

  function HexDigit(d: nat): (c: char)
    requires d < 16
    ensures IsLowerHex(c)
  {
    if d < 10 then Digit(d) else ('a' as int + (d - 10)) as char
  }

  function HexValue(c: char): nat
    requires IsLowerHex(c)
  {
    if c <= '9' then DigitValue(c) else c as int - 'a' as int + 10
  }

  function HexEncode(d: seq<byte>): (s: string)
    ensures |s| == 2 * |d| && forall i | 0 <= i < |s| :: IsLowerHex(s[i])
  {
    if d == [] then ""
    else [HexDigit(d[0] as int / 16), HexDigit(d[0] as int % 16)] + HexEncode(d[1..])
  }

  function HexDecode(s: string): seq<byte>
    requires |s| % 2 == 0 && forall i | 0 <= i < |s| :: IsLowerHex(s[i])
    ensures |HexDecode(s)| == |s| / 2
  {
    if s == "" then []
    else [(16 * HexValue(s[0]) + HexValue(s[1])) as byte] + HexDecode(s[2..])
  }

  lemma {:induction false} HexRoundTrip(d: seq<byte>)
    ensures HexDecode(HexEncode(d)) == d
  {
    if d != [] {
      HexRoundTrip(d[1..]);
      assert HexEncode(d)[2..] == HexEncode(d[1..]);
    }
  }
}
