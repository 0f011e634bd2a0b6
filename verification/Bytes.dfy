/** Bytes, byte ranges and the 64-bit arithmetic shared by every module. */
module Bytes {
  newtype byte = x: int | 0 <= x < 256

  const MAX_INT64: int := 0x7FFF_FFFF_FFFF_FFFF
  const MAX_UINT64: int := 0xFFFF_FFFF_FFFF_FFFF

  function Zeros(n: nat): (z: seq<byte>)
    ensures |z| == n
  {
    seq(n, _ => 0)
  }

  function Min(a: int, b: int): (m: int)
    ensures m == if a < b then a else b
  {
    if a < b then a else b
  }

  function Max(a: int, b: int): int { if a < b then b else a }

  /** Division rounding up, as `ceilDiv` computes it on in-range operands. */
  function CeilDiv(n: nat, d: nat): nat
    requires d > 0
  {
    (n + d - 1) / d
  }

  /** The value a signed 64-bit variable holds after being assigned x. */
  function Wrap64(x: int): (r: int)
    ensures -0x8000_0000_0000_0000 <= r <= MAX_INT64
    ensures -0x8000_0000_0000_0000 <= x <= MAX_INT64 ==> r == x
  {
    (x + 0x8000_0000_0000_0000) % 0x1_0000_0000_0000_0000 - 0x8000_0000_0000_0000
  }

  /** Integer division as Go defines it: the quotient is truncated toward zero. */
  function Quot(a: int, b: int): int
    requires b > 0
  {
    if a >= 0 then a / b else -(-a / b)
  }

  lemma WrapOfWrap(x: int, y: int)
    ensures Wrap64(Wrap64(x) + y) == Wrap64(x + y)
  {
  }

  /** The n bytes of d that start at off. */
  function Slice(d: seq<byte>, off: nat, n: nat): (s: seq<byte>)
    requires off + n <= |d|
    ensures |s| == n
  {
    d[off..off + n]
  }

  /** buf with s stored at off. */
  function Splice(buf: seq<byte>, off: nat, s: seq<byte>): (r: seq<byte>)
    requires off + |s| <= |buf|
    ensures |r| == |buf|
    ensures forall k | 0 <= k < |buf| :: r[k] == if off <= k < off + |s| then s[k - off] else buf[k]
  {
    buf[..off] + s + buf[off + |s|..]
  }

  /** Byte k of a file: a position past the end reads as a hole. */
  function ByteAt(d: seq<byte>, k: nat): byte {
    if k < |d| then d[k] else 0
  }

  /** The content of a file after buf is written at off: a write past the end
      first extends the file with zeros, an empty write changes nothing. */
  function WriteBytes(d: seq<byte>, off: nat, buf: seq<byte>): (r: seq<byte>)
    ensures |r| == if buf == [] then |d| else Max(|d|, off + |buf|)
    ensures forall k: nat | k < |r| ::
              r[k] == if off <= k < off + |buf| then buf[k - off] else ByteAt(d, k)
  {
    if buf == [] then d
    else seq(Max(|d|, off + |buf|),
             k requires 0 <= k => if off <= k < off + |buf| then buf[k - off] else ByteAt(d, k))
  }

  lemma SliceOfSlice(d: seq<byte>, off: nat, n: nat, o: nat, m: nat)
    requires off + n <= |d| && o + m <= n
    ensures Slice(Slice(d, off, n), o, m) == Slice(d, off + o, m)
  {
    var inner, direct := Slice(d, off, n), Slice(d, off + o, m);
    forall k | 0 <= k < m
      ensures Slice(inner, o, m)[k] == direct[k]
    {
      assert inner[o + k] == d[off + (o + k)];
    }
  }

  /** What is stored is read back, and what is beside it reads as before. */
  lemma SpliceInside(buf: seq<byte>, off: nat, s: seq<byte>)
    requires off + |s| <= |buf|
    ensures Slice(Splice(buf, off, s), off, |s|) == s
  {
  }

  lemma SpliceBeside(buf: seq<byte>, off: nat, s: seq<byte>, o: nat, n: nat)
    requires off + |s| <= |buf| && o + n <= |buf| && (o + n <= off || off + |s| <= o)
    ensures Slice(Splice(buf, off, s), o, n) == Slice(buf, o, n)
  {
  }

  lemma ZerosInside(buf: seq<byte>, off: nat, o: nat, n: nat)
    requires off <= o && o + n <= |buf| && buf[off..] == Zeros(|buf| - off)
    ensures Slice(buf, o, n) == Zeros(n)
  {
    forall k | 0 <= k < n
      ensures Slice(buf, o, n)[k] == 0
    {
      assert buf[off..][o - off + k] == buf[o + k];
    }
  }

  /** Nothing but whole blocks. */
  predicate Whole(d: seq<byte>) {
    |d| == 4096 * (|d| / 4096)
  }

  /** d with zeros appended up to a whole number of 4096-byte blocks. */
  function PadToBlock(d: seq<byte>): (r: seq<byte>)
    ensures |r| == 4096 * CeilDiv(|d|, 4096)
  {
    d + Zeros(4096 * CeilDiv(|d|, 4096) - |d|)
  }

  /** Two writes of adjacent ranges, the higher range first, are one write. */
  lemma AdjacentWrites(d: seq<byte>, off: nat, low: seq<byte>, high: seq<byte>)
    requires low != []
    ensures WriteBytes(WriteBytes(d, off + |low|, high), off, low) == WriteBytes(d, off, low + high)
  {
  }

  lemma EmptyWrite(d: seq<byte>, off: nat)
    ensures WriteBytes(d, off, []) == d
  {
  }

  /** Two writes one after the other, the second where the first ends. */
  lemma AppendedWrites(d: seq<byte>, off: nat, a: seq<byte>, b: seq<byte>)
    ensures WriteBytes(WriteBytes(d, off, a), off + |a|, b) == WriteBytes(d, off, a + b)
  {
    hide WriteBytes;
    if b == [] {
      EmptyWrite(WriteBytes(d, off, a), off + |a|);
      assert a + b == a;
    } else if a == [] {
      EmptyWrite(d, off);
      assert a + b == b;
    } else {
      AppendedNonempty(d, off, a, b);
    }
  }

  lemma AppendedNonempty(d: seq<byte>, off: nat, a: seq<byte>, b: seq<byte>)
    requires a != [] && b != []
    ensures WriteBytes(WriteBytes(d, off, a), off + |a|, b) == WriteBytes(d, off, a + b)
  {
  }

  /** A write is read back, and a range it does not meet reads as before. */
  lemma ReadBack(d: seq<byte>, off: nat, buf: seq<byte>)
    requires buf != []
    ensures Slice(WriteBytes(d, off, buf), off, |buf|) == buf
  {
  }

  lemma ReadElsewhere(d: seq<byte>, off: nat, buf: seq<byte>, o: nat, n: nat)
    requires o + n <= |d|
    requires o + n <= off || off + |buf| <= o
    ensures Slice(WriteBytes(d, off, buf), o, n) == Slice(d, o, n)
  {
  }

  /** Little-endian encoding of v in n bytes. */
  function LittleEndian(v: nat, n: nat): (s: seq<byte>)
    ensures |s| == n
  {
    if n == 0 then [] else [(v % 256) as byte] + LittleEndian(v / 256, n - 1)
  }

  function FromLittleEndian(s: seq<byte>): nat {
    if s == [] then 0 else s[0] as int + 256 * FromLittleEndian(s[1..])
  }

  function Pow256(n: nat): (p: nat)
    ensures p > 0
  {
    if n == 0 then 1 else 256 * Pow256(n - 1)
  }

  lemma PowersOf256()
    ensures Pow256(2) == 0x1_0000 && Pow256(4) == 0x1_0000_0000 && Pow256(8) == 0x1_0000_0000_0000_0000
  {
    assert Pow256(2) == 256 * Pow256(1) == 0x1_0000;
    assert Pow256(4) == 256 * Pow256(3) == 0x1_0000 * Pow256(2);
    assert Pow256(6) == 256 * Pow256(5) == 0x1_0000 * Pow256(4);
    assert Pow256(8) == 256 * Pow256(7) == 0x1_0000 * Pow256(6);
  }

  lemma {:induction false} LittleEndianRoundTrip(v: nat, n: nat)
    requires v < Pow256(n)
    ensures FromLittleEndian(LittleEndian(v, n)) == v
  {
    if n > 0 {
      assert v / 256 < Pow256(n - 1);
      LittleEndianRoundTrip(v / 256, n - 1);
      assert LittleEndian(v, n)[1..] == LittleEndian(v / 256, n - 1);
    }
  }
}
