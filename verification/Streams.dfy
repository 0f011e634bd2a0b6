/** Streamed encryption: a source that delivers its content in any pieces, a
    destination inside a file, and the chunked loop between them. */
module Streams {
  import opened Bytes
  import opened Crypt
  import opened Files
  import opened Wrappers

  datatype ReadError = EOF | UnexpectedEOF | Broken

  /** What a source reports once its content is exhausted. */
  type Fate = ReadError

  /** A byte source. It may deliver any nonempty or empty piece of what is left,
      report its end together with the last bytes or later, and use the rest of
      the buffer it is given as scratch space; empty reads are finitely many. */
  class Reader {
    const fate: Fate
    var rest: seq<byte>
    var patience: nat

    constructor (content: seq<byte>, fate: Fate, patience: nat)
      ensures this.rest == content && this.fate == fate && this.patience == patience
    {
      this.rest, this.fate, this.patience := content, fate, patience;
    }

    method Read(buf: array<byte>, at: nat) returns (k: nat, err: Option<ReadError>)
      requires at < buf.Length
      modifies this, buf
      ensures at + k <= buf.Length && k <= |old(rest)| && rest == old(rest)[k..]
      ensures buf[..at] == old(buf[..at]) && buf[at..at + k] == old(rest)[..k]
      ensures err.Some? ==> rest == [] && err.value == fate
      ensures patience <= old(patience)
      ensures err.None? && k == 0 ==> patience < old(patience)
    {
      var empty := *;
      if empty && patience > 0 {
        k, patience := 0, patience - 1;
      } else if rest == [] {
        k := 0;
      } else {
        k :| 0 < k <= |rest| && k <= buf.Length - at;
      }
      forall i | 0 <= i < k { buf[at + i] := rest[i]; }
      assert buf[at..at + k] == rest[..k];
      var early := *;
      err := if k == |rest| && (early || k == 0) then Some(fate) else None;
      rest := rest[k..];
    }
  }

  /** Fills buf from src as far as the content reaches. */
  method ReadFull(src: Reader, buf: array<byte>) returns (n: nat, err: Option<ReadError>)
    requires buf.Length > 0
    modifies src, buf
    ensures n == Min(buf.Length, |old(src.rest)|)
    ensures src.rest == old(src.rest)[n..] && buf[..n] == old(src.rest)[..n]
    ensures err == if n == buf.Length then None
                   else if n > 0 && src.fate == EOF then Some(UnexpectedEOF)
                   else Some(src.fate)
    ensures src.patience <= old(src.patience)
  {
    ghost var content := src.rest;
    n, err := 0, None;
    while n < buf.Length && err == None
      invariant n <= buf.Length && n <= |content|
      invariant src.rest == content[n..] && buf[..n] == content[..n]
      invariant err.Some? ==> src.rest == [] && err.value == src.fate
      invariant src.patience <= old(src.patience)
      decreases |src.rest| + src.patience, if err == None then 1 else 0
    {
      var k;
      ghost var had := src.rest;
      k, err := src.Read(buf, n);
      assert buf[..n + k] == buf[..n] + buf[n..n + k];
      assert content[..n + k] == content[..n] + had[..k];
      n := n + k;
    }
    if n == buf.Length {
      err := None;
    } else if n > 0 && err == Some(EOF) {
      err := Some(UnexpectedEOF);
    }
  }

  /** Sequential writes into a file, starting at a fixed offset. */
  class Writer {
    const f: File
    const base: nat
    var pos: nat

    constructor (f: File, base: nat)
      ensures this.f == f && this.base == base && pos == 0
    {
      this.f, this.base, pos := f, base, 0;
    }

    /** A failed write leaves some of the bytes written. */
    method Write(p: seq<byte>) returns (ok: bool)
      modifies this, f
      ensures ok ==> pos == old(pos) + |p| && f.data == WriteBytes(old(f.data), base + old(pos), p)
      ensures f.reliable && base + old(pos) + |p| <= MAX_INT64 ==> ok
      ensures !ok ==>
                && pos == old(pos)
                && exists m: nat :: m <= |p| && f.data == WriteBytes(old(f.data), base + old(pos), p[..m])
    {
      ok := f.WriteAt(base + pos, p);
      if ok {
        pos := pos + |p|;
      } else if f.data == old(f.data) {
        assert f.data == WriteBytes(old(f.data), base + pos, p[..0]);
      }
    }
  }

  const CHUNK: nat := 4194304

  /** k bytes are a number of whole chunks. */
  predicate AtChunk(k: nat) {
    k == CHUNK * (k / CHUNK)
  }

  lemma ChunkSteps(k: nat)
    requires AtChunk(k)
    ensures AtChunk(k + CHUNK) && k % 4096 == 0 && (k + CHUNK) % 4096 == 0
              && (k + CHUNK) / 4096 == k / 4096 + CHUNK / 4096
  {
    assert (k + CHUNK) / CHUNK == k / CHUNK + 1;
    assert k == 4096 * (1024 * (k / CHUNK));
  }

  /** After k bytes the next data unit is the given one. */
  predicate UnitAt(k: nat, unit: nat) {
    unit == k / 4096
  }

  lemma UnitSteps(k: nat, unit: nat)
    requires AtChunk(k) && UnitAt(k, unit)
    ensures UnitAt(k + CHUNK, unit + CHUNK / 4096) && AtChunk(k + CHUNK)
  {
    ChunkSteps(k);
  }

  predicate Aligned(n: nat) {
    n % 4096 == 0
  }

  datatype Outcome = Done | BadKey | ReadFailed | NotAligned | WriteFailed

  /** The source ends the stream, as opposed to breaking it. A source whose own
      error is the unexpected-end one is taken to have ended. */
  predicate Ends(fate: ReadError) { fate != Broken }

  predicate Complete(d: seq<byte>, fate: ReadError, decrypt: bool) {
    Ends(fate) && (decrypt ==> Whole(d))
  }

  /** What reaches the destination if no write fails: everything, zero-padded to
      a sector, when the source ends properly; otherwise the whole chunks that
      came before, and no padded sector. */
  function Wanted(c: SectorCipher, d: seq<byte>, fate: ReadError, decrypt: bool): seq<byte> {
    if Complete(d, fate, decrypt) then Transform(c, PadToBlock(d), 0, decrypt)
    else Transform(c, d[..CHUNK * (|d| / CHUNK)], 0, decrypt)
  }

  lemma WantedLength(c: SectorCipher, d: seq<byte>, fate: ReadError, decrypt: bool)
    requires Lawful(c)
    ensures |Wanted(c, d, fate, decrypt)|
            == if Complete(d, fate, decrypt) then |PadToBlock(d)| else CHUNK * (|d| / CHUNK)
  {
    var whole := CHUNK * (|d| / CHUNK);
    assert whole == 4096 * (1024 * (|d| / CHUNK));
    TransformLength(c, PadToBlock(d), 0, decrypt);
    TransformLength(c, d[..whole], 0, decrypt);
  }

  /** The whole chunks at the front of the source come first in the output. */
  lemma WantedStartsWith(c: SectorCipher, d: seq<byte>, fate: ReadError, decrypt: bool, k: nat)
    requires Lawful(c) && AtChunk(k) && k <= |d|
    ensures Transform(c, d[..k], 0, decrypt) <= Wanted(c, d, fate, decrypt)
  {
    var whole := CHUNK * (|d| / CHUNK);
    ChunkSteps(k);
    assert k <= whole;
    assert PadToBlock(d) == d[..k] + PadToBlock(d)[k..];
    assert d[..whole] == d[..k] + d[k..whole];
    TransformConcat(c, d[..k], PadToBlock(d)[k..], 0, decrypt);
    TransformConcat(c, d[..k], d[k..whole], 0, decrypt);
  }

  /** What one call of the stream leaves behind, for every content d and end of
      the source, over the destination's earlier bytes. */
  ghost predicate Delivered(c: SectorCipher, d: seq<byte>, fate: ReadError, decrypt: bool, before: seq<byte>,
                            start: nat, after: seq<byte>, written: nat, outcome: Outcome) {
    var want := Wanted(c, d, fate, decrypt);
    match outcome
    case Done => Complete(d, fate, decrypt) && written == |want| && after == WriteBytes(before, start, want)
    case ReadFailed => fate == Broken && written == |want| && after == WriteBytes(before, start, want)
    case NotAligned =>
      Ends(fate) && decrypt && !Whole(d) && written == |want| && after == WriteBytes(before, start, want)
    case WriteFailed => exists m: nat :: written <= m <= |want| && after == WriteBytes(before, start, want[..m])
    case BadKey => false
  }

  /** However the stream ends, what it has written is one stretch, no longer
      than the padded source. */
  lemma DeliveredStretch(c: SectorCipher, d: seq<byte>, fate: ReadError, decrypt: bool, before: seq<byte>, start: nat,
                         after: seq<byte>, written: nat, outcome: Outcome)
    requires Lawful(c) && Delivered(c, d, fate, decrypt, before, start, after, written, outcome)
    ensures exists w: seq<byte> :: |w| <= |PadToBlock(d)| && after == WriteBytes(before, start, w)
  {
    WantedLength(c, d, fate, decrypt);
    var want := Wanted(c, d, fate, decrypt);
    assert |want| <= |PadToBlock(d)|;
    if outcome == WriteFailed {
      var m: nat :| written <= m <= |want| && after == WriteBytes(before, start, want[..m]);
    }
  }

  /** A source whose own error is the unexpected-end one cannot be told from one
      that ended: its tail is padded and success reported. Of the sources that
      did not end, exactly these get success reported. */
  lemma UnexpectedEndPassesForEnd(c: SectorCipher, d: seq<byte>, decrypt: bool, before: seq<byte>, start: nat,
                                  after: seq<byte>, written: nat, outcome: Outcome)
    ensures Delivered(c, d, UnexpectedEOF, decrypt, before, start, after, written, outcome)
       <==> Delivered(c, d, EOF, decrypt, before, start, after, written, outcome)
    ensures !Delivered(c, d, Broken, decrypt, before, start, after, written, Done)
  {
    assert Wanted(c, d, UnexpectedEOF, decrypt) == Wanted(c, d, EOF, decrypt);
  }

  /** Clears the rest of the last sector of the first n bytes. */
  method PadTail(buf: array<byte>, n: nat) returns (full: nat)
    requires n <= buf.Length == CHUNK
    modifies buf
    ensures full == |PadToBlock(old(buf[..n]))| && full <= buf.Length && full % 4096 == 0
    ensures buf[..full] == PadToBlock(old(buf[..n]))
  {
    ghost var piece := PadToBlock(buf[..n]);
    full := n;
    var rem := n % 4096;
    if rem != 0 {
      full := n - rem + 4096;
      forall k | n <= k < full { buf[k] := 0; }
    }
    assert full == 4096 * CeilDiv(n, 4096);
    assert buf[..full] == piece;
  }

  lemma PaddedLength(c: SectorCipher, piece: seq<byte>, unit: nat, decrypt: bool)
    requires Lawful(c)
    ensures |Transform(c, PadToBlock(piece), unit, decrypt)| == |PadToBlock(piece)|
  {
    TransformLength(c, PadToBlock(piece), unit, decrypt);
  }

  /** One filled buffer: its tail padded, transformed in place, written out. */
  method Emit(c: SectorCipher, buf: array<byte>, n: nat, baseUnit: nat, decrypt: bool, dst: Writer,
              ghost piece: seq<byte>)
    returns (full: nat, ok: bool)
    requires Lawful(c) && n <= buf.Length == CHUNK && (decrypt ==> Aligned(n)) && buf[..n] == piece
    modifies buf, dst, dst.f
    ensures full == |PadToBlock(piece)|
    ensures Sent(dst.f.data, old(dst.f.data), dst.base + old(dst.pos),
                 Transform(c, PadToBlock(piece), baseUnit, decrypt), ok)
    ensures dst.pos == if ok then old(dst.pos) + full else old(dst.pos)
    ensures dst.f.reliable && dst.base + old(dst.pos) + full <= MAX_INT64 ==> ok
  {
    hide *;
    PaddedLength(c, piece, baseUnit, decrypt);
    full := PadTail(buf, n);
    TransformInPlace(c, buf, full, baseUnit, decrypt);
    var out := buf[..full];
    ok := dst.Write(out);
    SentOrNot(dst.f.data, old(dst.f.data), dst.base + old(dst.pos), out, ok);
  }

  lemma SentOrNot(after: seq<byte>, before: seq<byte>, at: nat, out: seq<byte>, ok: bool)
    requires ok ==> after == WriteBytes(before, at, out)
    requires !ok ==> exists m: nat :: m <= |out| && after == WriteBytes(before, at, out[..m])
    ensures Sent(after, before, at, out, ok)
  {
  }

  /** The destination after a write that may have failed part-way. */
  ghost predicate Sent(after: seq<byte>, before: seq<byte>, at: nat, out: seq<byte>, ok: bool) {
    if ok then after == WriteBytes(before, at, out)
    else exists m: nat :: m <= |out| && after == WriteBytes(before, at, out[..m])
  }

  /** The state between two chunks: k bytes of d are through. */
  ghost predicate Through(c: SectorCipher, d: seq<byte>, decrypt: bool, before: seq<byte>, start: nat,
                          after: seq<byte>, k: nat)
  {
    AtChunk(k) && k <= |d| && after == WriteBytes(before, start, Transform(c, d[..k], 0, decrypt))
  }

  lemma HowFar(c: SectorCipher, d: seq<byte>, decrypt: bool, before: seq<byte>, start: nat, after: seq<byte>, k: nat)
    requires Through(c, d, decrypt, before, start, after, k)
    ensures AtChunk(k) && k <= |d|
  {
  }

  lemma ChunkThrough(c: SectorCipher, d: seq<byte>, decrypt: bool, before: seq<byte>, start: nat, mid: seq<byte>,
                     k: nat, after: seq<byte>)
    requires Lawful(c) && Through(c, d, decrypt, before, start, mid, k) && k + CHUNK <= |d|
    requires after == WriteBytes(mid, start + k, Transform(c, d[k..k + CHUNK], k / 4096, decrypt))
    ensures Through(c, d, decrypt, before, start, after, k + CHUNK)
  {
    hide Lawful, Transform, WriteBytes, AtChunk;
    ChunkSteps(k);
    ThroughLength(c, d, decrypt, k);
    assert d[..k + CHUNK] == d[..k] + d[k..k + CHUNK];
    TransformConcat(c, d[..k], d[k..k + CHUNK], 0, decrypt);
    AppendedWrites(before, start, Transform(c, d[..k], 0, decrypt), Transform(c, d[k..k + CHUNK], k / 4096, decrypt));
  }

  lemma ThroughLength(c: SectorCipher, d: seq<byte>, decrypt: bool, k: nat)
    requires Lawful(c) && AtChunk(k) && k <= |d|
    ensures |Transform(c, d[..k], 0, decrypt)| == k
  {
    ChunkSteps(k);
    TransformLength(c, d[..k], 0, decrypt);
  }

  /** A piece that failed to be written in full leaves a prefix of the output. */
  lemma CutShort(c: SectorCipher, d: seq<byte>, fate: ReadError, decrypt: bool, before: seq<byte>, start: nat,
                 mid: seq<byte>, k: nat, out: seq<byte>, after: seq<byte>)
    requires Lawful(c) && Through(c, d, decrypt, before, start, mid, k)
    requires Transform(c, d[..k], 0, decrypt) + out <= Wanted(c, d, fate, decrypt)
    requires Sent(after, mid, start + k, out, false)
    ensures Delivered(c, d, fate, decrypt, before, start, after, k, WriteFailed)
  {
    hide Lawful, Transform, Wanted, WriteBytes, AtChunk;
    ThroughLength(c, d, decrypt, k);
    var done, want := Transform(c, d[..k], 0, decrypt), Wanted(c, d, fate, decrypt);
    var m: nat :| m <= |out| && after == WriteBytes(mid, start + k, out[..m]);
    AppendedWrites(before, start, done, out[..m]);
    PrefixOfPrefix(done, out, want, m);
  }

  lemma PrefixOfPrefix(done: seq<byte>, out: seq<byte>, want: seq<byte>, m: nat)
    requires done + out <= want && m <= |out|
    ensures |done| + m <= |want| && done + out[..m] == want[..|done| + m]
  {
  }

  /** The last, possibly partial, piece completes the output. */
  lemma LastPiece(c: SectorCipher, d: seq<byte>, fate: ReadError, decrypt: bool, k: nat)
    requires Lawful(c) && Complete(d, fate, decrypt) && AtChunk(k) && k <= |d|
    ensures Wanted(c, d, fate, decrypt)
         == Transform(c, d[..k], 0, decrypt) + Transform(c, PadToBlock(d[k..]), k / 4096, decrypt)
  {
    ChunkSteps(k);
    assert CeilDiv(|d|, 4096) == k / 4096 + CeilDiv(|d| - k, 4096);
    assert PadToBlock(d) == d[..k] + PadToBlock(d[k..]);
    TransformConcat(c, d[..k], PadToBlock(d[k..]), 0, decrypt);
  }

  lemma NothingThrough(c: SectorCipher, d: seq<byte>, decrypt: bool, before: seq<byte>, start: nat)
    ensures Through(c, d, decrypt, before, start, before, 0) && AtChunk(0) && UnitAt(0, 0)
  {
    assert d[..0] == [];
  }

  lemma ChunksBelow(n: nat, k: nat)
    requires AtChunk(k) && k <= n < k + CHUNK
    ensures k == CHUNK * (n / CHUNK)
  {
  }

  lemma ChunksArePadded(d: seq<byte>)
    requires AtChunk(|d|)
    ensures PadToBlock(d) == d
  {
    hide CeilDiv;
    SectorsRoundUp(1024 * (|d| / CHUNK));
    assert |d| == 4096 * (1024 * (|d| / CHUNK));
  }

  lemma SectorsRoundUp(q: nat)
    ensures CeilDiv(4096 * q, 4096) == q
  {
  }

  /** With less than a chunk left and nothing more to write, the bytes that are
      through are all that is wanted. */
  lemma ThroughIsWanted(c: SectorCipher, d: seq<byte>, fate: ReadError, decrypt: bool, k: nat)
    requires Lawful(c) && AtChunk(k) && k <= |d| < k + CHUNK && (Complete(d, fate, decrypt) ==> k == |d|)
    ensures Transform(c, d[..k], 0, decrypt) == Wanted(c, d, fate, decrypt) && |Wanted(c, d, fate, decrypt)| == k
  {
    hide Wanted, Transform, PadToBlock, AtChunk, Lawful;
    WantedStartsWith(c, d, fate, decrypt, k);
    WantedLength(c, d, fate, decrypt);
    ThroughLength(c, d, decrypt, k);
    ChunksBelow(|d|, k);
    if k == |d| { ChunksArePadded(d); }
  }

  lemma Alignment(d: seq<byte>, k: nat)
    requires AtChunk(k) && k <= |d|
    ensures Whole(d) <==> (|d| - k) % 4096 == 0
  {
    ChunkSteps(k);
  }

  /** The ways the stream ends before another piece is written, k bytes being
      through and less than a chunk left. */
  lemma EndsBetweenChunks(c: SectorCipher, d: seq<byte>, fate: ReadError, decrypt: bool, before: seq<byte>,
                          start: nat, after: seq<byte>, k: nat)
    requires Lawful(c) && Through(c, d, decrypt, before, start, after, k) && |d| - k < CHUNK
    ensures fate == Broken ==> Delivered(c, d, fate, decrypt, before, start, after, k, ReadFailed)
    ensures fate != Broken && decrypt && (|d| - k) % 4096 != 0 ==>
              Delivered(c, d, fate, decrypt, before, start, after, k, NotAligned)
    ensures fate != Broken && k == |d| ==> Delivered(c, d, fate, decrypt, before, start, after, k, Done)
    ensures fate != Broken && (decrypt ==> (|d| - k) % 4096 == 0) ==> Complete(d, fate, decrypt)
  {
    hide Lawful, Transform, Wanted, WriteBytes, Whole, AtChunk;
    Alignment(d, k);
    if !Complete(d, fate, decrypt) || k == |d| {
      ThroughIsWanted(c, d, fate, decrypt, k);
    }
  }

  lemma EndsWithPiece(c: SectorCipher, d: seq<byte>, fate: ReadError, decrypt: bool, before: seq<byte>, start: nat,
                      mid: seq<byte>, k: nat, after: seq<byte>, full: nat)
    requires Lawful(c) && Through(c, d, decrypt, before, start, mid, k) && Complete(d, fate, decrypt)
    requires full == |PadToBlock(d[k..])|
    requires after == WriteBytes(mid, start + k, Transform(c, PadToBlock(d[k..]), k / 4096, decrypt))
    ensures Delivered(c, d, fate, decrypt, before, start, after, k + full, Done)
  {
    var done, out := Transform(c, d[..k], 0, decrypt), Transform(c, PadToBlock(d[k..]), k / 4096, decrypt);
    ChunkSteps(k);
    TransformLength(c, d[..k], 0, decrypt);
    TransformLength(c, PadToBlock(d[k..]), k / 4096, decrypt);
    LastPiece(c, d, fate, decrypt, k);
    AppendedWrites(before, start, done, out);
  }

  /** A whole chunk is part of the output wherever the stream ends. */
  lemma ChunkIsWanted(c: SectorCipher, d: seq<byte>, fate: ReadError, decrypt: bool, k: nat)
    requires Lawful(c) && AtChunk(k) && k + CHUNK <= |d|
    ensures Transform(c, d[..k], 0, decrypt) + Transform(c, d[k..k + CHUNK], k / 4096, decrypt)
              <= Wanted(c, d, fate, decrypt)
  {
    ChunkSteps(k);
    WantedStartsWith(c, d, fate, decrypt, k + CHUNK);
    assert d[..k + CHUNK] == d[..k] + d[k..k + CHUNK];
    TransformConcat(c, d[..k], d[k..k + CHUNK], 0, decrypt);
  }

  lemma ChunkIsItsPadding(d: seq<byte>)
    requires |d| == CHUNK
    ensures PadToBlock(d) == d
  {
  }

  /** What has come of the piece that follows the first k bytes, and of the stream if
      it was the last. */
  lemma PieceOut(c: SectorCipher, d: seq<byte>, fate: ReadError, decrypt: bool, before: seq<byte>, start: nat,
                 mid: seq<byte>, k: nat, piece: seq<byte>, after: seq<byte>, full: nat, ok: bool)
    requires Lawful(c) && Through(c, d, decrypt, before, start, mid, k)
    requires 0 < |piece| == Min(CHUNK, |d| - k) && piece == d[k..k + |piece|]
    requires |piece| < CHUNK ==> Complete(d, fate, decrypt)
    requires full == |PadToBlock(piece)|
    requires Sent(after, mid, start + k, Transform(c, PadToBlock(piece), k / 4096, decrypt), ok)
    ensures !ok ==> Delivered(c, d, fate, decrypt, before, start, after, k, WriteFailed)
    ensures ok && |piece| < CHUNK ==> Delivered(c, d, fate, decrypt, before, start, after, k + full, Done)
    ensures ok && |piece| == CHUNK ==> Through(c, d, decrypt, before, start, after, k + full)
    ensures |piece| == CHUNK ==> full == CHUNK
  {
    hide Lawful, Transform, Wanted, WriteBytes, Through, Delivered, PadToBlock;
    var out := Transform(c, PadToBlock(piece), k / 4096, decrypt);
    HowFar(c, d, decrypt, before, start, mid, k);
    if |piece| == CHUNK {
      ChunkIsItsPadding(piece);
      ChunkIsWanted(c, d, fate, decrypt, k);
    } else {
      assert piece == d[k..];
      LastPiece(c, d, fate, decrypt, k);
    }
    if !ok {
      CutShort(c, d, fate, decrypt, before, start, mid, k, out, after);
    } else if |piece| < CHUNK {
      EndsWithPiece(c, d, fate, decrypt, before, start, mid, k, after, full);
    } else {
      ChunkThrough(c, d, decrypt, before, start, mid, k, after);
    }
  }

  lemma PieceIsWanted(c: SectorCipher, d: seq<byte>, fate: ReadError, decrypt: bool, k: nat, piece: seq<byte>)
    requires Lawful(c) && AtChunk(k) && k <= |d| && 0 < |piece| == Min(CHUNK, |d| - k) && piece == d[k..k + |piece|]
    requires |piece| < CHUNK ==> Complete(d, fate, decrypt)
    ensures k + |PadToBlock(piece)| <= |Wanted(c, d, fate, decrypt)|
  {
    ThroughLength(c, d, decrypt, k);
    if |piece| == CHUNK {
      ChunkSteps(k);
      WantedStartsWith(c, d, fate, decrypt, k + CHUNK);
      ThroughLength(c, d, decrypt, k + CHUNK);
    } else {
      assert piece == d[k..];
      LastPiece(c, d, fate, decrypt, k);
      TransformLength(c, PadToBlock(piece), k / 4096, decrypt);
    }
  }

  /** What has come of a piece written out at the data unit it belongs to. */
  lemma PieceOutAt(c: SectorCipher, d: seq<byte>, fate: ReadError, decrypt: bool, before: seq<byte>, start: nat,
                   mid: seq<byte>, k: nat, unit: nat, piece: seq<byte>, after: seq<byte>, full: nat, ok: bool)
    requires Lawful(c) && Through(c, d, decrypt, before, start, mid, k) && UnitAt(k, unit)
    requires 0 < |piece| == Min(CHUNK, |d| - k) && piece == d[k..k + |piece|]
    requires |piece| < CHUNK ==> Complete(d, fate, decrypt)
    requires full == |PadToBlock(piece)|
    requires Sent(after, mid, start + k, Transform(c, PadToBlock(piece), unit, decrypt), ok)
    ensures Forwarded(c, d, fate, decrypt, before, start, after, k, |piece|, full, ok)
    ensures k + full <= |Wanted(c, d, fate, decrypt)|
  {
    hide Lawful, Transform, Sent, Delivered, Wanted, PadToBlock, Complete, WriteBytes;
    PieceOut(c, d, fate, decrypt, before, start, mid, k, piece, after, full, ok);
    PieceIsWanted(c, d, fate, decrypt, k, piece);
  }

  /** The stream after the n bytes that follow the first k. */
  ghost predicate Forwarded(c: SectorCipher, d: seq<byte>, fate: ReadError, decrypt: bool, before: seq<byte>,
                            start: nat, after: seq<byte>, k: nat, n: nat, full: nat, ok: bool) {
    && (!ok ==> Delivered(c, d, fate, decrypt, before, start, after, k, WriteFailed))
    && (ok && n < CHUNK ==> Delivered(c, d, fate, decrypt, before, start, after, k + full, Done))
    && (n == CHUNK ==> full == CHUNK)
    && (ok && n == CHUNK ==> Through(c, d, decrypt, before, start, after, k + full))
  }

  /** The n bytes that follow the first k, sent on from a filled buffer. */
  method Forward(c: SectorCipher, buf: array<byte>, n: nat, baseUnit: nat, decrypt: bool, dst: Writer,
                 ghost d: seq<byte>, ghost fate: ReadError, ghost before: seq<byte>, ghost start: nat, ghost k: nat,
                 ghost piece: seq<byte>)
    returns (full: nat, ok: bool)
    requires Lawful(c) && buf.Length == CHUNK && (decrypt ==> Aligned(n))
    requires Through(c, d, decrypt, before, start, dst.f.data, k)
    requires UnitAt(k, baseUnit) && dst.base + dst.pos == start + k
    requires 0 < n == |piece| == Min(CHUNK, |d| - k) && piece == d[k..k + |piece|] && buf[..n] == piece
    requires n < CHUNK ==> Complete(d, fate, decrypt)
    modifies buf, dst, dst.f
    ensures dst.f.reliable && start + |Wanted(c, d, fate, decrypt)| <= MAX_INT64 ==> ok
    ensures Forwarded(c, d, fate, decrypt, before, start, dst.f.data, k, n, full, ok)
    ensures ok ==> dst.base + dst.pos == start + k + full
  {
    hide *;
    ghost var mid := dst.f.data;
    full, ok := Emit(c, buf, n, baseUnit, decrypt, dst, piece);
    PieceOutAt(c, d, fate, decrypt, before, start, mid, k, baseUnit, piece, dst.f.data, full, ok);
  }

  /** The loop, a chunk at a time. */
  method Chunks(c: SectorCipher, dst: Writer, src: Reader, decrypt: bool) returns (written: nat, outcome: Outcome)
    requires Lawful(c)
    modifies dst, dst.f, src
    ensures Delivered(c, old(src.rest), src.fate, decrypt,
                      old(dst.f.data), dst.base + old(dst.pos), dst.f.data, written, outcome)
    ensures dst.f.reliable && dst.base + old(dst.pos) + |Wanted(c, old(src.rest), src.fate, decrypt)| <= MAX_INT64 ==>
              outcome != WriteFailed
  {
    hide Lawful, Through, Transform, Wanted, WriteBytes, Delivered, PadToBlock, AtChunk, UnitAt, Complete, Whole;
    ghost var d, fate, before, start: nat := src.rest, src.fate, dst.f.data, dst.base + dst.pos;
    var buf := new byte[CHUNK];
    var baseUnit: nat := 0;
    written := 0;
    NothingThrough(c, d, decrypt, before, start);
    while true
      invariant written <= |d| && src.rest == d[written..]
      invariant Through(c, d, decrypt, before, start, dst.f.data, written)
      invariant AtChunk(written) && UnitAt(written, baseUnit) && dst.base + dst.pos == start + written
      decreases |src.rest|
    {
      var n, readErr := ReadFull(src, buf);
      var eof := readErr == Some(EOF) || readErr == Some(UnexpectedEOF);
      if n < CHUNK { EndsBetweenChunks(c, d, fate, decrypt, before, start, dst.f.data, written); }
      if readErr != None && !eof { return written, ReadFailed; }
      UnitSteps(written, baseUnit);
      if n > 0 {
        if n % 4096 != 0 && decrypt { return written, NotAligned; }
        var full, ok := Forward(c, buf, n, baseUnit, decrypt, dst, d, fate, before, start, written,
                                d[written..written + n]);
        if !ok { return written, WriteFailed; }
        baseUnit := baseUnit + full / 4096;
        written := written + full;
      }
      if eof { return written, Done; }
    }
  }

  /** out is d, zero-padded to whole sectors, sector by sector through the cipher. */
  ghost predicate PaddedBySector(c: SectorCipher, d: seq<byte>, out: seq<byte>, decrypt: bool) {
    exists padded: seq<byte> ::
      && |d| <= |padded| < |d| + 4096 && |padded| % 4096 == 0
      && (forall k: nat | k < |padded| :: padded[k] == if k < |d| then d[k] else 0)
      && SectorBySector(c, padded, 0, out, decrypt)
  }

  lemma Padding(d: seq<byte>)
    ensures var p := PadToBlock(d);
            && |d| <= |p| < |d| + 4096 && |p| % 4096 == 0 && Whole(p)
            && forall k: nat | k < |p| :: p[k] == if k < |d| then d[k] else 0
  {
  }

  /** A finished stream, by position. */
  lemma DoneBySector(c: SectorCipher, d: seq<byte>, fate: ReadError, decrypt: bool, before: seq<byte>, start: nat,
                     after: seq<byte>, written: nat)
    requires Lawful(c) && Delivered(c, d, fate, decrypt, before, start, after, written, Done)
    ensures exists out :: after == WriteBytes(before, start, out)
                          && written == |out| && PaddedBySector(c, d, out, decrypt)
  {
    hide Lawful, Transform, WriteBytes, PadToBlock, SectorBySector;
    var padded := PadToBlock(d);
    Padding(d);
    TransformBySector(c, padded, 0, decrypt);
    var out := Transform(c, padded, 0, decrypt);
    assert PaddedBySector(c, d, out, decrypt);
  }

  /** Encrypts or decrypts a source onto a destination. */
  method Stream(xts: Xts, key: seq<byte>, dst: Writer, src: Reader, decrypt: bool)
    returns (written: nat, outcome: Outcome)
    requires LawfulFamily(xts)
    modifies dst, dst.f, src
    ensures outcome == BadKey <==> |key| != KEY_BYTES
    ensures outcome == BadKey ==>
              written == 0 && dst.f.data == old(dst.f.data) && src.rest == old(src.rest)
    ensures outcome != BadKey ==>
              Delivered(xts(key), old(src.rest), src.fate, decrypt,
                        old(dst.f.data), dst.base + old(dst.pos), dst.f.data, written, outcome)
    ensures |key| == KEY_BYTES && dst.f.reliable
            && dst.base + old(dst.pos) + |Wanted(xts(key), old(src.rest), src.fate, decrypt)| <= MAX_INT64 ==>
              outcome == if src.fate == Broken then ReadFailed
                         else if decrypt && !Whole(old(src.rest)) then NotAligned
                         else Done
    ensures outcome == ReadFailed ==> written == 4194304 * (|old(src.rest)| / 4194304)
    ensures outcome == Done ==>
              exists out :: dst.f.data == WriteBytes(old(dst.f.data), dst.base + old(dst.pos), out)
                            && written == |out| && PaddedBySector(xts(key), old(src.rest), out, decrypt)
  {
    hide PaddedBySector, WriteBytes, Transform;
    ghost var d, fate, before := src.rest, src.fate, dst.f.data;
    ghost var start := dst.base + dst.pos;
    var c := NewCipher(xts, key);
    if c.Err? { return 0, BadKey; }
    written, outcome := Chunks(c.value, dst, src, decrypt);
    WantedLength(c.value, d, fate, decrypt);
    if outcome == Done { DoneBySector(c.value, d, fate, decrypt, before, start, dst.f.data, written); }
  }
}
