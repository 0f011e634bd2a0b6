/** Formatting an image: the superblock, the levels built by the worker pool,
    the root hash. */
module VerityFormat {
  import opened Bytes
  import opened Files
  import opened Geometry
  import opened HashPool
  import opened Merkle
  import opened Wrappers

  type Uuid = u: seq<byte> | |u| == 16 witness Zeros(16)

  /** The parameters of one format call; dataBlocks and hashOffset are uint64. */
  datatype Params = Params(salt: seq<byte>, uuid: string, dataBlocks: nat, hashOffset: nat, workers: int)

  const SALT_AREA_BYTES: nat := 256

  // ---- Superblock ----

  /** The on-disk superblock, field by field; everything between the fields and
      after the salt is zero. */
  predicate IsSuperblock(sb: seq<byte>, p: Params, uuid: Uuid) {
    |sb| == 4096 && |p.salt| <= SALT_AREA_BYTES && NamesFormat(sb, uuid) && GivesSizes(sb, p) && GivesSalt(sb, p.salt)
  }

  predicate NamesFormat(sb: seq<byte>, uuid: Uuid)
    requires |sb| == 4096
  {
    && Slice(sb, 0, 8) == [118, 101, 114, 105, 116, 121, 0, 0]
    && Slice(sb, 8, 4) == LittleEndian(1, 4)
    && Slice(sb, 12, 4) == LittleEndian(1, 4)
    && Slice(sb, 16, 16) == uuid
    && Slice(sb, 32, 6) == [115, 104, 97, 50, 53, 54]
    && Slice(sb, 38, 26) == Zeros(26)
  }

  predicate GivesSizes(sb: seq<byte>, p: Params)
    requires |sb| == 4096
  {
    && Slice(sb, 64, 4) == LittleEndian(4096, 4)
    && Slice(sb, 68, 4) == LittleEndian(4096, 4)
    && Slice(sb, 72, 8) == LittleEndian(p.dataBlocks, 8)
  }

  predicate GivesSalt(sb: seq<byte>, salt: seq<byte>)
    requires |sb| == 4096 && |salt| <= SALT_AREA_BYTES
  {
    && Slice(sb, 80, 2) == LittleEndian(|salt|, 2)
    && Slice(sb, 82, 6) == Zeros(6)
    && Slice(sb, 88, |salt|) == salt
    && Slice(sb, 88 + |salt|, 4008 - |salt|) == Zeros(4008 - |salt|)
  }

  method Put(sb: array<byte>, at: nat, s: seq<byte>)
    requires at + |s| <= sb.Length
    modifies sb
    ensures sb[..] == Splice(old(sb[..]), at, s)
  {
    forall k | 0 <= k < |s| { sb[at + k] := s[k]; }
    ghost var want := Splice(old(sb[..]), at, s);
    forall k | 0 <= k < sb.Length ensures sb[k] == want[k] {
      if at <= k < at + |s| { assert sb[at + (k - at)] == s[k - at]; }
    }
  }

  method PutVersion(sb: array<byte>)
    requires sb.Length == 4096
    modifies sb
    ensures Slice(sb[..], 0, 8) == [118, 101, 114, 105, 116, 121, 0, 0]
    ensures Slice(sb[..], 8, 4) == LittleEndian(1, 4) && Slice(sb[..], 12, 4) == LittleEndian(1, 4)
    ensures sb[16..] == old(sb[16..])
  {
    hide LittleEndian;
    Put(sb, 0, [118, 101, 114, 105, 116, 121, 0, 0]);
    Put(sb, 8, LittleEndian(1, 4));
    Put(sb, 12, LittleEndian(1, 4));
  }

  method PutIdentity(sb: array<byte>, uuid: Uuid)
    requires sb.Length == 4096 && sb[16..] == Zeros(4080)
    modifies sb
    ensures Slice(sb[..], 16, 16) == uuid && Slice(sb[..], 32, 6) == [115, 104, 97, 50, 53, 54]
    ensures Slice(sb[..], 38, 26) == Zeros(26)
    ensures sb[..16] == old(sb[..16]) && sb[64..] == Zeros(4032)
  {
    assert forall k | 16 <= k < 4096 :: sb[k] == sb[16..][k - 16] == 0;
    Put(sb, 16, uuid);
    Put(sb, 32, [115, 104, 97, 50, 53, 54]);
  }

  method PutNames(sb: array<byte>, uuid: Uuid)
    requires sb.Length == 4096 && sb[..] == Zeros(4096)
    modifies sb
    ensures NamesFormat(sb[..], uuid) && sb[64..] == Zeros(4032)
  {
    assert sb[16..] == Zeros(4080) by { assert sb[16..] == sb[..][16..]; }
    PutVersion(sb);
    ghost var before := sb[..];
    assert before[16..] == sb[16..] && before[..16] == sb[..16];
    PutIdentity(sb, uuid);
    assert sb[..][..16] == sb[..16];
    SamePrefix(before, sb[..], 16, 0, 8);
    SamePrefix(before, sb[..], 16, 8, 4);
    SamePrefix(before, sb[..], 16, 12, 4);
  }

  method PutSizes(sb: array<byte>, p: Params)
    requires sb.Length == 4096
    modifies sb
    ensures GivesSizes(sb[..], p) && sb[..64] == old(sb[..64]) && sb[80..] == old(sb[80..])
  {
    hide LittleEndian;
    Put(sb, 64, LittleEndian(4096, 4));
    Put(sb, 68, LittleEndian(4096, 4));
    Put(sb, 72, LittleEndian(p.dataBlocks, 8));
  }

  function Salted(before: seq<byte>, salt: seq<byte>): (r: seq<byte>)
    requires |before| == 4096 && |salt| <= SALT_AREA_BYTES
    ensures |r| == 4096
  {
    Splice(Splice(before, 80, LittleEndian(|salt|, 2)), 88, salt)
  }

  lemma SaltedFields(before: seq<byte>, salt: seq<byte>)
    requires |before| == 4096 && |salt| <= SALT_AREA_BYTES
    ensures Slice(Salted(before, salt), 80, 2) == LittleEndian(|salt|, 2)
    ensures Slice(Salted(before, salt), 88, |salt|) == salt
  {
    hide LittleEndian, Splice, Slice;
    var size := LittleEndian(|salt|, 2);
    SpliceInside(before, 80, size);
    SpliceBeside(Splice(before, 80, size), 88, salt, 80, 2);
    SpliceInside(Splice(before, 80, size), 88, salt);
  }

  lemma SaltedGap(before: seq<byte>, salt: seq<byte>, o: nat, n: nat)
    requires |before| == 4096 && |salt| <= SALT_AREA_BYTES && before[80..] == Zeros(4016)
    requires 82 <= o && o + n <= 4096 && (o + n <= 88 || 88 + |salt| <= o)
    ensures Slice(Salted(before, salt), o, n) == Zeros(n)
  {
    hide LittleEndian, Splice, Slice;
    var size := LittleEndian(|salt|, 2);
    ZerosInside(before, 80, o, n);
    SpliceBeside(before, 80, size, o, n);
    SpliceBeside(Splice(before, 80, size), 88, salt, o, n);
  }

  lemma SaltedGives(before: seq<byte>, salt: seq<byte>)
    requires |before| == 4096 && |salt| <= SALT_AREA_BYTES && before[80..] == Zeros(4016)
    ensures GivesSalt(Salted(before, salt), salt)
  {
    hide LittleEndian, Splice, Slice, Salted;
    SaltedFields(before, salt);
    SaltedGap(before, salt, 82, 6);
    SaltedGap(before, salt, 88 + |salt|, 4008 - |salt|);
  }

  method PutSalt(sb: array<byte>, salt: seq<byte>)
    requires sb.Length == 4096 && |salt| <= SALT_AREA_BYTES && sb[80..] == Zeros(4016)
    modifies sb
    ensures GivesSalt(sb[..], salt) && sb[..80] == old(sb[..80])
  {
    hide LittleEndian, GivesSalt;
    ghost var before := sb[..];
    assert before[80..] == sb[80..] && before[..80] == sb[..80];
    SaltedGives(before, salt);
    Put(sb, 80, LittleEndian(|salt|, 2));
    Put(sb, 88, salt);
    assert sb[..80] == sb[..][..80];
  }

  lemma SamePrefix(a: seq<byte>, b: seq<byte>, m: nat, lo: nat, n: nat)
    requires lo + n <= m <= |a| && m <= |b| && a[..m] == b[..m]
    ensures Slice(a, lo, n) == Slice(b, lo, n)
  {
    SliceOfSlice(a, 0, m, lo, n);
    SliceOfSlice(b, 0, m, lo, n);
  }

  lemma SameNames(a: seq<byte>, b: seq<byte>, uuid: Uuid)
    requires |a| == |b| == 4096 && a[..64] == b[..64] && NamesFormat(a, uuid)
    ensures NamesFormat(b, uuid)
  {
    forall lo: nat, n: nat | lo + n <= 64 ensures Slice(a, lo, n) == Slice(b, lo, n) {
      SamePrefix(a, b, 64, lo, n);
    }
  }

  lemma SameSizes(a: seq<byte>, b: seq<byte>, p: Params)
    requires |a| == |b| == 4096 && a[..80] == b[..80] && GivesSizes(a, p)
    ensures GivesSizes(b, p)
  {
    forall lo: nat, n: nat | lo + n <= 80 ensures Slice(a, lo, n) == Slice(b, lo, n) {
      SamePrefix(a, b, 80, lo, n);
    }
  }

  method VeritySuperblock(p: Params, uuid: Uuid) returns (r: seq<byte>)
    requires |p.salt| <= SALT_AREA_BYTES
    ensures |r| == 4096 && IsSuperblock(r, p, uuid)
  {
    hide NamesFormat, GivesSizes, GivesSalt;
    var sb := new byte[4096](_ => 0);
    PutNames(sb, uuid);
    ghost var named := sb[..];
    PutSizes(sb, p);
    ghost var sized := sb[..];
    assert sized[..64] == named[..64];
    assert sb[80..] == Zeros(4016);
    PutSalt(sb, p.salt);
    r := sb[..];
    assert r[..80] == sized[..80];
    assert r[..64] == sized[..80][..64] == named[..64];
    SameNames(named, r, uuid);
    SameSizes(sized, r, p);
  }

  lemma SameFurther(a: seq<byte>, b: seq<byte>, m: nat, n: nat)
    requires m + n <= |a| && m + n <= |b| && a[..m] == b[..m] && Slice(a, m, n) == Slice(b, m, n)
    ensures a[..m + n] == b[..m + n]
  {
    assert a[..m + n] == a[..m] + Slice(a, m, n) && b[..m + n] == b[..m] + Slice(b, m, n);
  }

  /** The layout leaves no freedom: one parameter set has one superblock. */
  lemma SuperblockIsUnique(a: seq<byte>, b: seq<byte>, p: Params, uuid: Uuid)
    requires IsSuperblock(a, p, uuid) && IsSuperblock(b, p, uuid)
    ensures a == b
  {
    hide LittleEndian, Slice, Zeros;
    var n := |p.salt|;
    assert a[..0] == b[..0];
    SameFurther(a, b, 0, 8);
    SameFurther(a, b, 8, 4);
    SameFurther(a, b, 12, 4);
    SameFurther(a, b, 16, 16);
    SameFurther(a, b, 32, 6);
    SameFurther(a, b, 38, 26);
    SameFurther(a, b, 64, 4);
    SameFurther(a, b, 68, 4);
    SameFurther(a, b, 72, 8);
    SameFurther(a, b, 80, 2);
    SameFurther(a, b, 82, 6);
    SameFurther(a, b, 88, n);
    SameFurther(a, b, 88 + n, 4008 - n);
    assert a[..4096] == a && b[..4096] == b;
  }

  /** What a reader of the superblock gets back from its numeric fields. */
  lemma SuperblockReadsBack(sb: seq<byte>, p: Params, uuid: Uuid)
    requires IsSuperblock(sb, p, uuid) && p.dataBlocks <= MAX_UINT64
    ensures FromLittleEndian(Slice(sb, 8, 4)) == 1 && FromLittleEndian(Slice(sb, 12, 4)) == 1
    ensures FromLittleEndian(Slice(sb, 64, 4)) == 4096 && FromLittleEndian(Slice(sb, 68, 4)) == 4096
    ensures FromLittleEndian(Slice(sb, 72, 8)) == p.dataBlocks
    ensures FromLittleEndian(Slice(sb, 80, 2)) == |p.salt|
    ensures Slice(sb, 88, FromLittleEndian(Slice(sb, 80, 2))) == p.salt
  {
    PowersOf256();
    LittleEndianRoundTrip(1, 4);
    LittleEndianRoundTrip(4096, 4);
    LittleEndianRoundTrip(p.dataBlocks, 8);
    LittleEndianRoundTrip(|p.salt|, 2);
  }

  // ---- Hashing one level ----

  /** Hashes the blocks in the first bytes of input into output, the way one
      task does: the tail of the last block is cleared, then each digest is
      stored at its place. What the buffers held before does not matter. */
  method FillTask(H: Hash, salt: seq<byte>, input: array<byte>, nSrc: nat, output: array<byte>, nDst: nat)
    requires 4096 * nSrc <= input.Length && 4096 * nDst <= output.Length && nSrc <= 128 * nDst
    requires input != output
    modifies output
    ensures output[..] == Splice(old(output[..]), 0, Packed(H, salt, input[..4096 * nSrc], 4096 * nDst))
  {
    ghost var src := input[..4096 * nSrc];
    forall k | 32 * nSrc <= k < 4096 * nDst { output[k] := 0; }
    for i := 0 to nSrc
      invariant forall k | 0 <= k < 32 * i :: output[k] == ParentByte(H, salt, src, k)
      invariant forall k | 32 * nSrc <= k < 4096 * nDst :: output[k] == 0
      invariant forall k | 4096 * nDst <= k < output.Length :: output[k] == old(output[k])
    {
      var digest := H(salt + input[4096 * i..4096 * (i + 1)]);
      assert input[4096 * i..4096 * (i + 1)] == Block(src, i);
      forall j | 0 <= j < 32 { output[32 * i + j] := digest[j]; }
      forall k | 32 * i <= k < 32 * (i + 1)
        ensures output[k] == ParentByte(H, salt, src, k)
      {
        assert output[32 * i + (k - 32 * i)] == digest[k - 32 * i];
      }
    }
    assert input[..4096 * nSrc] == src;
    ghost var want := Splice(old(output[..]), 0, Packed(H, salt, src, 4096 * nDst));
    forall k | 0 <= k < output.Length
      ensures output[k] == want[k]
    {
      if k < 4096 * nDst { assert want[k] == ParentByte(H, salt, src, k); }
    }
  }

  /** The pool's concrete state agrees with the machine's. */
  ghost predicate Mirrors(ws: seq<Worker>, pcs: seq<Pc>, ins: seq<array<byte>>, outs: seq<array<byte>>)
    reads ins, outs
  {
    && |ws| == |pcs| == |ins| == |outs|
    && forall w | 0 <= w < |pcs| :: ws[w] == Worker(pcs[w], ins[w][..], outs[w][..])
  }

  /** One input and one output buffer per worker, no two the same. */
  predicate Separate(ins: seq<array<byte>>, outs: seq<array<byte>>) {
    && |ins| == |outs|
    && (forall w | 0 <= w < |ins| :: ins[w].Length == IN_BYTES && outs[w].Length == OUT_BYTES)
    && (forall v, w | 0 <= v < |ins| && 0 <= w < |ins| :: ins[v] != outs[w])
    && (forall v, w | 0 <= v < w < |ins| :: ins[v] != ins[w] && outs[v] != outs[w])
  }

  method Buffers(n: nat) returns (ins: seq<array<byte>>, outs: seq<array<byte>>)
    ensures |ins| == n && Separate(ins, outs)
    ensures forall w | 0 <= w < n :: fresh(ins[w]) && fresh(outs[w])
    ensures forall w | 0 <= w < n :: ins[w][..] == Zeros(IN_BYTES) && outs[w][..] == Zeros(OUT_BYTES)
  {
    ins, outs := [], [];
    while |ins| < n
      invariant |ins| <= n && Separate(ins, outs)
      invariant forall w | 0 <= w < |ins| :: fresh(ins[w]) && fresh(outs[w])
      invariant forall w | 0 <= w < |ins| :: ins[w][..] == Zeros(IN_BYTES) && outs[w][..] == Zeros(OUT_BYTES)
    {
      var a, b := new byte[IN_BYTES](_ => 0), new byte[OUT_BYTES](_ => 0);
      ins, outs := ins + [a], outs + [b];
    }
  }

  /** Worker w has taken action a: it is x now, and the shared state is as given. */
  ghost predicate Moved(job: Job, s: Pool, w: nat, a: Action, ok: bool, x: Worker, next: nat, file: seq<byte>) {
    && Enabled(job, s, w, a)
    && var s' := Apply(job, s, w, a);
       s'.ws == s.ws[w := x] && s'.next == next && s'.file == file && s'.failed == (s.failed || !ok)
  }

  predicate Sized(x: Worker) {
    |x.input| == IN_BYTES && |x.output| == OUT_BYTES
  }

  lemma ClaimMoves(job: Job, s: Pool, w: nat)
    requires w < |s.ws| && Sized(s.ws[w]) && s.ws[w].pc.Claiming?
    ensures Moved(job, s, w, Claim, true,
                  s.ws[w].(pc := if s.next < job.Tasks() then Reading(s.next, 0) else Finished), s.next + 1, s.file)
  {
  }

  lemma FailMoves(job: Job, s: Pool, w: nat)
    requires w < |s.ws| && Sized(s.ws[w]) && (s.ws[w].pc.Reading? || s.ws[w].pc.Writing?)
    ensures Moved(job, s, w, Fail, false, s.ws[w].(pc := Stopped(s.ws[w].pc.t)), s.next, s.file)
  {
  }

  lemma ReadMoves(job: Job, s: Pool, w: nat, n: nat)
    requires w < |s.ws| && Sized(s.ws[w]) && s.ws[w].pc.Reading? && s.ws[w].pc.t < job.Tasks()
    requires 0 < n && s.ws[w].pc.got + n <= job.InLen(s.ws[w].pc.t)
    requires 0 <= job.ReadPos(s.ws[w].pc.t) && job.ReadPos(s.ws[w].pc.t) + s.ws[w].pc.got + n <= |s.file|
    ensures var x, t, got := s.ws[w], s.ws[w].pc.t, s.ws[w].pc.got;
            Moved(job, s, w, Read(n), true,
                  x.(input := Splice(x.input, got, Slice(s.file, job.ReadPos(t) + got, n)),
                     pc := if got + n == job.InLen(t) then Filling(t) else Reading(t, got + n)), s.next, s.file)
  {
    hide Splice, Slice, Wrap64;
  }

  lemma FillMoves(job: Job, s: Pool, w: nat)
    requires w < |s.ws| && Sized(s.ws[w]) && s.ws[w].pc.Filling? && s.ws[w].pc.t < job.Tasks()
    ensures var x, t := s.ws[w], s.ws[w].pc.t;
            Moved(job, s, w, Fill, true,
                  x.(output := Splice(x.output, 0, Packed(job.H, job.salt, x.input[..job.InLen(t)], job.OutLen(t))),
                     pc := Writing(t, 0)), s.next, s.file)
  {
    hide Splice, Packed;
  }

  lemma WriteMoves(job: Job, s: Pool, w: nat, n: nat)
    requires w < |s.ws| && Sized(s.ws[w]) && s.ws[w].pc.Writing? && s.ws[w].pc.t < job.Tasks()
    requires 0 < n && s.ws[w].pc.put + n <= job.OutLen(s.ws[w].pc.t)
    requires 0 <= job.WritePos(s.ws[w].pc.t) && job.WritePos(s.ws[w].pc.t) + s.ws[w].pc.put + n <= MAX_INT64
    ensures var x, t, put := s.ws[w], s.ws[w].pc.t, s.ws[w].pc.put;
            Moved(job, s, w, Write(n), true,
                  x.(pc := if put + n == job.OutLen(t) then Claiming else Writing(t, put + n)), s.next,
                  WriteBytes(s.file, job.WritePos(t) + put, Slice(x.output, put, n)))
  {
    hide WriteBytes, Slice, Wrap64;
  }

  lemma ReadPosition(job: Job, t: nat)
    requires job.Valid() && t < job.Tasks()
    ensures 0 <= job.ReadPos(t) && job.ReadPos(t) + job.InLen(t) <= |job.before|
  {
    Positions(job, t);
    TaskBounds(job, t);
  }

  /** Reads some more of a task's source blocks. */
  method ReadMore(f: File, ghost job: Job, ghost s: Pool, ghost w: nat, t: nat, got: nat, nSrc: nat, srcOff: nat,
                  input: array<byte>)
    returns (pc: Pc, ok: bool, ghost a: Action)
    requires job.Valid() && w < |s.ws| && s.ws[w].pc == Reading(t, got) && Sized(s.ws[w])
    requires t < job.Tasks() && got < job.InLen(t)
    requires s.file == f.data && s.ws[w].input == input[..] && nSrc == job.NSrc(t) && srcOff == job.srcOff
    requires |job.before| <= |f.data|
    modifies input
    ensures f.reliable ==> ok
    ensures Moved(job, s, w, a, ok, s.ws[w].(pc := pc, input := input[..]), s.next, f.data)
  {
    hide Moved, Wrap64, WriteBytes, Splice, Packed, CeilDiv, ParentByte;
    var size := 4096 * nSrc;
    assert size == job.InLen(t);
    ReadPosition(job, t);
    FailMoves(job, s, w);
    var k: nat :| 0 < k <= size - got;
    var off := Wrap64(srcOff + 8388608 * t);
    assert off == job.ReadPos(t);
    ReadMoves(job, s, w, k);
    ok := f.ReadAt(input, got, off + got, k);
    a := if ok then Read(k) else Fail;
    pc := if !ok then Stopped(t) else if got + k == size then Filling(t) else Reading(t, got + k);
  }

  lemma FittingPosition(job: Job, t: nat)
    requires job.Valid() && t < job.Tasks()
    ensures job.Fits() ==> 0 <= job.WritePos(t) && job.WritePos(t) + job.OutLen(t) <= MAX_INT64
  {
    TaskBounds(job, t);
  }

  /** Writes some more of a task's hash blocks. */
  method WriteMore(f: File, ghost job: Job, ghost s: Pool, ghost w: nat, t: nat, put: nat, nDst: nat, dstOff: int,
                   output: array<byte>)
    returns (pc: Pc, ok: bool, ghost a: Action)
    requires job.Valid() && w < |s.ws| && s.ws[w].pc == Writing(t, put) && Sized(s.ws[w])
    requires t < job.Tasks() && put < job.OutLen(t)
    requires s.file == f.data && s.ws[w].output == output[..] && nDst == job.NDst(t) && dstOff == job.dstOff
    modifies f
    ensures f.reliable && job.Fits() ==> ok
    ensures Moved(job, s, w, a, ok, s.ws[w].(pc := pc), s.next, f.data)
  {
    hide Moved, Wrap64, WriteBytes, Splice, Packed, CeilDiv, ParentByte;
    var size := 4096 * nDst;
    assert size == job.OutLen(t);
    FittingPosition(job, t);
    FailMoves(job, s, w);
    var k: nat :| 0 < k <= size - put;
    var off := Wrap64(dstOff + 65536 * t);
    assert off == job.WritePos(t);
    var piece := output[put..put + k];
    assert piece == Slice(s.ws[w].output, put, k);
    if off >= 0 && off + put + k <= MAX_INT64 { WriteMoves(job, s, w, k); }
    ok := false;
    if off >= 0 && off + put + k <= MAX_INT64 {
      ok := f.Touch();
    }
    a := if ok then Write(k) else Fail;
    pc := if !ok then Stopped(t) else if put + k == size then Claiming else Writing(t, put + k);
    if ok { f.data := WriteBytes(f.data, off + put, piece); }
  }

  /** Hashes a task's source blocks. */
  method FillMore(ghost job: Job, ghost s: Pool, ghost w: nat, t: nat, H: Hash, salt: seq<byte>, nSrc: nat, nDst: nat,
                  input: array<byte>, output: array<byte>)
    requires job.Valid() && w < |s.ws| && t < job.Tasks() && s.ws[w] == Worker(Filling(t), input[..], output[..])
    requires Sized(s.ws[w]) && input != output
    requires H == job.H && salt == job.salt && nSrc == job.NSrc(t) && nDst == job.NDst(t)
    modifies output
    ensures Moved(job, s, w, Fill, true, Worker(Writing(t, 0), input[..], output[..]), s.next, s.file)
  {
    hide Moved, Splice, Packed;
    FillMoves(job, s, w);
    assert s.ws[w].input[..job.InLen(t)] == input[..4096 * nSrc];
    FillTask(H, salt, input, nSrc, output, nDst);
  }

  /** The sizes of a task as a worker computes them. */
  lemma TaskSizes(job: Job, t: nat)
    requires t < job.Tasks()
    ensures Min(16, CeilDiv(job.srcBlocks, 128) - 16 * t) == job.NDst(t)
    ensures Min(128 * job.NDst(t), job.srcBlocks - 2048 * t) == job.NSrc(t)
  {
  }

  /** Where a goroutine that has not returned stands in its task. */
  lemma InTask(job: Job, s: Pool, w: nat)
    requires job.Valid() && w < |s.ws| && WorkerOk(job, s, w) && s.ws[w].pc.Live()
    ensures Sized(s.ws[w])
    ensures var pc := s.ws[w].pc;
            !pc.Claiming? ==>
              && pc.t < job.Tasks()
              && (pc.Reading? ==> pc.got < job.InLen(pc.t)) && (pc.Writing? ==> pc.put < job.OutLen(pc.t))
  {
  }

  /** One atomic action of one goroutine. */
  method Advance(f: File, H: Hash, salt: seq<byte>, srcOff: nat, srcBlocks: nat, dstOff: int, nextTask: nat,
                 pc: Pc, input: array<byte>, output: array<byte>, ghost job: Job, ghost s: Pool, ghost w: nat)
    returns (pc': Pc, nextTask': nat, ok: bool, ghost a: Action)
    requires job.Valid() && w < |s.ws| && WorkerOk(job, s, w) && pc.Live() && input != output
    requires job == Job(H, salt, srcOff, srcBlocks, dstOff, job.before)
    requires s.file == f.data && s.next == nextTask && s.ws[w] == Worker(pc, input[..], output[..])
    requires |job.before| <= |f.data|
    modifies f, input, output
    ensures f.reliable && job.Fits() ==> ok
    ensures Moved(job, s, w, a, ok, Worker(pc', input[..], output[..]), nextTask', f.data)
  {
    hide Moved, Placed, ParentByte, CeilDiv, WorkerOk, Sized, Wrap64;
    InTask(job, s, w);
    var dstBlocks := CeilDiv(srcBlocks, 128);
    var tasks := CeilDiv(dstBlocks, 16);
    nextTask', ok := nextTask, true;
    match pc
    case Claiming =>
      ClaimMoves(job, s, w);
      a := Claim;
      pc' := if nextTask < tasks then Reading(nextTask, 0) else Finished;
      nextTask' := nextTask + 1;
    case Reading(t, got) =>
      TaskSizes(job, t);
      var nDst := Min(16, dstBlocks - 16 * t);
      var nSrc := Min(128 * nDst, srcBlocks - 2048 * t);
      pc', ok, a := ReadMore(f, job, s, w, t, got, nSrc, srcOff, input);
    case Filling(t) =>
      TaskSizes(job, t);
      var nDst := Min(16, dstBlocks - 16 * t);
      var nSrc := Min(128 * nDst, srcBlocks - 2048 * t);
      a := Fill;
      FillMore(job, s, w, t, H, salt, nSrc, nDst, input, output);
      pc' := Writing(t, 0);
    case Writing(t, put) =>
      TaskSizes(job, t);
      var nDst := Min(16, dstBlocks - 16 * t);
      pc', ok, a := WriteMore(f, job, s, w, t, put, nDst, dstOff, output);
  }

  /** Worker w's turn among all workers: nobody else's buffers move. */
  method Turn(f: File, H: Hash, salt: seq<byte>, srcOff: nat, srcBlocks: nat, dstOff: int, nextTask: nat,
              pcs: seq<Pc>, ins: seq<array<byte>>, outs: seq<array<byte>>, w: nat, ghost job: Job, ghost s: Pool)
    returns (pcs': seq<Pc>, nextTask': nat, ok: bool, ghost a: Action)
    requires job.Valid() && w < |pcs| && pcs[w].Live() && Separate(ins, outs) && Mirrors(s.ws, pcs, ins, outs)
    requires job == Job(H, salt, srcOff, srcBlocks, dstOff, job.before) && WorkerOk(job, s, w)
    requires s.file == f.data && s.next == nextTask && |job.before| <= |f.data|
    modifies f, ins[w], outs[w]
    ensures f.reliable && job.Fits() ==> ok
    ensures Enabled(job, s, w, a)
    ensures var s' := Apply(job, s, w, a);
            && s'.file == f.data && s'.next == nextTask' && s'.failed == (s.failed || !ok)
            && Mirrors(s'.ws, pcs', ins, outs)
  {
    var pc;
    pc, nextTask', ok, a := Advance(f, H, salt, srcOff, srcBlocks, dstOff, nextTask, pcs[w], ins[w], outs[w],
                                    job, s, w);
    pcs' := pcs[w := pc];
    forall v | 0 <= v < |pcs| && v != w
      ensures s.ws[v] == Worker(pcs[v], ins[v][..], outs[v][..])
    {
      assert ins[v] != ins[w] && outs[v] != outs[w] && ins[v] != outs[w] && ins[w] != outs[v];
      assert ins[v][..] == old(ins[v][..]) && outs[v][..] == old(outs[v][..]);
    }
  }

  /** Starts the goroutines and runs them until all have returned. Which one
      moves next, how far a transfer gets and whether it fails are all left
      open, so the contract holds for every schedule. */
  method RunPool(f: File, H: Hash, salt: seq<byte>, srcOff: nat, srcBlocks: nat, dstOff: int,
                 ins: seq<array<byte>>, outs: seq<array<byte>>, ghost job: Job)
    returns (failed: bool, ghost s: Pool)
    requires job == Job(H, salt, srcOff, srcBlocks, dstOff, f.data) && job.Valid() && Separate(ins, outs)
    requires forall w | 0 <= w < |ins| :: ins[w][..] == Zeros(IN_BYTES) && outs[w][..] == Zeros(OUT_BYTES)
    modifies f, ins, outs
    ensures Inv(job, s) && Resting(s) && |s.ws| == |ins| && s.failed == failed && s.file == f.data
    ensures f.reliable && job.Fits() ==> !failed
  {
    var n := |ins|;
    var nextTask: nat := 0;
    var pcs := seq(n, _ => Claiming);
    failed := false;
    s := Start(job, n);
    StartOk(job, n);
    while exists w :: 0 <= w < n && pcs[w].Live()
      invariant Inv(job, s) && |pcs| == n
      invariant s.file == f.data && s.next == nextTask && s.failed == failed
      invariant f.reliable && job.Fits() ==> !failed
      invariant Mirrors(s.ws, pcs, ins, outs)
      decreases TasksLeft(job, s), RankSum(s.ws)
    {
      var w :| 0 <= w < n && pcs[w].Live();
      var ok;
      ghost var a;
      pcs, nextTask, ok, a := Turn(f, H, salt, srcOff, srcBlocks, dstOff, nextTask, pcs, ins, outs, w, job, s);
      StepKeeps(job, s, w, a);
      StepDescends(job, s, w, a);
      s := Apply(job, s, w, a);
      failed := failed || !ok;
    }
  }

  /** Builds one level with a pool of workers. */
  method VerityHashLevel(f: File, H: Hash, salt: seq<byte>, srcOff: nat, srcBlocks: nat, dstOff: int, workers: nat)
    returns (failed: bool)
    requires workers > 0 && Job(H, salt, srcOff, srcBlocks, dstOff, f.data).Valid()
    modifies f
    ensures var job := Job(H, salt, srcOff, srcBlocks, dstOff, old(f.data));
            && (!failed ==>
                  && 0 <= dstOff && dstOff + 4096 * job.DstBlocks() <= MAX_INT64
                  && f.data == job.Result())
            && (f.reliable && job.Fits() ==> !failed)
            && FileOk(job, f.data)
  {
    ghost var job := Job(H, salt, srcOff, srcBlocks, dstOff, f.data);
    var dstBlocks := CeilDiv(srcBlocks, 128);
    var tasks := CeilDiv(dstBlocks, 16);
    var ins, outs := Buffers(Min(workers, tasks));
    ghost var s;
    failed, s := RunPool(f, H, salt, srcOff, srcBlocks, dstOff, ins, outs, job);
    if !failed {
      RestingIsComplete(job, s);
      CompleteIsSequential(job, f.data);
    }
  }

  // ---- The whole format operation ----

  /** The checks before anything is written: on the parameters, then on the
      size of the file. */
  predicate Accepted(p: Params, size: nat, parseUuid: string -> Option<Uuid>) {
    && |p.salt| <= SALT_AREA_BYTES
    && 0 < p.dataBlocks <= MAX_HASH_OFFSET / 4096
    && p.hashOffset % 4096 == 0
    && p.dataBlocks * 4096 <= p.hashOffset
    && parseUuid(p.uuid).Some?
    && p.dataBlocks * 4096 <= size
  }

  predicate HasData(p: Params, file: seq<byte>) {
    0 < p.dataBlocks && p.dataBlocks * 4096 <= |file|
  }

  /** The data area of a file. */
  function DataArea(p: Params, file: seq<byte>): (d: seq<byte>)
    requires HasData(p, file)
    ensures Blocks(d) && |d| == p.dataBlocks * 4096
  {
    file[..p.dataBlocks * 4096]
  }

  /** The file after a successful format: the superblock in its slot and, right
      behind it, the tree over the data area, top level first. */
  function Formatted(H: Hash, p: Params, sb: seq<byte>, data: seq<byte>): seq<byte>
    requires HasData(p, data)
  {
    WriteBytes(WriteBytes(data, p.hashOffset, sb), p.hashOffset + 4096, Tree(H, p.salt, DataArea(p, data)))
  }

  /** The frame of a successful format: superblock slot and tree apart, no byte
      changes; the file ends where it ended or where the tree ends, whichever is
      later, and a gap before the slot reads as zeros. */
  lemma FormattedFrame(H: Hash, p: Params, sb: seq<byte>, data: seq<byte>)
    requires HasData(p, data) && |sb| == 4096 && p.dataBlocks * 4096 <= p.hashOffset
    ensures var r, end := Formatted(H, p, sb, data), p.hashOffset + 4096 + |Tree(H, p.salt, DataArea(p, data))|;
            && |r| == Max(|data|, end)
            && Slice(r, p.hashOffset, 4096) == sb
            && Slice(r, p.hashOffset + 4096, end - p.hashOffset - 4096) == Tree(H, p.salt, DataArea(p, data))
            && forall k: nat | k < |r| && !(p.hashOffset <= k < end) :: r[k] == ByteAt(data, k)
  {
    var tree, slotted := Tree(H, p.salt, DataArea(p, data)), WriteBytes(data, p.hashOffset, sb);
    ReadBack(data, p.hashOffset, sb);
    ReadElsewhere(slotted, p.hashOffset + 4096, tree, p.hashOffset, 4096);
    if tree != [] { ReadBack(slotted, p.hashOffset + 4096, tree); }
  }

  /** Blocks of each level, the lowest first. */
  method LevelBlocks(n0: nat) returns (levelBlocks: seq<nat>)
    ensures levelBlocks == Counts(n0)
  {
    levelBlocks := [];
    var n := n0;
    while n > 1
      invariant levelBlocks + Counts(n) == Counts(n0)
    {
      levelBlocks, n := levelBlocks + [CeilDiv(n, 128)], CeilDiv(n, 128);
    }
  }

  /** The next offset, going down one level, in int64. */
  lemma OffsetStep(n: nat, base: nat, i: nat, next: int)
    requires i < |Counts(n)| && next == Wrap64(base + 4096 * TreeBlocks(BlocksBelow(n, i + 1)))
    ensures next == Wrap64(LevelOffset(n, base, i))
    ensures Wrap64(next + 4096 * Counts(n)[i]) == Wrap64(base + 4096 * TreeBlocks(BlocksBelow(n, i)))
  {
    hide Wrap64, Counts, TreeBlocks;
    CountsStep(n, i);
    var off := LevelOffset(n, base, i);
    WrapOfWrap(off, 4096 * Counts(n)[i]);
    assert off + 4096 * Counts(n)[i] == base + 4096 * TreeBlocks(BlocksBelow(n, i));
  }

  lemma TopOffset(n: nat, hashOffset: nat)
    ensures Wrap64(Wrap64(hashOffset) + 4096)
         == Wrap64(hashOffset + 4096 + 4096 * TreeBlocks(BlocksBelow(n, |Counts(n)|)))
  {
    WrapOfWrap(hashOffset, 4096);
    if |Counts(n)| > 0 { TopIsOneBlock(n); }
  }

  /** Offsets of the levels, laid out top-down in int64 arithmetic. */
  method LevelOffsets(n: nat, levelBlocks: seq<nat>, hashOffset: nat) returns (levelOffset: array<int>)
    requires levelBlocks == Counts(n)
    ensures fresh(levelOffset) && levelOffset.Length == |levelBlocks|
    ensures forall i | 0 <= i < |levelBlocks| :: levelOffset[i] == Wrap64(LevelOffset(n, hashOffset + 4096, i))
  {
    hide *;
    levelOffset := new int[|levelBlocks|](_ => 0);
    var next := Wrap64(Wrap64(hashOffset) + 4096);
    TopOffset(n, hashOffset);
    ghost var base := hashOffset + 4096;
    var i := |levelBlocks|;
    while i > 0
      invariant 0 <= i <= |levelBlocks|
      invariant next == Wrap64(base + 4096 * TreeBlocks(BlocksBelow(n, i)))
      invariant forall j | i <= j < |levelBlocks| :: levelOffset[j] == Wrap64(LevelOffset(n, base, j))
    {
      i := i - 1;
      OffsetStep(n, base, i, next);
      levelOffset[i] := next;
      next := Wrap64(next + 4096 * levelBlocks[i]);
    }
  }

  /** What one level's job needs, at the level's offset as int64 holds it. */
  lemma LevelJobValid(H: Hash, p: Params, n: nat, i: nat, srcOff: nat, file: seq<byte>)
    requires n == p.dataBlocks <= MAX_HASH_OFFSET / 4096 && n * 4096 <= p.hashOffset
    requires p.hashOffset + 4096 <= MAX_INT64 && |file| <= MAX_INT64
    requires i < |Counts(n)|
    requires srcOff == if i == 0 then 0 else LevelOffset(n, p.hashOffset + 4096, i - 1)
    requires srcOff + 4096 * BlocksBelow(n, i) <= |file|
    requires i > 0 ==> p.hashOffset + 4096 + 4096 * TreeBlocks(n) <= MAX_INT64
    ensures var off := LevelOffset(n, p.hashOffset + 4096, i);
            && Job(H, p.salt, srcOff, BlocksBelow(n, i), Wrap64(off), file).Valid()
            && (Wrap64(off) >= 0 ==> Wrap64(off) == off)
  {
    var base := p.hashOffset + 4096;
    var off := LevelOffset(n, base, i);
    CountsStep(n, i);
    LevelsAreContiguous(n, base, i);
    TreeIsSmall(n);
    assert n * 4096 <= MAX_HASH_OFFSET && 4096 * TreeBlocks(n) <= MAX_HASH_OFFSET / 2;
    if i > 0 { LevelsAreContiguous(n, base, i - 1); }
    assert off + 4096 * Counts(n)[i] <= base + MAX_HASH_OFFSET / 2;
    assert srcOff + 4096 * BlocksBelow(n, i) <= off || off + 4096 * Up(BlocksBelow(n, i)) <= srcOff;
  }

  /** The first base bytes are what they were. */
  predicate KeepsHead(image: seq<byte>, file: seq<byte>, base: nat) {
    |image| <= |file| && base <= |image| && forall q | 0 <= q < base :: file[q] == image[q]
  }

  /** Between two levels, sizes and offsets: i levels are built, the last one
      has `length` bytes and stands at srcOff. */
  predicate AtLevel(n: nat, base: nat, i: nat, srcOff: int, length: nat) {
    && i <= |Counts(n)|
    && srcOff == (if i == 0 then 0 else LevelOffset(n, base, i - 1))
    && (i > 0 ==> base + 4096 * TreeBlocks(n) <= MAX_INT64)
    && length == 4096 * BlocksBelow(n, i) > 0
  }

  /** Between two levels, contents: cur has the root of the data, and it and the
      levels below it are the end of the tree. */
  ghost predicate Carries(H: Hash, salt: seq<byte>, data: seq<byte>, cur: seq<byte>, below: seq<byte>)
    requires Blocks(data)
  {
    && Blocks(cur)
    && Root(H, salt, cur) == Root(H, salt, data)
    && Tree(H, salt, data) == Tree(H, salt, cur) + below
  }

  /** Between two levels, the file: the image with what is built written in. */
  ghost predicate Wrote(H: Hash, salt: seq<byte>, image: seq<byte>, base: nat, file: seq<byte>, srcOff: int,
                        cur: seq<byte>, below: seq<byte>)
    requires Blocks(cur)
  {
    && file == WriteBytes(image, base + |Tree(H, salt, cur)|, below)
    && |file| <= MAX_INT64
    && 0 <= srcOff && srcOff + |cur| <= |file| && Slice(file, srcOff, |cur|) == cur
  }

  /** The state of the level loop: i levels are built, cur is the last of them
      and below the end of the tree below it. */
  ghost predicate Between(H: Hash, p: Params, image: seq<byte>, file: seq<byte>, i: nat, srcOff: int,
                          cur: seq<byte>, below: seq<byte>)
    requires HasData(p, image)
  {
    && AtLevel(p.dataBlocks, p.hashOffset + 4096, i, srcOff, |cur|)
    && Carries(H, p.salt, DataArea(p, image), cur, below)
    && Wrote(H, p.salt, image, p.hashOffset + 4096, file, srcOff, cur, below)
    && KeepsHead(image, file, p.hashOffset + 4096)
  }

  /** Before the first level: the data stands where it is, nothing is built. */
  lemma NothingBuilt(H: Hash, p: Params, image: seq<byte>)
    requires HasData(p, image) && p.hashOffset + 4096 <= |image| <= MAX_INT64
    ensures Between(H, p, image, image, 0, 0, DataArea(p, image), [])
  {
    var data := DataArea(p, image);
    assert Tree(H, p.salt, data) + [] == Tree(H, p.salt, data);
    assert Slice(image, 0, |data|) == data;
  }

  lemma NextLevel(n: nat, base: nat, i: nat, srcOff: int, length: nat)
    requires AtLevel(n, base, i, srcOff, length) && i < |Counts(n)|
    requires LevelOffset(n, base, i) + 4096 * Up(BlocksBelow(n, i)) <= MAX_INT64
    ensures AtLevel(n, base, i + 1, LevelOffset(n, base, i), 4096 * Up(BlocksBelow(n, i)))
    ensures base <= LevelOffset(n, base, i) && length > 4096
    ensures LevelOffset(n, base, i) == base + 4096 * TreeBlocks(Up(BlocksBelow(n, i)))
    ensures Counts(n)[i] == Up(BlocksBelow(n, i))
  {
    CountsStep(n, i);
    LevelsAreContiguous(n, base, i);
  }

  lemma CarriesUp(H: Hash, salt: seq<byte>, data: seq<byte>, cur: seq<byte>, below: seq<byte>)
    requires Blocks(data) && Carries(H, salt, data, cur, below) && |cur| > 4096
    ensures Carries(H, salt, data, Parent(H, salt, cur), Parent(H, salt, cur) + below)
  {
    var parent := Parent(H, salt, cur);
    var tree := Tree(H, salt, parent);
    assert (tree + parent) + below == tree + (parent + below);
  }

  /** Writing the bytes right before a range that was written already. */
  lemma WriteBefore(image: seq<byte>, off: nat, file: seq<byte>, level: seq<byte>, below: seq<byte>, file': seq<byte>)
    requires level != [] && file == WriteBytes(image, off + |level|, below) && |file| <= MAX_INT64
    requires off + |level| <= MAX_INT64 && file' == WriteBytes(file, off, level)
    ensures file' == WriteBytes(image, off, level + below) && |file'| <= MAX_INT64
    ensures off + |level| <= |file'| && Slice(file', off, |level|) == level
  {
    AdjacentWrites(image, off, level, below);
    ReadBack(file, off, level);
  }

  lemma WroteOneMore(H: Hash, salt: seq<byte>, image: seq<byte>, base: nat, file: seq<byte>, srcOff: int,
                     cur: seq<byte>, below: seq<byte>, file': seq<byte>, off: nat, parent: seq<byte>)
    requires Blocks(cur) && Blocks(parent) && Wrote(H, salt, image, base, file, srcOff, cur, below)
    requires Tree(H, salt, cur) == Tree(H, salt, parent) + parent
    requires off == base + |Tree(H, salt, parent)| && off + |parent| <= MAX_INT64
    requires file' == WriteBytes(file, off, parent)
    ensures Wrote(H, salt, image, base, file', off, parent, parent + below)
  {
    hide Tree, Parent, WriteBytes;
    WriteBefore(image, off, file, parent, below, file');
  }

  /** A level that was built completely takes the state one level up. */
  lemma LevelFinished(H: Hash, p: Params, image: seq<byte>, file: seq<byte>, i: nat, srcOff: nat, cur: seq<byte>,
                      below: seq<byte>, file': seq<byte>, off: nat, parent: seq<byte>)
    requires HasData(p, image) && i < |Counts(p.dataBlocks)|
    requires AtLevel(p.dataBlocks, p.hashOffset + 4096, i, srcOff, |cur|)
    requires Carries(H, p.salt, DataArea(p, image), cur, below)
    requires Wrote(H, p.salt, image, p.hashOffset + 4096, file, srcOff, cur, below)
    requires off == LevelOffset(p.dataBlocks, p.hashOffset + 4096, i)
    requires parent == Parent(H, p.salt, cur)
    requires off + |parent| <= MAX_INT64 && file' == WriteBytes(file, off, parent)
    ensures AtLevel(p.dataBlocks, p.hashOffset + 4096, i + 1, off, |parent|)
    ensures Carries(H, p.salt, DataArea(p, image), parent, parent + below)
    ensures Wrote(H, p.salt, image, p.hashOffset + 4096, file', off, parent, parent + below)
  {
    var n, base := p.dataBlocks, p.hashOffset + 4096;
    assert |cur| / 4096 == BlocksBelow(n, i);
    assert |parent| == 4096 * Up(BlocksBelow(n, i)) && |parent| / 4096 == Up(BlocksBelow(n, i));
    NextLevel(n, base, i, srcOff, |cur|);
    CarriesUp(H, p.salt, DataArea(p, image), cur, below);
    assert off == base + |Tree(H, p.salt, parent)| by { TreeLength(H, p.salt, parent); }
    WroteOneMore(H, p.salt, image, base, file, srcOff, cur, below, file', off, parent);
  }

  lemma LastIsOneBlock(n: nat, base: nat, srcOff: int, length: nat)
    requires AtLevel(n, base, |Counts(n)|, srcOff, length)
    ensures length == 4096
  {
    if |Counts(n)| > 0 { TopIsOneBlock(n); }
  }

  lemma LastCarries(H: Hash, salt: seq<byte>, data: seq<byte>, cur: seq<byte>, below: seq<byte>)
    requires Blocks(data) && Carries(H, salt, data, cur, below) && |cur| == 4096
    ensures H(salt + cur) == Root(H, salt, data) && Tree(H, salt, cur) == [] && Tree(H, salt, data) == below
  {
    OneBlock(H, salt, cur);
    assert [] + below == below;
  }

  lemma LastWrote(H: Hash, salt: seq<byte>, image: seq<byte>, base: nat, file: seq<byte>, srcOff: int,
                  cur: seq<byte>, below: seq<byte>)
    requires Blocks(cur) && |cur| == 4096 && Tree(H, salt, cur) == []
    requires Wrote(H, salt, image, base, file, srcOff, cur, below)
    ensures 0 <= srcOff && srcOff + 4096 <= |file| && file[srcOff..srcOff + 4096] == cur
    ensures file == WriteBytes(image, base, below)
  {
    hide Tree, WriteBytes;
    TopIsRead(file, srcOff, cur);
  }

  lemma BetweenParts(H: Hash, p: Params, image: seq<byte>, file: seq<byte>, i: nat, srcOff: int,
                     cur: seq<byte>, below: seq<byte>)
    requires HasData(p, image) && Between(H, p, image, file, i, srcOff, cur, below)
    ensures Blocks(cur) && AtLevel(p.dataBlocks, p.hashOffset + 4096, i, srcOff, |cur|)
    ensures Carries(H, p.salt, DataArea(p, image), cur, below)
    ensures Wrote(H, p.salt, image, p.hashOffset + 4096, file, srcOff, cur, below)
  {
  }

  /** When no level is left to build, the last one built is a single block. */
  lemma BuiltAll(H: Hash, p: Params, image: seq<byte>, file: seq<byte>, srcOff: int, cur: seq<byte>, below: seq<byte>)
    requires HasData(p, image) && Between(H, p, image, file, |Counts(p.dataBlocks)|, srcOff, cur, below)
    ensures 0 <= srcOff && srcOff + 4096 <= |file|
    ensures H(p.salt + file[srcOff..srcOff + 4096]) == Root(H, p.salt, DataArea(p, image))
    ensures file == WriteBytes(image, p.hashOffset + 4096, Tree(H, p.salt, DataArea(p, image)))
  {
    hide *;
    var data, base := DataArea(p, image), p.hashOffset + 4096;
    BetweenParts(H, p, image, file, |Counts(p.dataBlocks)|, srcOff, cur, below);
    LastIsOneBlock(p.dataBlocks, base, srcOff, |cur|);
    LastCarries(H, p.salt, data, cur, below);
    LastWrote(H, p.salt, image, base, file, srcOff, cur, below);
  }

  lemma TopIsRead(file: seq<byte>, srcOff: int, cur: seq<byte>)
    requires |cur| == 4096 && 0 <= srcOff && srcOff + 4096 <= |file| && Slice(file, srcOff, 4096) == cur
    ensures file[srcOff..srcOff + 4096] == cur
  {
  }

  lemma OneBlock(H: Hash, salt: seq<byte>, d: seq<byte>)
    requires |d| == 4096
    ensures Tree(H, salt, d) == [] && Root(H, salt, d) == H(salt + d)
  {
  }

  /** A level that was only partly built changed nothing before the tree. */
  lemma LevelKeepsHead(job: Job, before: seq<byte>, after: seq<byte>, image: seq<byte>, base: nat)
    requires job.Valid() && job.before == before && FileOk(job, after)
    requires job.dstOff < 0 || base <= job.dstOff
    requires KeepsHead(image, before, base)
    ensures KeepsHead(image, after, base)
  {
    forall q | 0 <= q < base ensures after[q] == image[q] {
      assert after[q] == ByteAt(before, q);
    }
  }

  /** The end of the tree is a file position. */
  predicate TreeFits(p: Params) {
    p.hashOffset + 4096 + 4096 * TreeBlocks(p.dataBlocks) <= MAX_INT64
  }

  lemma LevelFits(p: Params, i: nat)
    requires i < |Counts(p.dataBlocks)| && TreeFits(p)
    ensures var off := LevelOffset(p.dataBlocks, p.hashOffset + 4096, i);
            && 0 <= off && off + 4096 * Up(BlocksBelow(p.dataBlocks, i)) <= MAX_INT64 && Wrap64(off) == off
  {
    CountsStep(p.dataBlocks, i);
    LevelsAreContiguous(p.dataBlocks, p.hashOffset + 4096, i);
  }

  /** The job of the next level is one the pool takes, on the level built last. */
  lemma NextJob(H: Hash, p: Params, image: seq<byte>, file: seq<byte>, i: nat, srcOff: nat, cur: seq<byte>,
                below: seq<byte>)
    requires p.dataBlocks <= MAX_HASH_OFFSET / 4096 && p.dataBlocks * 4096 <= p.hashOffset
    requires i < |Counts(p.dataBlocks)|
    requires HasData(p, image) && p.hashOffset + 4096 <= |image| && Between(H, p, image, file, i, srcOff, cur, below)
    ensures var off := Wrap64(LevelOffset(p.dataBlocks, p.hashOffset + 4096, i));
            var job := Job(H, p.salt, srcOff, BlocksBelow(p.dataBlocks, i), off, file);
            && job.Valid() && job.Source() == cur && (off < 0 || p.hashOffset + 4096 <= off)
            && (off >= 0 ==> off == LevelOffset(p.dataBlocks, p.hashOffset + 4096, i))
            && (TreeFits(p) ==> job.Fits())
  {
    LevelJobValid(H, p, p.dataBlocks, i, srcOff, file);
    LevelsAreContiguous(p.dataBlocks, p.hashOffset + 4096, i);
    if TreeFits(p) { LevelFits(p, i); }
  }

  /** The file after the pool has built the level. */
  lemma LevelIsNext(H: Hash, p: Params, image: seq<byte>, before: seq<byte>, i: nat, srcOff: nat, cur: seq<byte>,
                    below: seq<byte>, after: seq<byte>, job: Job)
    requires HasData(p, image) && i < |Counts(p.dataBlocks)| && Between(H, p, image, before, i, srcOff, cur, below)
    requires job.Valid() && job.before == before && job.Source() == cur && job.H == H && job.salt == p.salt
    requires job.dstOff == LevelOffset(p.dataBlocks, p.hashOffset + 4096, i)
    requires job.Fits() && after == job.Result() && KeepsHead(image, after, p.hashOffset + 4096)
    ensures Between(H, p, image, after, i + 1, job.dstOff, Parent(H, p.salt, cur), Parent(H, p.salt, cur) + below)
  {
    LevelFinished(H, p, image, before, i, srcOff, cur, below, after, job.dstOff, Parent(H, p.salt, cur));
  }

  /** Builds the next level, if nothing fails. */
  method BuildLevel(f: File, H: Hash, p: Params, workers: nat, i: nat, srcOff: nat, srcBlocks: nat, dstOff: int,
                    ghost image: seq<byte>, ghost cur: seq<byte>, ghost below: seq<byte>)
    returns (failed: bool, ghost cur': seq<byte>, ghost below': seq<byte>)
    requires workers > 0 && p.dataBlocks <= MAX_HASH_OFFSET / 4096 && p.dataBlocks * 4096 <= p.hashOffset
    requires i < |Counts(p.dataBlocks)| && srcBlocks == BlocksBelow(p.dataBlocks, i)
    requires dstOff == Wrap64(LevelOffset(p.dataBlocks, p.hashOffset + 4096, i))
    requires HasData(p, image) && p.hashOffset + 4096 <= |image| && Between(H, p, image, f.data, i, srcOff, cur, below)
    modifies f
    ensures KeepsHead(image, f.data, p.hashOffset + 4096)
    ensures f.reliable && TreeFits(p) ==> !failed
    ensures !failed ==> 0 <= dstOff && Between(H, p, image, f.data, i + 1, dstOff, cur', below')
  {
    hide *;
    ghost var before := f.data;
    ghost var job := Job(H, p.salt, srcOff, srcBlocks, dstOff, before);
    NextJob(H, p, image, before, i, srcOff, cur, below);
    BetweenKeepsHead(H, p, image, before, i, srcOff, cur, below);
    failed := VerityHashLevel(f, H, p.salt, srcOff, srcBlocks, dstOff, workers);
    LevelKeepsHead(job, before, f.data, image, p.hashOffset + 4096);
    cur', below' := cur, below;
    if !failed {
      PoolFits(job);
      LevelIsNext(H, p, image, before, i, srcOff, cur, below, f.data, job);
      cur' := Parent(H, p.salt, cur);
      below' := cur' + below;
    }
  }

  lemma PoolFits(job: Job)
    requires job.Fits()
    ensures job.dstOff >= 0
  {
  }

  /** If all levels could be built, the whole tree fits. */
  lemma AllLevelsFit(p: Params, srcOff: int, length: nat)
    requires 0 < p.dataBlocks && p.hashOffset + 4096 <= MAX_INT64
    requires AtLevel(p.dataBlocks, p.hashOffset + 4096, |Counts(p.dataBlocks)|, srcOff, length)
    ensures TreeFits(p)
  {
  }

  lemma BuiltFits(H: Hash, p: Params, image: seq<byte>, file: seq<byte>, srcOff: int, cur: seq<byte>, below: seq<byte>)
    requires HasData(p, image) && p.hashOffset + 4096 <= |image| <= MAX_INT64
    requires Between(H, p, image, file, |Counts(p.dataBlocks)|, srcOff, cur, below)
    ensures TreeFits(p) && KeepsHead(image, file, p.hashOffset + 4096) && 0 <= srcOff
  {
    AllLevelsFit(p, srcOff, |cur|);
  }

  lemma BetweenKeepsHead(H: Hash, p: Params, image: seq<byte>, file: seq<byte>, i: nat, srcOff: int, cur: seq<byte>,
                         below: seq<byte>)
    requires HasData(p, image) && Between(H, p, image, file, i, srcOff, cur, below)
    ensures KeepsHead(image, file, p.hashOffset + 4096)
  {
  }

  /** Builds all levels, the lowest first, each at its place. */
  method HashLevels(f: File, H: Hash, p: Params, workers: nat)
    returns (ok: bool, srcOff: nat, ghost top: seq<byte>, ghost tree: seq<byte>)
    requires workers > 0 && p.dataBlocks <= MAX_HASH_OFFSET / 4096 && p.dataBlocks * 4096 <= p.hashOffset
    requires HasData(p, f.data) && p.hashOffset + 4096 <= |f.data| <= MAX_INT64
    modifies f
    ensures KeepsHead(old(f.data), f.data, p.hashOffset + 4096)
    ensures f.reliable && TreeFits(p) ==> ok
    ensures ok ==> TreeFits(p) && Between(H, p, old(f.data), f.data, |Counts(p.dataBlocks)|, srcOff, top, tree)
  {
    hide *;
    var n := p.dataBlocks;
    var levelBlocks := LevelBlocks(n);
    var levelOffset := LevelOffsets(n, levelBlocks, p.hashOffset);
    ghost var image := f.data;
    top, tree := DataArea(p, image), [];
    ok := true;
    var srcBlocks := n;
    srcOff := 0;
    NothingBuilt(H, p, image);
    BlocksBelowFirst(n);
    var i := 0;
    while i < |levelBlocks|
      invariant 0 <= i <= |levelBlocks| && srcBlocks == BlocksBelow(n, i)
      invariant forall j | 0 <= j < |levelBlocks| :: levelOffset[j] == Wrap64(LevelOffset(n, p.hashOffset + 4096, j))
      invariant Between(H, p, image, f.data, i, srcOff, top, tree)
    {
      var failed;
      failed, top, tree := BuildLevel(f, H, p, workers, i, srcOff, srcBlocks, levelOffset[i], image, top, tree);
      if failed { return false, srcOff, top, tree; }
      srcOff, srcBlocks := levelOffset[i], levelBlocks[i];
      BlocksBelowNext(n, i);
      i := i + 1;
    }
    BuiltFits(H, p, image, f.data, srcOff, top, tree);
  }

  lemma BlocksBelowFirst(n: nat)
    ensures BlocksBelow(n, 0) == n
  {
  }

  lemma BlocksBelowNext(n: nat, i: nat)
    requires i < |Counts(n)|
    ensures BlocksBelow(n, i + 1) == Counts(n)[i]
  {
  }

  /** Nothing below the hash offset has changed, and the file is no shorter. */
  predicate Undamaged(before: seq<byte>, after: seq<byte>, hashOffset: nat) {
    |before| <= |after| && forall q | 0 <= q < hashOffset && q < |before| :: after[q] == before[q]
  }

  lemma UndamagedByFormat(before: seq<byte>, image: seq<byte>, after: seq<byte>, hashOffset: nat)
    requires Undamaged(before, image, hashOffset) && KeepsHead(image, after, hashOffset + 4096)
    ensures Undamaged(before, after, hashOffset)
  {
  }

  /** What was written before the tree is kept by it. */
  lemma SlotIsWritten(p: Params, sb: seq<byte>, before: seq<byte>, image: seq<byte>)
    requires HasData(p, before) && p.dataBlocks * 4096 <= p.hashOffset && |sb| == 4096
    requires image == WriteBytes(before, p.hashOffset, sb)
    ensures HasData(p, image) && DataArea(p, image) == DataArea(p, before)
    ensures p.hashOffset + 4096 <= |image| && Undamaged(before, image, p.hashOffset)
  {
    assert image[..p.dataBlocks * 4096] == before[..p.dataBlocks * 4096];
  }

  /** A failed write of the superblock, too, leaves everything before it alone. */
  lemma SlotIsTorn(hashOffset: nat, sb: seq<byte>, before: seq<byte>, after: seq<byte>)
    requires after == before || exists n: nat :: n <= |sb| && after == WriteBytes(before, hashOffset, sb[..n])
    ensures Undamaged(before, after, hashOffset)
  {
  }

  /** Opens the hash area: writes the superblock into its slot. */
  method WriteSuperblock(f: File, p: Params, sb: seq<byte>) returns (ok: bool)
    requires HasData(p, f.data) && p.dataBlocks * 4096 <= p.hashOffset <= MAX_UINT64 && |sb| == 4096
              && |f.data| <= MAX_INT64
    modifies f
    ensures Undamaged(old(f.data), f.data, p.hashOffset)
    ensures ok ==>
              && f.data == WriteBytes(old(f.data), p.hashOffset, sb) && |f.data| <= MAX_INT64
              && p.hashOffset + 4096 <= |f.data|
              && HasData(p, f.data) && DataArea(p, f.data) == DataArea(p, old(f.data))
    ensures f.reliable && p.hashOffset + 4096 <= MAX_INT64 ==> ok
  {
    ok := f.WriteAt(Wrap64(p.hashOffset), sb);
    if ok {
      SlotIsWritten(p, sb, old(f.data), f.data);
    } else {
      SlotIsTorn(p.hashOffset, sb, old(f.data), f.data);
    }
  }

  /** Writes superblock and tree, and reads the root back. */
  method WriteTree(f: File, H: Hash, p: Params, sb: seq<byte>, workers: nat) returns (r: Result<Digest>)
    requires workers > 0 && p.dataBlocks <= MAX_HASH_OFFSET / 4096 && p.hashOffset <= MAX_UINT64
    requires HasData(p, f.data) && p.dataBlocks * 4096 <= p.hashOffset && |sb| == 4096 && |f.data| <= MAX_INT64
    modifies f
    ensures Undamaged(old(f.data), f.data, p.hashOffset)
    ensures r.Ok? ==>
              TreeFits(p) && r.value == Root(H, p.salt, DataArea(p, old(f.data)))
                  && f.data == Formatted(H, p, sb, old(f.data))
    ensures f.reliable && TreeFits(p) ==> r.Ok?
  {
    hide Root, Tree, Parent, Counts, Between, KeepsHead, TreeBlocks, WriteBytes, HasData, DataArea;
    var io := WriteSuperblock(f, p, sb);
    if !io { return Err; }
    ghost var image := f.data;
    var ok, srcOff;
    ghost var cur, tree;
    ok, srcOff, cur, tree := HashLevels(f, H, p, workers);
    UndamagedByFormat(old(f.data), image, f.data, p.hashOffset);
    if !ok { return Err; }
    BuiltAll(H, p, image, f.data, srcOff, cur, tree);
    io := f.Touch();
    if !io { return Err; }
    var top := f.data[srcOff..srcOff + 4096];
    var root := H(p.salt + top);
    io := f.Touch();
    if !io { return Err; }
    return Ok(root);
  }

  /** Writes superblock and hash tree for the leading blocks of f and returns
      the root hash. Opening, reading, writing and syncing the file may fail at
      any point; on a file where nothing does, the call succeeds exactly if the
      parameters are accepted and the tree ends at a file position. */
  method FormatVerityHashTree(f: File, p: Params, H: Hash, parseUuid: string -> Option<Uuid>, maxProcs: nat)
    returns (r: Result<Digest>)
    requires p.dataBlocks <= MAX_UINT64 && p.hashOffset <= MAX_UINT64 && |f.data| <= MAX_INT64 && maxProcs > 0
    modifies f
    ensures !Accepted(p, |old(f.data)|, parseUuid) ==> r.Err? && f.data == old(f.data)
    ensures r.Ok? ==>
              && r.value == Root(H, p.salt, DataArea(p, old(f.data)))
              && exists sb :: IsSuperblock(sb, p, parseUuid(p.uuid).value) && f.data == Formatted(H, p, sb, old(f.data))
    ensures r.Ok? ==> TreeFits(p)
    ensures f.reliable && Accepted(p, |old(f.data)|, parseUuid) && TreeFits(p) ==> r.Ok?
    ensures Undamaged(old(f.data), f.data, p.hashOffset)
  {
    hide Root, Tree, Counts, IsSuperblock, TreeBlocks, TreeFits, Formatted, DataArea;
    if |p.salt| > SALT_AREA_BYTES { return Err; }
    if p.dataBlocks == 0 { return Err; }
    if p.dataBlocks > MAX_HASH_OFFSET / 4096 { return Err; }
    if p.hashOffset % 4096 != 0 { return Err; }
    if p.hashOffset < p.dataBlocks * 4096 { return Err; }
    var uuid := parseUuid(p.uuid);
    if uuid.None? { return Err; }
    var sb := VeritySuperblock(p, uuid.value);
    var workers := if p.workers <= 0 then maxProcs else p.workers;
    var io := f.Touch();
    if !io { return Err; }
    if |f.data| < p.dataBlocks * 4096 { return Err; }
    r := WriteTree(f, H, p, sb, workers);
  }
}
