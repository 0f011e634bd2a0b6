/** The worker pool that builds one tree level, as a machine whose steps are
    the atomic actions of its goroutines. A read or a write takes any number of
    partial steps, so pieces of different workers' transfers interleave freely;
    filling the output buffer touches memory of one worker only and is one
    step. Any action of the file may fail. */
module HashPool {
  import opened Bytes
  import opened Merkle
  import opened Geometry

  /** One call of the level builder: the source blocks, where the digests go,
      and the file's content at the call. */
  datatype Job = Job(H: Hash, salt: seq<byte>, srcOff: nat, srcBlocks: nat, dstOff: int, before: seq<byte>)
  {
    function DstBlocks(): nat { Up(srcBlocks) }

    function Tasks(): nat { CeilDiv(DstBlocks(), 16) }

    /** What the callers of the level builder give: the source lies in the file,
        the destination does not meet it, and an offset that has wrapped stays
        negative over the whole level. */
    predicate Valid() {
      && 0 < srcBlocks
      && srcOff + 4096 * srcBlocks <= |before| <= MAX_INT64
      && -0x8000_0000_0000_0000 <= dstOff <= MAX_INT64
      && (dstOff < 0 ==> dstOff + 4096 * DstBlocks() < 0)
      && (dstOff >= 0 ==> srcOff + 4096 * srcBlocks <= dstOff || dstOff + 4096 * DstBlocks() <= srcOff)
    }

    function Source(): (s: seq<byte>)
      requires Valid()
      ensures Blocks(s) && |s| == 4096 * srcBlocks
    {
      Slice(before, srcOff, 4096 * srcBlocks)
    }

    /** Byte k of the level to be built. */
    function Want(k: nat): byte
      requires Valid()
    {
      ParentByte(H, salt, Source(), k)
    }

    // Task t hashes 2048 blocks into 16, or what is left of them.

    function NDst(t: nat): nat
      requires t < Tasks()
    {
      Min(16, DstBlocks() - 16 * t)
    }

    function NSrc(t: nat): nat
      requires t < Tasks()
    {
      Min(128 * NDst(t), srcBlocks - 2048 * t)
    }

    function InLen(t: nat): (n: nat)
      requires t < Tasks()
      ensures 0 < n <= IN_BYTES
    {
      4096 * NSrc(t)
    }

    /** Task t's part of the source. */
    function InSlice(t: nat): (s: seq<byte>)
      requires Valid() && t < Tasks()
      ensures |s| == InLen(t)
    {
      assert 2048 * t < srcBlocks;
      Slice(Source(), 8388608 * t, InLen(t))
    }

    function OutLen(t: nat): (n: nat)
      requires t < Tasks()
      ensures 0 < n <= OUT_BYTES
    {
      4096 * NDst(t)
    }

    /** Positions as the program computes them, in int64. */
    function ReadPos(t: nat): int { Wrap64(srcOff + 8388608 * t) }

    function WritePos(t: nat): int { Wrap64(dstOff + 65536 * t) }

    /** Every position of the level is one in the file. */
    predicate Fits() { 0 <= dstOff && dstOff + 4096 * DstBlocks() <= MAX_INT64 }

    /** The sequential result. */
    function Result(): seq<byte>
      requires Valid() && dstOff >= 0
    {
      WriteBytes(before, dstOff, Parent(H, salt, Source()))
    }
  }

  const IN_BYTES: nat := 8388608
  const OUT_BYTES: nat := 65536

  datatype Pc =
    | Claiming
    | Reading(t: nat, got: nat)
    | Filling(t: nat)
    | Writing(t: nat, put: nat)
    | Finished
    | Stopped(t: nat)
  {
    predicate Holds(u: nat) {
      match this
      case Claiming => false
      case Finished => false
      case Reading(t, _) => t == u
      case Filling(t) => t == u
      case Writing(t, _) => t == u
      case Stopped(t) => t == u
    }

    predicate Live() { !Finished? && !Stopped? }
  }

  datatype Worker = Worker(pc: Pc, input: seq<byte>, output: seq<byte>)

  /** The pool: the shared counter, the workers, the file, whether an error was
      reported; owner and done record which worker claimed a task and which
      tasks are complete. */
  datatype Pool = Pool(next: nat, ws: seq<Worker>, file: seq<byte>, failed: bool, owner: map<nat, nat>, done: set<nat>)

  datatype Action = Claim | Read(n: nat) | Fill | Write(n: nat) | Fail

  function Start(job: Job, workers: nat): Pool {
    Pool(0, seq(workers, _ => Worker(Claiming, Zeros(IN_BYTES), Zeros(OUT_BYTES))), job.before, false, map[], {})
  }

  predicate Enabled(job: Job, s: Pool, w: nat, a: Action) {
    && w < |s.ws|
    && |s.ws[w].input| == IN_BYTES && |s.ws[w].output| == OUT_BYTES
    && match (a, s.ws[w].pc) {
         case (Claim, Claiming) => true
         case (Read(n), Reading(t, got)) =>
           && t < job.Tasks() && 0 < n && got + n <= job.InLen(t)
           && 0 <= job.ReadPos(t) && job.ReadPos(t) + got + n <= |s.file|
         case (Fill, Filling(t)) => t < job.Tasks()
         case (Write(n), Writing(t, put)) =>
           && t < job.Tasks() && 0 < n && put + n <= job.OutLen(t)
           && 0 <= job.WritePos(t) && job.WritePos(t) + put + n <= MAX_INT64
         case (Fail, Reading(_, _)) => true
         case (Fail, Writing(_, _)) => true
         case _ => false
       }
  }

  function Packed(H: Hash, salt: seq<byte>, src: seq<byte>, n: nat): (r: seq<byte>)
    requires Whole(src)
    ensures |r| == n
  {
    seq(n, k requires 0 <= k => ParentByte(H, salt, src, k))
  }

  function Claimed(job: Job, s: Pool, w: nat): Pool
    requires w < |s.ws|
  {
    if s.next < job.Tasks() then
      s.(next := s.next + 1, ws := s.ws[w := s.ws[w].(pc := Reading(s.next, 0))], owner := s.owner[s.next := w])
    else
      s.(next := s.next + 1, ws := s.ws[w := s.ws[w].(pc := Finished)])
  }

  function WasRead(job: Job, s: Pool, w: nat, n: nat): Pool
    requires Enabled(job, s, w, Read(n))
  {
    var x := s.ws[w];
    var t, got := x.pc.t, x.pc.got;
    var input := Splice(x.input, got, Slice(s.file, job.ReadPos(t) + got, n));
    s.(ws := s.ws[w := x.(input := input, pc := if got + n == job.InLen(t) then Filling(t) else Reading(t, got + n))])
  }

  function Filled(job: Job, s: Pool, w: nat): Pool
    requires Enabled(job, s, w, Fill)
  {
    var x := s.ws[w];
    var t := x.pc.t;
    var output := Splice(x.output, 0, Packed(job.H, job.salt, x.input[..job.InLen(t)], job.OutLen(t)));
    s.(ws := s.ws[w := x.(output := output, pc := Writing(t, 0))])
  }

  function Written(job: Job, s: Pool, w: nat, n: nat): Pool
    requires Enabled(job, s, w, Write(n))
  {
    var x := s.ws[w];
    var t, put := x.pc.t, x.pc.put;
    var complete := put + n == job.OutLen(t);
    s.(file := WriteBytes(s.file, job.WritePos(t) + put, Slice(x.output, put, n)),
       ws := s.ws[w := x.(pc := if complete then Claiming else Writing(t, put + n))],
       done := if complete then s.done + {t} else s.done)
  }

  function Gone(s: Pool, w: nat): Pool
    requires w < |s.ws| && (s.ws[w].pc.Reading? || s.ws[w].pc.Writing?)
  {
    s.(failed := true, ws := s.ws[w := s.ws[w].(pc := Stopped(s.ws[w].pc.t))])
  }

  function Apply(job: Job, s: Pool, w: nat, a: Action): Pool
    requires Enabled(job, s, w, a)
  {
    match a
    case Claim => Claimed(job, s, w)
    case Read(n) => WasRead(job, s, w, n)
    case Fill => Filled(job, s, w)
    case Write(n) => Written(job, s, w, n)
    case Fail => Gone(s, w)
  }

  // ---- The invariant ----

  /** The first n bytes of task t's output stand in the file. */
  ghost predicate Placed(job: Job, file: seq<byte>, t: nat, n: nat)
    requires job.Valid()
  {
    n > 0 ==>
      && 0 <= job.dstOff
      && job.dstOff + 65536 * t + n <= |file|
      && forall q | job.dstOff + 65536 * t <= q < job.dstOff + 65536 * t + n ::
           file[q] == job.Want(q - job.dstOff)
  }

  /** The file differs from what it was only inside the level, and is no longer
      than the level makes it. */
  ghost predicate FileOk(job: Job, file: seq<byte>)
    requires job.Valid()
  {
    && |job.before| <= |file|
    && (job.dstOff < 0 ==> file == job.before)
    && (job.dstOff >= 0 ==> |file| <= Max(|job.before|, job.dstOff + 4096 * job.DstBlocks()))
    && |file| <= MAX_INT64
    && forall q: nat | q < |file| && !(job.dstOff <= q < job.dstOff + 4096 * job.DstBlocks()) ::
         file[q] == ByteAt(job.before, q)
  }

  ghost predicate WorkerOk(job: Job, s: Pool, w: nat)
    requires job.Valid() && w < |s.ws|
  {
    var x := s.ws[w];
    && |x.input| == IN_BYTES && |x.output| == OUT_BYTES
    && match x.pc {
         case Claiming => true
         case Finished => s.next > job.Tasks()
         case Reading(t, got) =>
           && Owns(job, s, w, t)
           && got < job.InLen(t)
           && x.input[..got] == job.InSlice(t)[..got]
         case Filling(t) =>
           && Owns(job, s, w, t)
           && x.input[..job.InLen(t)] == job.InSlice(t)
         case Writing(t, put) =>
           && Owns(job, s, w, t)
           && put < job.OutLen(t)
           && Placed(job, s.file, t, put)
           && forall k | 0 <= k < job.OutLen(t) ::
                x.output[k] == job.Want(65536 * t + k)
         case Stopped(t) => Owns(job, s, w, t) && s.failed
       }
  }

  /** Task t was claimed by worker w, is not complete, and is a task at all. */
  predicate Owns(job: Job, s: Pool, w: nat, t: nat) {
    t < job.Tasks() && t < s.next && t in s.owner && s.owner[t] == w && t !in s.done
  }

  /** Every claimed task is either complete or in the hands of the one worker
      that claimed it. */
  ghost predicate TasksOk(job: Job, s: Pool) {
    && (forall t: nat :: t in s.owner <==> t < s.next && t < job.Tasks())
    && (forall t | t in s.owner :: s.owner[t] < |s.ws|)
    && (forall t | t in s.done :: t in s.owner)
    && (forall t | t in s.owner && t !in s.done :: s.ws[s.owner[t]].pc.Holds(t))
  }

  ghost function FinishedWorkers(ws: seq<Worker>): set<nat> {
    set w: nat | w < |ws| && ws[w].pc.Finished?
  }

  ghost predicate Inv(job: Job, s: Pool)
    requires job.Valid()
  {
    && FileOk(job, s.file)
    && TasksOk(job, s)
    && (forall w: nat | w < |s.ws| :: WorkerOk(job, s, w))
    && (forall t | t in s.done :: Placed(job, s.file, t, job.OutLen(t)))
    && s.next <= job.Tasks() + |FinishedWorkers(s.ws)|
  }

  // ---- Arithmetic of the slices ----

  /** A task's input lies in the source and its output in the level; the last
      task ends where the level ends. */
  lemma TaskBounds(job: Job, t: nat)
    requires t < job.Tasks()
    ensures 8388608 * t + job.InLen(t) <= 4096 * job.srcBlocks
    ensures 65536 * t + job.OutLen(t) <= 4096 * job.DstBlocks()
    ensures t == job.Tasks() - 1 ==> 65536 * t + job.OutLen(t) == 4096 * job.DstBlocks()
    ensures t < job.Tasks() - 1 ==> job.OutLen(t) == OUT_BYTES
  {
  }

  /** The file positions of a worker are exact, except that a destination near
      2^63 wraps to a negative offset; the block numbers they come from are far
      from wrapping. */
  lemma Positions(job: Job, t: nat)
    requires job.Valid() && t < job.Tasks()
    ensures job.ReadPos(t) == job.srcOff + 8388608 * t
    ensures 16 * t < MAX_INT64 && 2048 * t < MAX_INT64 && 8388608 * t <= MAX_INT64
    ensures job.dstOff >= 0 && job.dstOff + 65536 * t <= MAX_INT64 ==> job.WritePos(t) == job.dstOff + 65536 * t
    ensures job.dstOff >= 0 && job.dstOff + 65536 * t > MAX_INT64 ==> job.WritePos(t) < 0
    ensures job.dstOff < 0 ==> job.WritePos(t) < 0
  {
    TaskBounds(job, t);
    assert 0 <= 65536 * t < 0x4000_0000_0000_0000;
  }

  lemma DigestIndex(t: nat, k: nat)
    ensures (65536 * t + k) / 32 == 2048 * t + k / 32 && (65536 * t + k) % 32 == k % 32
  {
  }

  /** A digest computed from a task's own slice is the level's byte. */
  lemma TaskByte(job: Job, t: nat, k: nat)
    requires job.Valid() && t < job.Tasks() && k < job.OutLen(t)
    ensures ParentByte(job.H, job.salt, job.InSlice(t), k)
         == job.Want(65536 * t + k)
  {
    var src, part := job.Source(), job.InSlice(t);
    DigestIndex(t, k);
    if k / 32 < job.NSrc(t) {
      SliceOfSlice(src, 8388608 * t, job.InLen(t), 4096 * (k / 32), 4096);
      assert Block(part, k / 32) == Block(src, 2048 * t + k / 32);
    }
  }

  // ---- Each action keeps the invariant ----

  /** What a step of worker w may change for another worker's benefit. */
  ghost predicate Undisturbed(job: Job, s: Pool, s': Pool, w: nat)
    requires job.Valid()
  {
    && |s'.ws| == |s.ws|
    && (forall v: nat | v < |s.ws| && v != w :: s'.ws[v] == s.ws[v])
    && s.next <= s'.next
    && (s.failed ==> s'.failed)
    && (forall t: nat | t in s.owner :: t in s'.owner && s'.owner[t] == s.owner[t])
    && (forall t: nat | t in s'.done && t !in s.done :: t in s.owner && s.owner[t] == w)
    && (forall t: nat, n: nat | t < job.Tasks() && n <= job.OutLen(t)
        && (t in s.owner ==> s.owner[t] != w || t in s.done)
          && Placed(job, s.file, t, n) :: Placed(job, s'.file, t, n))
  }

  lemma OtherWorkerOk(job: Job, s: Pool, s': Pool, w: nat, v: nat)
    requires job.Valid() && Undisturbed(job, s, s', w) && v < |s.ws| && v != w
    requires WorkerOk(job, s, v)
    ensures WorkerOk(job, s', v)
  {
  }

  /** A step that disturbs nobody else keeps the invariant if it keeps the
      acting worker's share of it. */
  lemma LocalStep(job: Job, s: Pool, s': Pool, w: nat)
    requires job.Valid() && Inv(job, s) && w < |s.ws| && Undisturbed(job, s, s', w)
    requires FileOk(job, s'.file) && TasksOk(job, s') && WorkerOk(job, s', w)
    requires forall t | t in s'.done && t !in s.done :: t < job.Tasks() && Placed(job, s'.file, t, job.OutLen(t))
    requires s'.next <= job.Tasks() + |FinishedWorkers(s'.ws)|
    ensures Inv(job, s')
  {
    forall v: nat | v < |s'.ws| ensures WorkerOk(job, s', v) {
      if v != w { OtherWorkerOk(job, s, s', w, v); }
    }
  }

  lemma FinishedAfter(ws: seq<Worker>, w: nat, x: Worker)
    requires w < |ws| && !ws[w].pc.Finished?
    ensures w !in FinishedWorkers(ws)
    ensures FinishedWorkers(ws[w := x]) == if x.pc.Finished? then FinishedWorkers(ws) + {w} else FinishedWorkers(ws)
  {
    var ws' := ws[w := x];
    forall v: nat | v < |ws| && v != w
      ensures v in FinishedWorkers(ws') <==> v in FinishedWorkers(ws)
    {
      assert ws'[v] == ws[v];
    }
    assert ws'[w] == x;
  }

  lemma ClaimKeepsTasks(job: Job, s: Pool, w: nat)
    requires job.Valid() && TasksOk(job, s) && Enabled(job, s, w, Claim)
    ensures TasksOk(job, Claimed(job, s, w))
  {
    forall t | t in s.owner && t !in s.done
      ensures Claimed(job, s, w).ws[s.owner[t]].pc.Holds(t)
    {
      assert s.ws[s.owner[t]].pc.Holds(t);
    }
  }

  lemma ClaimKeeps(job: Job, s: Pool, w: nat)
    requires job.Valid() && Inv(job, s) && Enabled(job, s, w, Claim)
    ensures Inv(job, Claimed(job, s, w))
  {
    var s' := Claimed(job, s, w);
    FinishedAfter(s.ws, w, s'.ws[w]);
    assert TasksOk(job, s') by { ClaimKeepsTasks(job, s, w); }
    LocalStep(job, s, s', w);
  }

  lemma SpliceExtends(buf: seq<byte>, got: nat, part: seq<byte>, want: seq<byte>)
    requires got + |part| <= |want| <= |buf|
    requires buf[..got] == want[..got] && part == want[got..got + |part|]
    ensures Splice(buf, got, part)[..got + |part|] == want[..got + |part|]
  {
    assert want[..got + |part|] == want[..got] + part;
    assert Splice(buf, got, part)[..got + |part|] == buf[..got] + part;
  }

  /** Within the source range the file still is what it was at the call. */
  lemma ReadsSource(job: Job, file: seq<byte>, t: nat, got: nat, n: nat)
    requires job.Valid() && FileOk(job, file) && t < job.Tasks() && got + n <= job.InLen(t)
    requires job.srcOff + 8388608 * t + got + n <= |file|
    ensures Slice(file, job.srcOff + 8388608 * t + got, n) == job.InSlice(t)[got..got + n]
  {
    TaskBounds(job, t);
    var off, part := job.srcOff + 8388608 * t + got, job.InSlice(t);
    forall k | 0 <= k < n
      ensures Slice(file, off, n)[k] == part[got + k]
    {
      assert file[off + k] == ByteAt(job.before, off + k);
      assert part[got + k] == job.Source()[8388608 * t + (got + k)];
    }
  }

  lemma ReadFillsInput(job: Job, s: Pool, w: nat, n: nat)
    requires job.Valid() && FileOk(job, s.file) && Enabled(job, s, w, Read(n)) && WorkerOk(job, s, w)
    ensures var t, got := s.ws[w].pc.t, s.ws[w].pc.got;
            WasRead(job, s, w, n).ws[w].input[..got + n] == job.InSlice(t)[..got + n]
  {
    hide FileOk, Splice, Slice, CeilDiv, Wrap64, ParentByte, Placed;
    var t, got := s.ws[w].pc.t, s.ws[w].pc.got;
    Positions(job, t);
    ReadsSource(job, s.file, t, got, n);
    var want := job.InSlice(t);
    SpliceExtends(s.ws[w].input, got, want[got..got + n], want);
  }

  lemma ReadKeepsWorker(job: Job, s: Pool, w: nat, n: nat)
    requires job.Valid() && FileOk(job, s.file) && Enabled(job, s, w, Read(n)) && WorkerOk(job, s, w)
    ensures WorkerOk(job, WasRead(job, s, w, n), w)
  {
    ReadFillsInput(job, s, w, n);
    var want := job.InSlice(s.ws[w].pc.t);
    assert want[..|want|] == want;
  }

  lemma ReadKeeps(job: Job, s: Pool, w: nat, n: nat)
    requires job.Valid() && Inv(job, s) && Enabled(job, s, w, Read(n))
    ensures Inv(job, WasRead(job, s, w, n))
  {
    hide ParentByte, CeilDiv, Wrap64, Placed, FileOk, Splice, Slice;
    var s' := WasRead(job, s, w, n);
    ReadKeepsWorker(job, s, w, n);
    FinishedAfter(s.ws, w, s'.ws[w]);
    LocalStep(job, s, s', w);
  }

  lemma FillHashesSlice(job: Job, s: Pool, w: nat)
    requires job.Valid() && Enabled(job, s, w, Fill) && WorkerOk(job, s, w)
    ensures WorkerOk(job, Filled(job, s, w), w)
  {
    hide ParentByte, Wrap64;
    var s' := Filled(job, s, w);
    var t := s.ws[w].pc.t;
    var part := job.InSlice(t);
    forall k | 0 <= k < job.OutLen(t)
      ensures s'.ws[w].output[k] == job.Want(65536 * t + k)
    {
      TaskByte(job, t, k);
      assert s'.ws[w].output[k] == ParentByte(job.H, job.salt, part, k);
    }
  }

  lemma FillKeeps(job: Job, s: Pool, w: nat)
    requires job.Valid() && Inv(job, s) && Enabled(job, s, w, Fill)
    ensures Inv(job, Filled(job, s, w))
  {
    hide ParentByte, CeilDiv, Wrap64, Placed, FileOk, Packed, Splice;
    var s' := Filled(job, s, w);
    FillHashesSlice(job, s, w);
    FinishedAfter(s.ws, w, s'.ws[w]);
    LocalStep(job, s, s', w);
  }

  /** A write into task t's range leaves every other task's bytes alone. */
  lemma WriteMissesOthers(job: Job, file: seq<byte>, t: nat, off: nat, buf: seq<byte>, u: nat, n: nat)
    requires job.Valid() && t < job.Tasks() && u < job.Tasks() && t != u
    requires 0 <= job.dstOff && job.dstOff + 65536 * t <= off && off + |buf| <= job.dstOff + 65536 * t + job.OutLen(t)
    requires n <= job.OutLen(u) && Placed(job, file, u, n)
    ensures Placed(job, WriteBytes(file, off, buf), u, n)
  {
  }

  lemma WriteExtends(job: Job, file: seq<byte>, t: nat, put: nat, buf: seq<byte>)
    requires job.Valid() && 0 <= job.dstOff && buf != [] && Placed(job, file, t, put)
    requires forall k | 0 <= k < |buf| :: buf[k] == job.Want(65536 * t + put + k)
    ensures Placed(job, WriteBytes(file, job.dstOff + 65536 * t + put, buf), t, put + |buf|)
  {
    hide ParentByte;
    var start := 65536 * t;
    var off := job.dstOff + start + put;
    var file' := WriteBytes(file, off, buf);
    forall q | job.dstOff + start <= q < off + |buf|
      ensures file'[q] == job.Want(q - job.dstOff)
    {
      if off <= q {
        var k := q - off;
        assert start + put + k == q - job.dstOff;
        assert file'[q] == buf[k];
      } else {
        assert file'[q] == file[q];
      }
    }
  }

  /** A write inside the level keeps the rest of the file. */
  lemma WriteStaysInside(job: Job, file: seq<byte>, t: nat, off: nat, buf: seq<byte>)
    requires job.Valid() && FileOk(job, file) && t < job.Tasks()
    requires 0 <= job.dstOff && job.dstOff + 65536 * t <= off && off + |buf| <= job.dstOff + 65536 * t + job.OutLen(t)
    requires off + |buf| <= MAX_INT64
    ensures FileOk(job, WriteBytes(file, off, buf))
  {
    TaskBounds(job, t);
  }

  /** After a partial write that much more of task t's output stands in the file. */
  lemma WritePlaces(job: Job, file: seq<byte>, x: Worker, t: nat, put: nat, n: nat)
    requires job.Valid() && 0 <= job.dstOff && t < job.Tasks() && 0 < n && put + n <= job.OutLen(t) <= |x.output|
    requires Placed(job, file, t, put)
    requires forall k | 0 <= k < job.OutLen(t) ::
               x.output[k] == job.Want(65536 * t + k)
    ensures Placed(job, WriteBytes(file, job.dstOff + 65536 * t + put, Slice(x.output, put, n)), t, put + n)
  {
    var buf := Slice(x.output, put, n);
    forall k | 0 <= k < |buf|
      ensures buf[k] == job.Want(65536 * t + put + k)
    {
      assert buf[k] == x.output[put + k];
    }
    WriteExtends(job, file, t, put, buf);
  }

  lemma WriteDisturbsNobody(job: Job, s: Pool, w: nat, n: nat)
    requires job.Valid() && TasksOk(job, s) && Enabled(job, s, w, Write(n)) && WorkerOk(job, s, w)
    ensures Undisturbed(job, s, Written(job, s, w, n), w)
  {
    var s' := Written(job, s, w, n);
    var t, put := s.ws[w].pc.t, s.ws[w].pc.put;
    Positions(job, t);
    forall u: nat, m: nat | u < job.Tasks() && m <= job.OutLen(u) && u != t && Placed(job, s.file, u, m)
      ensures Placed(job, s'.file, u, m)
    {
      WriteMissesOthers(job, s.file, t, job.dstOff + 65536 * t + put, Slice(s.ws[w].output, put, n), u, m);
    }
  }

  lemma WriteKeepsTasks(job: Job, s: Pool, w: nat, n: nat)
    requires job.Valid() && TasksOk(job, s) && Enabled(job, s, w, Write(n)) && WorkerOk(job, s, w)
    ensures TasksOk(job, Written(job, s, w, n))
  {
  }

  lemma WritePlacesTask(job: Job, s: Pool, w: nat, n: nat)
    requires job.Valid() && Enabled(job, s, w, Write(n)) && WorkerOk(job, s, w)
    ensures Placed(job, Written(job, s, w, n).file, s.ws[w].pc.t, s.ws[w].pc.put + n)
  {
    hide WriteBytes, Placed;
    var x, s' := s.ws[w], Written(job, s, w, n);
    var t, put := x.pc.t, x.pc.put;
    Positions(job, t);
    assert s'.file == WriteBytes(s.file, job.dstOff + 65536 * t + put, Slice(x.output, put, n));
    assert Placed(job, s.file, t, put);
    WritePlaces(job, s.file, x, t, put, n);
  }

  lemma WriteKeepsWorker(job: Job, s: Pool, w: nat, n: nat)
    requires job.Valid() && Enabled(job, s, w, Write(n)) && WorkerOk(job, s, w)
    ensures WorkerOk(job, Written(job, s, w, n), w)
  {
    WritePlacesTask(job, s, w, n);
    var s' := Written(job, s, w, n);
    assert s'.ws[w].output == s.ws[w].output && s'.ws[w].input == s.ws[w].input;
  }

  lemma WriteKeepsFile(job: Job, s: Pool, w: nat, n: nat)
    requires job.Valid() && FileOk(job, s.file) && Enabled(job, s, w, Write(n)) && WorkerOk(job, s, w)
    ensures FileOk(job, Written(job, s, w, n).file)
  {
    var t, put := s.ws[w].pc.t, s.ws[w].pc.put;
    Positions(job, t);
    WriteStaysInside(job, s.file, t, job.dstOff + 65536 * t + put, Slice(s.ws[w].output, put, n));
  }

  lemma WriteKeeps(job: Job, s: Pool, w: nat, n: nat)
    requires job.Valid() && Inv(job, s) && Enabled(job, s, w, Write(n))
    ensures Inv(job, Written(job, s, w, n))
  {
    var s' := Written(job, s, w, n);
    WriteKeepsFile(job, s, w, n);
    WriteDisturbsNobody(job, s, w, n);
    WriteKeepsTasks(job, s, w, n);
    WriteKeepsWorker(job, s, w, n);
    WritePlacesTask(job, s, w, n);
    FinishedAfter(s.ws, w, s'.ws[w]);
    LocalStep(job, s, s', w);
  }

  lemma FailKeeps(job: Job, s: Pool, w: nat)
    requires job.Valid() && Inv(job, s) && Enabled(job, s, w, Fail)
    ensures Inv(job, Gone(s, w))
  {
    hide ParentByte, CeilDiv, Wrap64, Placed, FileOk;
    var s' := Gone(s, w);
    assert WorkerOk(job, s, w);
    FinishedAfter(s.ws, w, s'.ws[w]);
    LocalStep(job, s, s', w);
  }

  lemma StepKeeps(job: Job, s: Pool, w: nat, a: Action)
    requires job.Valid() && Inv(job, s) && Enabled(job, s, w, a)
    ensures Inv(job, Apply(job, s, w, a))
  {
    match a
    case Claim => ClaimKeeps(job, s, w);
    case Read(n) => ReadKeeps(job, s, w, n);
    case Fill => FillKeeps(job, s, w);
    case Write(n) => WriteKeeps(job, s, w, n);
    case Fail => FailKeeps(job, s, w);
  }

  // ---- Whole runs ----

  datatype Step = Step(w: nat, a: Action)

  /** s' is reached from s by these steps, in this order. */
  predicate Runs(job: Job, s: Pool, steps: seq<Step>, s': Pool)
    decreases |steps|
  {
    if steps == [] then s == s'
    else Enabled(job, s, steps[0].w, steps[0].a) && Runs(job, Apply(job, s, steps[0].w, steps[0].a), steps[1..], s')
  }

  /** The pool has come to rest: every goroutine has returned. */
  predicate Resting(s: Pool) {
    forall w | 0 <= w < |s.ws| :: !s.ws[w].pc.Live()
  }

  lemma StartOk(job: Job, workers: nat)
    requires job.Valid()
    ensures Inv(job, Start(job, workers))
  {
  }

  lemma {:induction false} RunKeeps(job: Job, s: Pool, steps: seq<Step>, s': Pool)
    requires job.Valid() && Inv(job, s) && Runs(job, s, steps, s')
    ensures Inv(job, s') && |s'.ws| == |s.ws|
    decreases |steps|
  {
    if steps != [] {
      StepKeeps(job, s, steps[0].w, steps[0].a);
      RunKeeps(job, Apply(job, s, steps[0].w, steps[0].a), steps[1..], s');
    }
  }

  /** At rest without an error every task is complete. */
  lemma RestingIsComplete(job: Job, s: Pool)
    requires job.Valid() && Inv(job, s) && Resting(s) && !s.failed && |s.ws| > 0
    ensures forall t: nat | t < job.Tasks() :: t in s.done && Placed(job, s.file, t, job.OutLen(t))
  {
    assert WorkerOk(job, s, 0);
    assert s.next > job.Tasks();
    forall t: nat | t < job.Tasks()
      ensures t in s.done
    {
      assert t in s.owner;
      assert WorkerOk(job, s, s.owner[t]);
    }
  }

  /** When every task's bytes stand in the file, the file is the sequential
      result. */
  lemma CompleteIsSequential(job: Job, file: seq<byte>)
    requires job.Valid() && FileOk(job, file)
    requires forall t: nat | t < job.Tasks() :: Placed(job, file, t, job.OutLen(t))
    ensures 0 <= job.dstOff && job.dstOff + 4096 * job.DstBlocks() <= MAX_INT64
    ensures file == job.Result()
  {
    var last := job.Tasks() - 1;
    TaskBounds(job, last);
    assert Placed(job, file, last, job.OutLen(last));
    var parent := Parent(job.H, job.salt, job.Source());
    assert |file| == |job.Result()|;
    forall q | 0 <= q < |file|
      ensures file[q] == job.Result()[q]
    {
      if job.dstOff <= q < job.dstOff + |parent| {
        var t := (q - job.dstOff) / 65536;
        TaskBounds(job, t);
        assert Placed(job, file, t, job.OutLen(t));
        ParentAt(job.H, job.salt, job.Source(), q - job.dstOff);
      }
    }
  }

  /** Whatever the number of workers, the schedule and the sizes of the partial
      transfers: a pool that comes to rest without reporting an error has
      completed every task and left the sequential result; with or without an
      error no byte outside the level has changed. */
  lemma EveryScheduleIsSequential(job: Job, workers: nat, steps: seq<Step>, s: Pool)
    requires job.Valid() && workers > 0 && Runs(job, Start(job, workers), steps, s)
    ensures Resting(s) && !s.failed ==>
              && 0 <= job.dstOff && s.file == job.Result()
              && forall t: nat | t < job.Tasks() :: t in s.done
    ensures |job.before| <= |s.file|
    ensures forall q: nat | q < |s.file| && !(job.dstOff <= q < job.dstOff + 4096 * job.DstBlocks()) ::
              s.file[q] == ByteAt(job.before, q)
  {
    StartOk(job, workers);
    RunKeeps(job, Start(job, workers), steps, s);
    if Resting(s) && !s.failed {
      RestingIsComplete(job, s);
      CompleteIsSequential(job, s.file);
    }
  }

  /** The tasks handed out in a run, in order. */
  function Claims(job: Job, s: Pool, steps: seq<Step>, s': Pool): seq<nat>
    requires Runs(job, s, steps, s')
    decreases |steps|
  {
    if steps == [] then []
    else
      var rest := Claims(job, Apply(job, s, steps[0].w, steps[0].a), steps[1..], s');
      if steps[0].a.Claim? && s.next < job.Tasks() then [s.next] + rest else rest
  }

  lemma {:induction false} ClaimsAreConsecutive(job: Job, s: Pool, steps: seq<Step>, s': Pool)
    requires Runs(job, s, steps, s')
    ensures s.next <= s'.next
    ensures var claims := Claims(job, s, steps, s');
            && s.next + |claims| == Max(s.next, Min(s'.next, job.Tasks()))
            && forall i | 0 <= i < |claims| :: claims[i] == s.next + i
    decreases |steps|
  {
    if steps != [] {
      ClaimsAreConsecutive(job, Apply(job, s, steps[0].w, steps[0].a), steps[1..], s');
    }
  }

  /** Exactly once: in every run no task is claimed twice, and in a run that
      comes to rest without an error every task is claimed. The counter stays
      within one overshoot per worker of the task count, so it cannot wrap. */
  lemma ExactlyOnce(job: Job, workers: nat, steps: seq<Step>, s: Pool)
    requires job.Valid() && workers > 0 && Runs(job, Start(job, workers), steps, s)
    ensures var claims := Claims(job, Start(job, workers), steps, s);
            && (forall i, j | 0 <= i < j < |claims| :: claims[i] != claims[j])
            && (Resting(s) && !s.failed ==> forall t: nat | t < job.Tasks() :: t in claims)
    ensures s.next <= job.Tasks() + workers
  {
    StartOk(job, workers);
    RunKeeps(job, Start(job, workers), steps, s);
    ClaimsAreConsecutive(job, Start(job, workers), steps, s);
    SubsetSize(FinishedWorkers(s.ws), |s.ws|);
    if Resting(s) && !s.failed {
      assert WorkerOk(job, s, 0);
      var claims := Claims(job, Start(job, workers), steps, s);
      forall t: nat | t < job.Tasks() ensures t in claims {
        assert claims[t] == t;
      }
    }
  }

  lemma {:induction false} SubsetSize(a: set<nat>, n: nat)
    requires forall w | w in a :: w < n
    ensures |a| <= n
  {
    if n == 0 {
      assert a == {};
    } else {
      SubsetSize(a - {n - 1}, n - 1);
      assert a <= (a - {n - 1}) + {n - 1};
    }
  }

  // ---- Every schedule comes to rest ----

  function Rank(pc: Pc): nat {
    match pc
    case Claiming => 1
    case Reading(_, got) => 4 + OUT_BYTES + (if got < IN_BYTES then IN_BYTES - got else 0)
    case Filling(_) => 3 + OUT_BYTES
    case Writing(_, put) => 2 + (if put < OUT_BYTES then OUT_BYTES - put else 0)
    case Finished => 0
    case Stopped(_) => 0
  }

  function RankSum(ws: seq<Worker>): nat {
    if ws == [] then 0 else Rank(ws[0].pc) + RankSum(ws[1..])
  }

  function TasksLeft(job: Job, s: Pool): nat {
    Max(0, job.Tasks() - s.next)
  }

  lemma {:induction false} RankSumUpdate(ws: seq<Worker>, w: nat, x: Worker)
    requires w < |ws|
    ensures RankSum(ws[w := x]) == RankSum(ws) - Rank(ws[w].pc) + Rank(x.pc)
  {
    if w == 0 {
      assert ws[w := x][1..] == ws[1..];
    } else {
      RankSumUpdate(ws[1..], w - 1, x);
      assert ws[w := x][1..] == ws[1..][w - 1 := x];
    }
  }

  /** Every step decreases a well-founded measure. */
  lemma StepDescends(job: Job, s: Pool, w: nat, a: Action)
    requires Enabled(job, s, w, a)
    ensures var s' := Apply(job, s, w, a);
            TasksLeft(job, s') < TasksLeft(job, s)
            || (TasksLeft(job, s') == TasksLeft(job, s) && RankSum(s'.ws) < RankSum(s.ws))
  {
    RankSumUpdate(s.ws, w, Apply(job, s, w, a).ws[w]);
  }

  /** A goroutine that has not returned can move on, without failing, wherever
      the level is a valid range of file offsets. */
  lemma LiveCanStep(job: Job, s: Pool, w: nat)
    requires job.Valid() && Inv(job, s) && w < |s.ws| && s.ws[w].pc.Live()
    requires 0 <= job.dstOff && job.dstOff + 4096 * job.DstBlocks() <= MAX_INT64
    ensures exists a :: a != Fail && Enabled(job, s, w, a)
  {
    hide ParentByte, CeilDiv, Wrap64, Placed, TasksOk;
    assert WorkerOk(job, s, w);
    match s.ws[w].pc
    case Claiming => assert Enabled(job, s, w, Claim);
    case Reading(t, got) =>
      Positions(job, t);
      TaskBounds(job, t);
      assert Enabled(job, s, w, Read(1));
    case Filling(t) => assert Enabled(job, s, w, Fill);
    case Writing(t, put) =>
      Positions(job, t);
      TaskBounds(job, t);
      assert Enabled(job, s, w, Write(1));
  }
}
