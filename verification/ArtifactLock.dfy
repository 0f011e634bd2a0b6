/** Any number of packers and deleters of one revision, each serialized by an
    advisory lock on a file that deleters themselves unlink, each liable to stop
    between any two operations. */
module ArtifactLock {
  import opened LockedSteps
  import opened Store

  /** NoDirectory: the directory of the lock file was gone when it was to be
      opened. Stopped: a crash or any other error. */
  datatype Reply = Returned(doc: Doc) | Deleted(ok: bool) | NoDirectory | Stopped

  /** An acquirer opens the lock file (creating it if the path names none),
      locks the inode it opened, and then looks whether the path still names
      that inode; if not, it starts over. epoch is the number of unlinks of the
      path up to the open. A deleter that has released the lock goes on to prune
      the directory. A process that is Away works on another revision of the
      model: it makes and prunes the directory too, and nothing else here. */
  datatype Phase =
    | Waiting
    | Idle
    | Opened(ino: nat, epoch: nat)
    | Flocked(ino: nat, epoch: nat)
    | Critical(ino: nat, cs: Cs)
    | Leaving(ino: nat, ok: bool)
    | Pruning(ok: bool)
    | Away
    | Closed(reply: Reply)

  /** start is the number of unlinks before the attempt, retries how often it
      has found the path changed; made is how often the directory had been
      removed when the process made sure of it. */
  datatype Proc = Proc(job: Job, phase: Phase, start: nat, retries: nat, made: nat)

  /** skipped and orphaned record whether a delete has ever passed over a failed
      removal, or removed the sidecar from under a set of another schema than 1;
      dir is whether the directory of all these files exists, and prunes how
      often it has been removed. */
  datatype State = State(path: LockPath, disk: Disk, ps: seq<Proc>, dir: bool, unlinks: nat, prunes: nat,
                         skipped: bool, orphaned: bool)

  datatype LockPath = Absent | Names(ino: nat)

  datatype Step =
    | Start(p: nat)
    | Open(p: nat, ino: nat)
    | Missing(p: nat)
    | Flock(p: nat)
    | Stat(p: nat)
    | Work(p: nat, act: Act)
    | Unlink(p: nat, gone: bool)
    | Close(p: nat)
    | Prune(p: nat, gone: bool)
    | Visit(p: nat, made: bool)
    | Stop(p: nat, removed: set<nat>)

  predicate HasOpen(ph: Phase) { ph.Opened? || HoldsFlock(ph) }

  predicate HoldsFlock(ph: Phase) { ph.Flocked? || ph.Critical? || ph.Leaving? }

  /** Open by nobody: only such a number can be given to a new file. */
  predicate Unused(s: State, ino: nat) {
    forall p | 0 <= p < |s.ps| :: HasOpen(s.ps[p].phase) ==> s.ps[p].phase.ino != ino
  }

  predicate Unlocked(s: State, ino: nat) {
    forall p | 0 <= p < |s.ps| :: HoldsFlock(s.ps[p].phase) ==> s.ps[p].phase.ino != ino
  }

  /** Nothing of the revision is in the directory. */
  predicate Bare(s: State) {
    s.path == Absent && s.disk == Disk(map[], map[])
  }

  /** The process may take the step. Start makes the directory, and the lock file
      can be opened only while it is there; removing it can succeed only when
      nothing of the revision is in it, and fails if anything else is. Stop is a
      crash or an error return at any point; on the way out an erring packer
      removes some of its temporaries. */
  predicate CanStep(s: State, step: Step) {
    && step.p < |s.ps|
    && var q := s.ps[step.p];
       match step
       case Start(_) => q.phase.Waiting?
       case Open(_, ino) => q.phase.Idle? && s.dir && (if s.path.Names? then s.path.ino == ino else Unused(s, ino))
       case Missing(_) => q.phase.Idle? && !s.dir
       case Flock(_) => q.phase.Opened? && Unlocked(s, q.phase.ino)
       case Stat(_) => q.phase.Flocked?
       case Work(_, act) => q.phase.Critical? && Enabled(q.job, s.disk, q.phase.cs, act)
       case Unlink(_, _) => q.phase.Critical? && q.phase.cs.Leave?
       case Close(_) => q.phase.Leaving? || (q.phase.Critical? && q.phase.cs.Returning?)
       case Prune(_, gone) => q.phase.Pruning? && (gone ==> s.dir && Bare(s))
       case Visit(_, made) => q.phase.Away? && (made || (s.dir && Bare(s)))
       case Stop(_, removed) =>
         !q.phase.Closed? && removed <= (if q.phase.Critical? then Own(q.phase.cs) else {})
  }

  function Enter(s: State, p: nat, ph: Phase): State
    requires p < |s.ps|
  {
    s.(ps := s.ps[p := s.ps[p].(phase := ph)])
  }

  function AfterStat(s: State, p: nat): State
    requires p < |s.ps| && s.ps[p].phase.Flocked?
  {
    var q := s.ps[p];
    if s.path == Names(q.phase.ino) then Enter(s, p, Critical(q.phase.ino, LockedSteps.Begin(q.job)))
    else s.(ps := s.ps[p := q.(phase := Idle, retries := q.retries + 1)])
  }

  function AfterWork(s: State, p: nat, act: Act): State
    requires CanStep(s, Work(p, act))
  {
    var q := s.ps[p];
    var cs := q.phase.cs;
    Enter(s, p, Critical(q.phase.ino, NextCs(q.job, s.disk, cs, act)))
    .(disk := NextDisk(q.job, s.disk, cs, act),
      skipped := s.skipped || PassesOver(cs, act),
      orphaned := s.orphaned || Orphans(s.disk, cs, act))
  }

  function AfterUnlink(s: State, p: nat, gone: bool): State
    requires CanStep(s, Unlink(p, gone))
  {
    var ph := s.ps[p].phase;
    var left := Enter(s, p, Leaving(ph.ino, ph.cs.ok && gone));
    if gone then left.(path := Absent, unlinks := s.unlinks + 1) else left
  }

  function Removed(s: State): State {
    s.(dir := false, prunes := s.prunes + 1)
  }

  function After(s: State, step: Step): State
    requires CanStep(s, step)
  {
    var p, q := step.p, s.ps[step.p];
    match step
    case Start(_) =>
      s.(ps := s.ps[p := q.(phase := Idle, start := s.unlinks, retries := 0, made := s.prunes)], dir := true)
    case Open(_, ino) => Enter(s, p, Opened(ino, s.unlinks)).(path := Names(ino))
    case Missing(_) => Enter(s, p, Closed(NoDirectory))
    case Flock(_) => Enter(s, p, Flocked(q.phase.ino, q.phase.epoch))
    case Stat(_) => AfterStat(s, p)
    case Work(_, act) => AfterWork(s, p, act)
    case Unlink(_, gone) => AfterUnlink(s, p, gone)
    case Close(_) =>
      Enter(s, p, if q.phase.Leaving? then Pruning(q.phase.ok) else Closed(Returned(q.phase.cs.doc)))
    case Prune(_, gone) =>
      Enter(if gone then Removed(s) else s, p, Closed(Deleted(q.phase.ok)))
    case Visit(_, made) => if made then s.(dir := true) else Removed(s)
    case Stop(_, removed) =>
      Enter(s, p, Closed(Stopped))
      .(disk := if removed == {} then s.disk else Disk(s.disk.files, s.disk.staged - removed))
  }

  // ---- The invariant ----

  /** What holds of one process by itself. */
  predicate ProcOk(s: State, p: nat)
    requires p < |s.ps|
  {
    var q := s.ps[p];
    match q.phase
    case Waiting => true
    case Idle => q.start + q.retries <= s.unlinks && MadeOk(s, q)
    case Opened(ino, epoch) => OpenedOk(s, q, ino, epoch)
    case Flocked(ino, epoch) => OpenedOk(s, q, ino, epoch)
    case Critical(ino, cs) =>
      && s.path == Names(ino) && q.start + q.retries <= s.unlinks
      && CsInv(q.job, s.disk, cs)
      && (!s.skipped && cs.Remove? ==> cs.ok)
      && (!s.orphaned ==> SidecarOk(s.disk.files))
    case Leaving(_, _) => q.start + q.retries <= s.unlinks
    case Pruning(_) => true
    case Away => true
    case Closed(_) => true
  }

  /** If the path has not been unlinked since the open, it names what was opened. */
  predicate OpenedOk(s: State, q: Proc, ino: nat, epoch: nat) {
    && q.start + q.retries <= epoch <= s.unlinks
    && (epoch == s.unlinks ==> s.path == Names(ino))
    && MadeOk(s, q)
  }

  /** The directory a process made is there until it is removed. */
  predicate MadeOk(s: State, q: Proc) {
    q.made <= s.prunes && (q.made == s.prunes ==> s.dir)
  }

  predicate OneHolder(s: State) {
    forall p, q | 0 <= p < q < |s.ps| ::
      HoldsFlock(s.ps[p].phase) && HoldsFlock(s.ps[q].phase) ==> s.ps[p].phase.ino != s.ps[q].phase.ino
  }

  predicate DiskOk(s: State) {
    && OneBuild(s.disk.files)
    && (!s.orphaned ==> SidecarOk(s.disk.files))
    && (!s.skipped ==> Chain(s.disk.files) && !s.orphaned)
    && (!s.dir ==> Bare(s))
  }

  predicate Inv(s: State) {
    DiskOk(s) && OneHolder(s) && forall p | 0 <= p < |s.ps| :: ProcOk(s, p)
  }

  /** Between two states only process p has moved. */
  predicate OnlyMoves(s: State, s': State, p: nat) {
    p < |s.ps| == |s'.ps| && forall r | 0 <= r < |s.ps| && r != p :: s'.ps[r] == s.ps[r]
  }

  lemma OneMoves(s: State, step: Step)
    requires CanStep(s, step)
    ensures OnlyMoves(s, After(s, step), step.p)
  {
    hide Enabled, NextCs, NextDisk, PassesOver, Orphans, Own;
  }

  lemma OthersKept(s: State, s': State, p: nat)
    requires Inv(s) && OnlyMoves(s, s', p)
    requires s'.unlinks == s.unlinks && s'.path == s.path
    requires s.prunes < s'.prunes || (s'.prunes == s.prunes && (s.dir ==> s'.dir))
    requires s.ps[p].phase.Critical? || (s'.disk == s.disk && s'.skipped == s.skipped && s'.orphaned == s.orphaned)
    ensures forall r | 0 <= r < |s.ps| && r != p :: ProcOk(s', r)
  {
    assert ProcOk(s, p);
    forall r | 0 <= r < |s.ps| && r != p
      ensures ProcOk(s', r)
    {
      assert ProcOk(s, r);
    }
  }

  lemma HoldersKept(s: State, s': State, p: nat)
    requires Inv(s) && OnlyMoves(s, s', p)
    requires HoldsFlock(s'.ps[p].phase) ==> HoldsFlock(s.ps[p].phase) && s'.ps[p].phase.ino == s.ps[p].phase.ino
    ensures OneHolder(s')
  {
  }

  lemma OpenKeeps(s: State, p: nat, ino: nat)
    requires Inv(s) && CanStep(s, Open(p, ino))
    ensures Inv(After(s, Open(p, ino)))
  {
    var s' := After(s, Open(p, ino));
    HoldersKept(s, s', p);
    assert ProcOk(s, p);
    forall r | 0 <= r < |s.ps| && r != p
      ensures ProcOk(s', r)
    {
      assert ProcOk(s, r);
    }
  }

  lemma FlockKeeps(s: State, p: nat)
    requires Inv(s) && CanStep(s, Flock(p))
    ensures Inv(After(s, Flock(p)))
  {
    OthersKept(s, After(s, Flock(p)), p);
    assert ProcOk(s, p);
  }

  /** The inode check: it passes only for a process whose inode the path names,
      and fails only if the path was unlinked since that process opened it. */
  lemma StatKeeps(s: State, p: nat)
    requires Inv(s) && CanStep(s, Stat(p))
    ensures Inv(After(s, Stat(p)))
    ensures After(s, Stat(p)).ps[p].phase.Idle? ==> s.ps[p].phase.epoch < s.unlinks
  {
    var s' := After(s, Stat(p));
    assert ProcOk(s, p);
    OthersKept(s, s', p);
    HoldersKept(s, s', p);
  }

  /** A holder that removes was removing before, and turns bad only by passing
      over a failure. */
  lemma RemovingOn(job: Job, d: Disk, cs: Cs, act: Act)
    requires CsInv(job, d, cs) && Enabled(job, d, cs, act)
    ensures var next := NextCs(job, d, cs, act);
            next.Remove? ==> cs.Remove? && (cs.ok && !PassesOver(cs, act) ==> next.ok)
  {
    hide OneBuild, Own, Lands, NextDisk, Sidecar, Judge, SeenUpTo, Complete, Encrypted;
    if job.Pack? { HolderStep(job, d, cs, act); }
  }

  /** A set is orphaned only after a failure was passed over. */
  lemma OrphansLate(job: Job, d: Disk, cs: Cs, act: Act)
    requires CsInv(job, d, cs) && Orphans(d, cs, act)
    ensures cs.Remove? && !cs.ok
  {
    assert forall j | 0 <= j <= 3 :: REMOVALS[j] != Schema;
    var image := REMOVALS[3];
    assert cs.ok ==> image !in d.files;
  }

  lemma WorkKeeps(s: State, p: nat, act: Act)
    requires Inv(s) && CanStep(s, Work(p, act))
    ensures Inv(After(s, Work(p, act)))
  {
    hide Enabled, NextCs, NextDisk, Ready, Own, OneBuild, SidecarOk, Chain, PassesOver, Orphans, Preserves;
    var s', q := After(s, Work(p, act)), s.ps[p];
    assert ProcOk(s, p);
    HolderStep(q.job, s.disk, q.phase.cs, act);
    RemovingOn(q.job, s.disk, q.phase.cs, act);
    if Orphans(s.disk, q.phase.cs, act) { OrphansLate(q.job, s.disk, q.phase.cs, act); }
    OthersKept(s, s', p);
    HoldersKept(s, s', p);
  }

  lemma UnlinkKeeps(s: State, p: nat, gone: bool)
    requires Inv(s) && CanStep(s, Unlink(p, gone))
    ensures Inv(After(s, Unlink(p, gone)))
  {
    hide Ready, OneBuild, SidecarOk, Chain, Enabled;
    var s' := After(s, Unlink(p, gone));
    assert ProcOk(s, p);
    HoldersKept(s, s', p);
    forall r | 0 <= r < |s.ps| && r != p
      ensures ProcOk(s', r)
    {
      assert ProcOk(s, r);
    }
  }

  lemma ExitKeeps(s: State, step: Step)
    requires Inv(s) && CanStep(s, step) && (step.Start? || step.Missing? || step.Close? || step.Stop?)
    ensures Inv(After(s, step))
  {
    var s' := After(s, step);
    assert ProcOk(s, step.p);
    OthersKept(s, s', step.p);
    HoldersKept(s, s', step.p);
  }

  /** The directory is never removed from under a process inside. */
  lemma PruneKeeps(s: State, step: Step)
    requires Inv(s) && CanStep(s, step) && (step.Prune? || step.Visit?)
    ensures Inv(After(s, step))
    ensures !After(s, step).dir ==> forall r | 0 <= r < |s.ps| :: !s.ps[r].phase.Critical?
  {
    var s' := After(s, step);
    assert ProcOk(s, step.p);
    OthersKept(s, s', step.p);
    HoldersKept(s, s', step.p);
    forall r | 0 <= r < |s.ps| && s.ps[r].phase.Critical?
      ensures s.path.Names?
    {
      assert ProcOk(s, r);
    }
  }

  /** Every step of every process keeps the invariant. */
  lemma StepKeeps(s: State, step: Step)
    requires Inv(s) && CanStep(s, step)
    ensures Inv(After(s, step))
  {
    hide Inv, CanStep, After;
    match step
    case Open(p, ino) => OpenKeeps(s, p, ino);
    case Flock(p) => FlockKeeps(s, p);
    case Stat(p) => StatKeeps(s, p);
    case Work(p, act) => WorkKeeps(s, p, act);
    case Unlink(p, gone) => UnlinkKeeps(s, p, gone);
    case Prune(_, _) => PruneKeeps(s, step);
    case Visit(_, _) => PruneKeeps(s, step);
    case _ => ExitKeeps(s, step);
  }
}
