/** The one way an acquirer fails though nothing goes wrong: the deleter it waits
    for prunes the directory, and the acquirer does not make it again. Here is a
    whole run of it. */
module LostDirectory {
  import opened ArtifactLock
  import opened LockedSteps
  import opened Mixing
  import opened Store
  import opened StoreOps
  import opened StoreSafety

  /** What is left of a set after the first i removals. */
  function Thinner(f: Files, i: nat): Files
    requires i <= |REMOVALS|
  {
    if i == 0 then f else Thinner(f, i - 1) - {REMOVALS[i - 1]}
  }

  lemma {:induction false} ThinnerLacks(f: Files, i: nat, j: nat)
    requires j < i <= |REMOVALS|
    ensures REMOVALS[j] !in Thinner(f, i)
  {
    if j < i - 1 { ThinnerLacks(f, i - 1, j); }
  }

  /** Every removal works. */
  lemma DeleteRemovesAll(f: Files) returns (acts: seq<Act>)
    ensures Works(Delete, Disk(f, map[]), Remove(0, true), acts, EMPTY, Leave(true))
  {
    hide Works;
    acts := [];
    var start := Disk(f, map[]);
    var i := 0;
    NoActs(Delete, start, Remove(0, true));
    while i < |REMOVALS|
      invariant 0 <= i <= |REMOVALS|
      invariant Works(Delete, start, Remove(0, true), acts, Disk(Thinner(f, i), map[]), Remove(i, true))
    {
      OneMore(Delete, start, Remove(0, true), acts, Disk(Thinner(f, i), map[]), Remove(i, true), Go);
      acts, i := acts + [Go], i + 1;
    }
    forall j | 0 <= j < |REMOVALS| { ThinnerLacks(f, |REMOVALS|, j); }
    NothingLeft(Thinner(f, |REMOVALS|));
    OneMore(Delete, start, Remove(0, true), acts, EMPTY, Remove(|REMOVALS|, true), Go);
    acts := acts + [Go];
    assert EMPTY.staged.Keys == {};
    OneMore(Delete, start, Remove(0, true), acts, EMPTY, Sweep({}, true), Go);
    acts := acts + [Go];
  }

  /** One deleter and one packer of a revision, before they start. */
  function Before(f: Files, job: Job): State {
    Untouched(f, true, [Proc(Delete, Waiting, 0, 0, 0), Proc(job, Waiting, 0, 0, 0)])
  }

  /** The deleter gets the lock, and the packer opens the same lock file. */
  lemma BothOpen(f: Files, job: Job) returns (steps: seq<Step>, s: State)
    ensures Runs(Before(f, job), steps, s) && forall k | 0 <= k < |steps| :: !steps[k].Stop?
    ensures |s.ps| == 2 && s.dir && s.path == Names(0) && s.disk == Disk(f, map[]) && !s.skipped && s.unlinks == 0
    ensures s.ps[0].job == Delete && s.ps[0].phase == Critical(0, Remove(0, true))
    ensures s.ps[1].job == job && s.ps[1].phase == Opened(0, 0)
  {
    hide Runs, Enabled, AfterWork;
    var s0 := Before(f, job);
    s := GetsIn(s0, 0);
    steps := [Start(0), Open(0, 0), Flock(0), Stat(0)];
    steps, s := Then(s0, steps, s, Start(1));
    steps, s := Then(s0, steps, s, Open(1, 0));
  }

  /** The deleter ends; the packer gets the inode that was unlinked, starts over,
      and finds the directory gone. */
  lemma PackerIsLeft(s: State) returns (steps: seq<Step>, s': State)
    requires |s.ps| == 2 && s.dir && s.path == Names(0) && s.disk == EMPTY
    requires s.ps[0].phase == Critical(0, Leave(true)) && s.ps[1].phase.Opened? && s.ps[1].phase.ino == 0
    ensures Runs(s, steps, s') && forall k | 0 <= k < |steps| :: !steps[k].Stop?
    ensures |s'.ps| == 2 && s'.ps[0].phase == Closed(Deleted(true))
    ensures s'.ps[1].job == s.ps[1].job && s'.ps[1].phase == Closed(NoDirectory)
  {
    hide Runs, Enabled, AfterWork;
    steps, s' := Departs(s, 0, true, true);
    steps, s' := Then(s, steps, s', Flock(1));
    steps, s' := Then(s, steps, s', Stat(1));
    steps, s' := Then(s, steps, s', Missing(1));
  }

  lemma {:induction false} WorkIsNoStop(p: nat, acts: seq<Act>)
    ensures forall k | 0 <= k < |WorkSteps(p, acts)| :: !WorkSteps(p, acts)[k].Stop?
  {
    if acts != [] { WorkIsNoStop(p, acts[1..]); }
  }

  lemma BeforeIsInitial(f: Files, job: Job)
    requires OneBuild(f) && Chain(f)
    ensures Initial(Before(f, job))
  {
  }

  /** From any sound set, with every operation working: the delete succeeds, and
      the packer that waited for it fails for want of the directory. */
  lemma AcquirerLosesDirectory(f: Files, job: Job) returns (steps: seq<Step>, s: State)
    requires OneBuild(f) && Chain(f)
    ensures Initial(Before(f, job)) && Runs(Before(f, job), steps, s)
    ensures forall k | 0 <= k < |steps| :: !steps[k].Stop?
    ensures |s.ps| == 2 && s.ps[0].phase == Closed(Deleted(true))
    ensures s.ps[1].job == job && s.ps[1].phase == Closed(NoDirectory)
  {
    hide Runs, Works, Initial, WorkSteps;
    BeforeIsInitial(f, job);
    var first, s1 := BothOpen(f, job);
    var acts := DeleteRemovesAll(f);
    var s2 := WorksIsRun(s1, 0, acts, EMPTY, Leave(true));
    var last;
    last, s := PackerIsLeft(s2);
    WorkIsNoStop(0, acts);
    RunsThen(Before(f, job), first, s1, WorkSteps(0, acts), s2);
    RunsThen(Before(f, job), first + WorkSteps(0, acts), s2, last, s);
    steps := first + WorkSteps(0, acts) + last;
  }
}
