/** Taking the revision's lock, as the loop that does it: between any two of its
    operations the other processes may do anything they can. */
module AcquireLock {
  import opened ArtifactLock
  import opened LockedSteps
  import opened StoreOps
  import opened StoreSafety

  datatype Acquired = Got | Blocked | Failed

  /** More steps have been taken, and none of them is this one. */
  ghost predicate Without(before: seq<Step>, now: seq<Step>, step: Step) {
    before <= now && forall k | |before| <= k < |now| :: now[k] != step
  }

  lemma WithoutOn(before: seq<Step>, mid: seq<Step>, now: seq<Step>, step: Step)
    requires Without(before, mid, step)
    ensures Without(mid, now, step) ==> Without(before, now, step)
    ensures now == mid + [step] ==> before <= now && |before| < |now| && !Without(before, now, step)
  {
    assert now == mid + [step] ==> now[|now| - 1] == step;
  }

  /** The steps of a turn, each if somebody else than p takes it and can. */
  function AfterTurn(s: State, turn: seq<Step>, p: nat): State {
    if turn == [] then s
    else
      var before, step := AfterTurn(s, turn[..|turn| - 1], p), turn[|turn| - 1];
      if step.p != p && CanStep(before, step) then After(before, step) else before
  }

  /** The system with the process that takes the lock in it; plan is what the
      others want to do, a turn at a time, as far as they can. */
  class World {
    /** No operation that can be done ever fails. */
    const reliable: bool
    var s: State
    var plan: seq<seq<Step>>
    /** All steps since the beginning, in order. */
    ghost const first: State
    ghost var steps: seq<Step>

    ghost predicate Valid()
      reads this
    {
      Inv(first) && Inv(s) && Runs(first, steps, s) && |s.ps| == |first.ps|
    }

    constructor (s: State, plan: seq<seq<Step>>, reliable: bool)
      requires Inv(s)
      ensures Valid() && this.s == s && this.plan == plan && this.reliable == reliable && steps == []
    {
      this.s, this.plan, this.reliable, first, steps := s, plan, reliable, s, [];
    }

    method Take(step: Step)
      requires Valid() && CanStep(s, step)
      modifies this`s, this`steps
      ensures Valid() && s == After(old(s), step) && steps == old(steps) + [step]
    {
      hide Inv, Runs, CanStep, After;
      StepKeeps(s, step);
      OneMoves(s, step);
      ghost var more, next := Then(first, steps, s, step);
      s, steps := After(s, step), more;
    }

    /** How an attempt to take the lock, begun after these steps, can end. */
    ghost predicate Outcome(before: seq<Step>, p: nat, r: Acquired)
      reads this
    {
      && p < |s.ps| && before <= steps
      && var ph := s.ps[p].phase;
         && (r == Got ==> HasGot(s, p) && Without(before, steps, Missing(p)))
         && (r == Blocked ==>
               plan == [] && ph.Opened? && !Unlocked(s, ph.ino) && Without(before, steps, Missing(p)))
         && (r == Failed && Without(before, steps, Missing(p)) ==> ph == ArtifactLock.Closed(Stopped) && !reliable)
         && (!Without(before, steps, Missing(p)) ==>
               && r == Failed && ph == ArtifactLock.Closed(NoDirectory) && !s.dir && s.ps[p].made < s.prunes
               && |before| < |steps| && steps[|steps| - 1] == Missing(p))
    }

    /** The others take a turn, all that is possible of it. */
    method Others(p: nat)
      requires Valid() && p < |s.ps|
      modifies this`s, this`steps, this`plan
      ensures Valid() && p < |s.ps| && s.ps[p] == old(s.ps[p]) && Without(old(steps), steps, Missing(p))
      ensures |plan| < |old(plan)| || (plan == [] && s == old(s))
      ensures old(plan) != [] ==> plan == old(plan)[1..] && s == AfterTurn(old(s), old(plan)[0], p)
    {
      hide Inv, Runs, CanStep, After;
      if plan == [] { return; }
      var turn := plan[0];
      plan := plan[1..];
      assert turn[..0] == [];
      for i := 0 to |turn|
        invariant Valid() && p < |s.ps| && s.ps[p] == old(s.ps[p]) && plan == old(plan)[1..]
        invariant Without(old(steps), steps, Missing(p)) && s == AfterTurn(old(s), turn[..i], p)
      {
        assert turn[..i + 1][..i] == turn[..i];
        if turn[i].p != p && CanStep(s, turn[i]) {
          OneMoves(s, turn[i]);
          Take(turn[i]);
        }
      }
      assert turn[..|turn|] == turn;
    }

    /** An operation that fails ends the attempt. */
    method Fails(p: nat) returns (failed: bool)
      requires Valid() && p < |s.ps| && !s.ps[p].phase.Closed?
      modifies this`s, this`steps
      ensures Valid() && |s.ps| == |old(s.ps)| && (reliable ==> !failed) && Without(old(steps), steps, Missing(p))
      ensures if failed then s.ps[p].phase == ArtifactLock.Closed(Stopped) else s == old(s)
    {
      failed := *;
      if reliable { failed := false; }
      if failed { Take(Stop(p, {})); }
    }

    /** Opens the lock file, creating it under an inode nobody has open; without
        its directory that cannot be done. */
    method OpenFile(p: nat) returns (there: bool, ino: nat)
      requires Valid() && p < |s.ps| && s.ps[p].phase.Idle?
      modifies this`s, this`steps
      ensures Valid() && p < |s.ps| && there == old(s.dir) && s.dir == old(s.dir)
      ensures there ==> s.path == Names(ino) && s.ps[p].phase == Opened(ino, s.unlinks)
      ensures there ==> Without(old(steps), steps, Missing(p)) && s.ps[p].retries == old(s.ps[p].retries)
      ensures !there ==>
                && s.ps[p].phase == ArtifactLock.Closed(NoDirectory) && s.ps[p].made < s.prunes
                && steps == old(steps) + [Missing(p)]
    {
      there, ino := s.dir, 0;
      if !there {
        GoneSince(s, p);
        Take(Missing(p));
        return;
      }
      SomeInodeIsUnused(s);
      ino :| Unused(s, ino);
      if s.path.Names? { ino := s.path.ino; }
      Take(ArtifactLock.Open(p, ino));
    }

    /** Looks whether the path still names the inode that was locked. */
    method CheckInode(p: nat) returns (same: bool)
      requires Valid() && p < |s.ps| && s.ps[p].phase.Flocked?
      modifies this`s, this`steps
      ensures Valid() && p < |s.ps| && Without(old(steps), steps, Missing(p))
      ensures same <==> old(s.path == Names(s.ps[p].phase.ino))
      ensures same ==> HasGot(s, p)
      ensures !same ==> s.ps[p].phase.Idle?
      ensures s.ps[p].retries == old(s.ps[p].retries) + if same then 0 else 1
    {
      hide Inv, Enabled, AfterWork;
      same := s.path == Names(s.ps[p].phase.ino);
      Take(Stat(p));
      if same { Inside(s, p); }
    }

    /** Waits until nobody else holds a lock on the inode, and takes it. */
    method Lock(p: nat, ino: nat) returns (locked: bool)
      requires Valid() && p < |s.ps| && s.ps[p].phase.Opened? && s.ps[p].phase.ino == ino
      modifies this`s, this`steps, this`plan
      ensures Valid() && p < |s.ps| && (locked ==> s.ps[p].phase.Flocked? && s.ps[p].phase.ino == ino)
      ensures Without(old(steps), steps, Missing(p)) && s.ps[p].retries == old(s.ps[p].retries)
      ensures !locked ==> plan == [] && s.ps[p].phase.Opened? && !Unlocked(s, s.ps[p].phase.ino)
      ensures |plan| < |old(plan)| || (|plan| == |old(plan)| && s.path == old(s.path))
    {
      while !Unlocked(s, ino)
        invariant Valid() && p < |s.ps| && s.ps[p] == old(s.ps[p]) && Without(old(steps), steps, Missing(p))
        invariant |plan| < |old(plan)| || (|plan| == |old(plan)| && s.path == old(s.path))
        decreases |plan|
      {
        if plan == [] { return false; }
        Others(p);
      }
      Take(Flock(p));
      return true;
    }
  }

  lemma SomeInodeIsUnused(s: State)
    ensures exists ino: nat :: Unused(s, ino)
  {
    var taken := set p | 0 <= p < |s.ps| && HasOpen(s.ps[p].phase) :: s.ps[p].phase.ino;
    SomeNameIsFree(taken);
    var ino: nat :| ino !in taken;
    assert Unused(s, ino);
  }

  /** The process has the lock, on the inode the path names, and is at the
      beginning of its job. */
  predicate HasGot(s: State, p: nat) {
    && p < |s.ps| && s.ps[p].phase.Critical? && s.path == Names(s.ps[p].phase.ino) && s.dir
    && s.ps[p].phase.cs == LockedSteps.Begin(s.ps[p].job)
    && s.ps[p].retries <= s.unlinks - s.ps[p].start
  }

  lemma Inside(s: State, p: nat)
    requires Inv(s) && p < |s.ps| && s.ps[p].phase.Critical?
    ensures s.path == Names(s.ps[p].phase.ino) && s.dir && s.ps[p].retries <= s.unlinks - s.ps[p].start
  {
    assert ProcOk(s, p);
  }

  /** At the moment of an open, exactly one of the two is possible: to open the
      lock file, or to find its directory gone. */
  lemma OpensExactlyInDirectory(s: State, p: nat)
    requires p < |s.ps| && s.ps[p].phase.Idle?
    ensures s.dir <==> exists ino: nat :: CanStep(s, ArtifactLock.Open(p, ino))
    ensures !s.dir <==> CanStep(s, Missing(p))
  {
    SomeInodeIsUnused(s);
    var ino: nat :| Unused(s, ino);
    assert s.dir ==> CanStep(s, ArtifactLock.Open(p, if s.path.Names? then s.path.ino else ino));
  }

  /** The others have had k turns, or have nothing left to do. */
  predicate Turns(before: seq<seq<Step>>, now: seq<seq<Step>>, k: nat) {
    now == [] || |now| + k <= |before|
  }

  /** The second half of an attempt, the lock file being open. */
  method AttemptOn(w: World, p: nat, ino: nat, ghost before: seq<Step>) returns (again: bool, r: Acquired)
    requires w.Valid() && p < |w.s.ps| && w.s.ps[p].phase.Opened? && w.s.ps[p].phase.ino == ino
    requires w.s.path == Names(ino) && Without(before, w.steps, Missing(p))
    modifies w`s, w`steps, w`plan
    ensures w.Valid() && p < |w.s.ps|
    ensures again ==> w.s.ps[p].phase.Idle? && Without(before, w.steps, Missing(p)) && |w.plan| < |old(w.plan)|
    ensures !again ==> w.Outcome(before, p, r)
    ensures again || r == Got ==>
              && Turns(old(w.plan), w.plan, 2)
              && w.s.ps[p].retries == old(w.s.ps[p].retries) + if again then 1 else 0
  {
    hide World.Valid, Unlocked, HasGot, Without;
    again, r := false, Failed;
    ghost var mid := w.steps;
    var failed := w.Fails(p);
    WithoutOn(before, mid, w.steps, Missing(p));
    if failed { return; }
    mid := w.steps;
    w.Others(p);
    WithoutOn(before, mid, w.steps, Missing(p));
    mid := w.steps;
    var locked := w.Lock(p, ino);
    WithoutOn(before, mid, w.steps, Missing(p));
    if !locked { return false, Blocked; }
    mid := w.steps;
    w.Others(p);
    WithoutOn(before, mid, w.steps, Missing(p));
    mid := w.steps;
    failed := w.Fails(p);
    WithoutOn(before, mid, w.steps, Missing(p));
    if failed { return; }
    mid := w.steps;
    var same := w.CheckInode(p);
    WithoutOn(before, mid, w.steps, Missing(p));
    return !same, Got;
  }

  /** Opens, locks and checks once. again: the check found the path changed,
      which takes a turn of the others. */
  method Attempt(w: World, p: nat, ghost before: seq<Step>) returns (again: bool, r: Acquired)
    requires w.Valid() && p < |w.s.ps| && w.s.ps[p].phase.Idle? && Without(before, w.steps, Missing(p))
    modifies w`s, w`steps, w`plan
    ensures w.Valid() && p < |w.s.ps|
    ensures again ==> w.s.ps[p].phase.Idle? && Without(before, w.steps, Missing(p)) && |w.plan| < |old(w.plan)|
    ensures !again ==> w.Outcome(before, p, r)
    ensures again || r == Got ==>
              && Turns(old(w.plan), w.plan, 3)
              && w.s.ps[p].retries == old(w.s.ps[p].retries) + if again then 1 else 0
  {
    hide World.Valid, Unlocked, HasGot, Without;
    again := false;
    ghost var mid := w.steps;
    var failed := w.Fails(p);
    WithoutOn(before, mid, w.steps, Missing(p));
    if failed { return false, Failed; }
    mid := w.steps;
    w.Others(p);
    WithoutOn(before, mid, w.steps, Missing(p));
    mid := w.steps;
    var there, ino := w.OpenFile(p);
    WithoutOn(before, mid, w.steps, Missing(p));
    if !there { return false, Failed; }
    again, r := AttemptOn(w, p, ino, before);
  }

  /** Opens, locks and checks, and starts over as long as the check finds the
      path changed. It ends with the lock on the inode the path names; or it
      waits for a holder that makes no more steps; or an operation failed. Where
      no operation fails that can be done, that is exactly when the directory
      was gone at one of its opens, having been removed since the process made
      sure of it. It does end: the others have at least three turns in every
      attempt, or nothing left to do. */
  method AcquireArtifactLock(w: World, p: nat) returns (r: Acquired)
    requires w.Valid() && p < |w.s.ps| && w.s.ps[p].phase.Idle?
    modifies w`s, w`steps, w`plan
    ensures w.Valid() && p < |w.s.ps| && old(w.steps) <= w.steps
    ensures r == Got ==>
              && w.s.ps[p].phase.Critical? && w.s.path == Names(w.s.ps[p].phase.ino) && w.s.dir
              && w.s.ps[p].phase.cs == LockedSteps.Begin(w.s.ps[p].job)
              && w.s.ps[p].retries <= w.s.unlinks - w.s.ps[p].start
    ensures r == Got ==> w.s.ps[p].retries >= old(w.s.ps[p].retries)
    ensures r == Got ==> Turns(old(w.plan), w.plan, 3 * (w.s.ps[p].retries - old(w.s.ps[p].retries) + 1))
    ensures r == Blocked ==> w.plan == [] && w.s.ps[p].phase.Opened? && !Unlocked(w.s, w.s.ps[p].phase.ino)
    ensures r == Failed ==> w.s.ps[p].phase in {ArtifactLock.Closed(Stopped), ArtifactLock.Closed(NoDirectory)}
    ensures w.s.ps[p].phase == ArtifactLock.Closed(NoDirectory) <==> !Without(old(w.steps), w.steps, Missing(p))
    ensures !Without(old(w.steps), w.steps, Missing(p)) ==>
              && r == Failed && !w.s.dir && w.s.ps[p].made < w.s.prunes
              && |old(w.steps)| < |w.steps| && w.steps[|w.steps| - 1] == Missing(p)
    ensures w.reliable ==> (r == Failed <==> !Without(old(w.steps), w.steps, Missing(p)))
  {
    var again := true;
    r := Failed;
    while again
      invariant w.Valid() && p < |w.s.ps|
      invariant again ==> w.s.ps[p].phase.Idle? && Without(old(w.steps), w.steps, Missing(p))
      invariant !again ==> w.Outcome(old(w.steps), p, r)
      invariant w.s.ps[p].retries >= old(w.s.ps[p].retries) || (!again && r != Got)
      invariant again ==> Turns(old(w.plan), w.plan, 3 * (w.s.ps[p].retries - old(w.s.ps[p].retries)))
      invariant !again && r == Got ==>
                  Turns(old(w.plan), w.plan, 3 * (w.s.ps[p].retries - old(w.s.ps[p].retries) + 1))
      decreases again, |w.plan|
    {
      hide World.Outcome, World.Valid;
      again, r := Attempt(w, p, old(w.steps));
    }
  }
}
