/** What every run of packers and deleters of one revision guarantees, whatever the
    interleaving and wherever processes stop. */
module StoreSafety {
  import opened ArtifactLock
  import opened LockedSteps
  import opened Store

  /** Nobody has started here; the directory, if there is one, is in any state an
      undisturbed history can have left, with any temporaries and lock file. */
  predicate Initial(s: State) {
    && (forall p | 0 <= p < |s.ps| :: s.ps[p].phase.Waiting? || s.ps[p].phase.Away?)
    && (!s.dir ==> Bare(s))
    && OneBuild(s.disk.files) && Chain(s.disk.files) && !s.skipped && !s.orphaned
  }

  /** The beginning with the given files and no lock file. */
  function Untouched(f: Files, dir: bool, ps: seq<Proc>): State {
    State(Absent, Disk(f, map[]), ps, dir, 0, 0, false, false)
  }

  /** No directory, an empty one, and a set from before sidecars are such states. */
  lemma KnownBeginnings(b: Build, ps: seq<Proc>, encrypted: bool)
    requires b.schema == 1 && forall p | 0 <= p < |ps| :: ps[p].phase.Waiting?
    ensures Initial(Untouched(map[], false, ps)) && Initial(Untouched(map[], true, ps))
    ensures var mwp: Files := map[Mpk := Image(b), Info := RefOf(b)];
            var f := if encrypted then mwp[Emwp := Cipher(b)][EmwpInfo := CipherRef(b)] else mwp;
            Initial(Untouched(f, true, ps))
  {
  }

  predicate Runs(s: State, steps: seq<Step>, s': State)
    decreases |steps|
  {
    if steps == [] then s == s'
    else CanStep(s, steps[0]) && Runs(After(s, steps[0]), steps[1..], s')
  }

  lemma NoSteps(s: State)
    ensures Runs(s, [], s)
  {
  }

  lemma {:induction false} RunKeeps(s: State, steps: seq<Step>, s': State)
    requires Inv(s) && Runs(s, steps, s')
    ensures Inv(s')
    decreases |steps|
  {
    if steps != [] {
      StepKeeps(s, steps[0]);
      RunKeeps(After(s, steps[0]), steps[1..], s');
    }
  }

  lemma {:induction false} RunsThen(s: State, steps: seq<Step>, s1: State, more: seq<Step>, s2: State)
    requires Runs(s, steps, s1) && Runs(s1, more, s2)
    ensures Runs(s, steps + more, s2)
    decreases |steps|
  {
    if steps == [] {
      assert steps + more == more;
    } else {
      assert (steps + more)[1..] == steps[1..] + more;
      RunsThen(After(s, steps[0]), steps[1..], s1, more, s2);
    }
  }

  /** One more step at the end of a run. */
  lemma Then(s0: State, steps: seq<Step>, s: State, step: Step) returns (more: seq<Step>, next: State)
    requires Runs(s0, steps, s) && CanStep(s, step)
    ensures more == steps + [step] && next == After(s, step) && Runs(s0, more, next)
  {
    hide CanStep, After;
    more, next := steps + [step], After(s, step);
    assert Runs(next, [], next) && Runs(s, [step], next);
    RunsThen(s0, steps, s, [step], next);
  }

  lemma InitialOk(s: State)
    requires Initial(s)
    ensures Inv(s)
  {
    ChainIsSidecarOk(s.disk.files);
  }

  /** Two processes are never both between a passed inode check and their
      release or unlink, and the path names the inode of the one that is. */
  lemma AtMostOneInside(s0: State, steps: seq<Step>, s: State, p: nat, q: nat)
    requires Initial(s0) && Runs(s0, steps, s)
    requires p < |s.ps| && q < |s.ps| && s.ps[p].phase.Critical? && s.ps[q].phase.Critical?
    ensures p == q && s.path == Names(s.ps[p].phase.ino)
  {
    InitialOk(s0);
    RunKeeps(s0, steps, s);
    assert ProcOk(s, p) && ProcOk(s, q);
  }

  /** Every reachable set of files: the artifacts present come from one build;
      unless a delete orphaned them, a complete set has its own sidecar; unless
      a delete passed over a failed removal, each artifact has what it needs. */
  lemma SetsAreSound(s0: State, steps: seq<Step>, s: State)
    requires Initial(s0) && Runs(s0, steps, s)
    ensures OneBuild(s.disk.files)
    ensures var f := s.disk.files;
            && (forall x, y | x in f && y in f && x in ARTIFACTS && y in ARTIFACTS :: f[x].b == f[y].b)
            && (Mpk in f ==> f[Mpk].Image?) && (Info in f ==> f[Info].RefOf?)
            && (Emwp in f ==> f[Emwp].Cipher?) && (EmwpInfo in f ==> f[EmwpInfo].CipherRef?)
    ensures !s.orphaned ==> SidecarOk(s.disk.files)
    ensures !s.skipped ==> Chain(s.disk.files)
    ensures var f := s.disk.files;
            !s.skipped ==>
              && (EmwpInfo in f ==> Emwp in f) && (Emwp in f ==> Info in f) && (Info in f ==> Mpk in f)
              && (Mpk in f ==> (if Schema in f then f[Schema] == SchemaId(f[Mpk].b.schema) else f[Mpk].b.schema == 1))
  {
    InitialOk(s0);
    RunKeeps(s0, steps, s);
  }

  /** A packer stopped anywhere leaves a set on which the next check is right. */
  lemma EveryStopIsSafe(s0: State, steps: seq<Step>, s: State, want: pos)
    requires Initial(s0) && Runs(s0, steps, s) && !s.orphaned
    ensures var f := s.disk.files;
            && (VerdictOn(f, want) == Reuse <==> CompleteSet(f, want))
            && (VerdictOn(f, want) == Reuse <==>
                  && Mpk in f && f[Mpk].Image? && f[Mpk].b.schema == want
                  && Info in f && f[Info] == RefOf(f[Mpk].b))
            && (VerdictOn(f, want) == Fresh <==> NoArtifact(f) && Sidecar(f) >= 1)
            && (VerdictOn(f, want) == Fresh <==>
                  && Mpk !in f && Info !in f && Emwp !in f && EmwpInfo !in f
                  && (Schema in f && f[Schema].SchemaId? ==> f[Schema].n >= 1))
  {
    SetsAreSound(s0, steps, s);
    VerdictIsSafe(s.disk.files, want);
  }

  /** The check under the lock looks at the files one by one and still decides
      as if it had seen them all at once. */
  lemma LockedCheckIsAtomic(s: State, p: nat)
    requires Inv(s) && p < |s.ps| && s.ps[p].phase.Critical?
    requires s.ps[p].phase.cs.Check? && s.ps[p].phase.cs.k == |STATS|
    ensures s.ps[p].job.Pack?
    ensures Judge(s.ps[p].phase.cs.seen, Sidecar(s.disk.files), s.ps[p].job.want)
              == VerdictOn(s.disk.files, s.ps[p].job.want)
  {
    assert ProcOk(s, p);
    var seen, f := s.ps[p].phase.cs.seen, s.disk.files;
    forall x
      ensures x in seen <==> x in Present(f)
    {
      if x in ARTIFACTS {
        assert STATS[0] == Mpk && STATS[1] == Info && STATS[2] == Emwp && STATS[3] == EmwpInfo;
      }
    }
    assert seen == Present(f);
  }

  /** A packer that returns a reference returns that of the very build published,
      encrypted if it was asked to; and unless a delete orphaned a set, that
      build was made under the schema it asked for. */
  lemma PackReturnsWhatIsStored(s0: State, steps: seq<Step>, s: State, p: nat)
    requires Initial(s0) && Runs(s0, steps, s)
    requires CanStep(s, Close(p)) && s.ps[p].phase.Critical?
    ensures var f, job, doc := s.disk.files, s.ps[p].job, s.ps[p].phase.cs.doc;
            && After(s, Close(p)).ps[p].phase == Closed(Returned(doc))
            && job.Pack? && (if job.encrypt then doc.CipherRef? else doc.RefOf?)
            && Mpk in f && f[Mpk] == Image(doc.b) && Info in f && f[Info] == RefOf(doc.b)
            && (job.encrypt ==>
                  Emwp in f && f[Emwp] == Cipher(doc.b) && EmwpInfo in f && f[EmwpInfo] == CipherRef(doc.b))
            && (!s.orphaned ==> doc.b.schema == job.want)
  {
    hide Initial, Runs;
    InitialOk(s0);
    RunKeeps(s0, steps, s);
    assert ProcOk(s, p);
    assert Ready(s.ps[p].job, s.disk, s.ps[p].phase.cs);
  }

  /** Only the process inside writes files of the revision. */
  lemma OnlyTheHolderWrites(s: State, step: Step)
    requires CanStep(s, step) && After(s, step).disk != s.disk
    ensures s.ps[step.p].phase.Critical?
  {
  }

  // ---- No replacement ----

  predicate Removes(s: State, step: Step, x: Suffix)
    requires CanStep(s, step)
  {
    step.Work? && var cs := s.ps[step.p].phase.cs; cs.Remove? && cs.i < |REMOVALS| && REMOVALS[cs.i] == x
  }

  predicate NeverRemoved(s: State, steps: seq<Step>, x: Suffix)
    decreases |steps|
  {
    steps != [] ==>
      && CanStep(s, steps[0]) && !Removes(s, steps[0], x)
      && NeverRemoved(After(s, steps[0]), steps[1..], x)
  }

  lemma StepPreserves(s: State, step: Step, x: Suffix)
    requires Inv(s) && CanStep(s, step) && x in ARTIFACTS && x in s.disk.files && !Removes(s, step, x)
    ensures x in After(s, step).disk.files && After(s, step).disk.files[x] == s.disk.files[x]
  {
    hide Enabled, NextCs, NextStaged, Ready, OneBuild, Chain, SidecarOk;
    if step.Work? {
      var q := s.ps[step.p];
      assert ProcOk(s, step.p);
      HolderStep(q.job, s.disk, q.phase.cs, step.act);
      assert Preserves(q.job, s.disk, q.phase.cs, step.act);
    }
  }

  /** Of all steps only a delete's removal of that very file can touch an artifact,
      and it takes it away. */
  lemma GoesOnlyByRemoval(s: State, step: Step, x: Suffix)
    requires Inv(s) && CanStep(s, step) && x in ARTIFACTS && x in s.disk.files
    ensures var g := After(s, step).disk.files;
            || (x in g && g[x] == s.disk.files[x])
            || (&& step.Work? && step.act == Go && x !in g && s.ps[step.p].phase.cs.Remove?
                && s.ps[step.p].phase.cs.i < 10 && REMOVALS[s.ps[step.p].phase.cs.i] == x)
  {
    hide Inv, NextCs, NextStaged;
    if !Removes(s, step, x) { StepPreserves(s, step, x); }
  }

  /** No artifact is ever replaced by another without a delete in between: what
      is there stays, byte for byte, until a delete removes that very file. */
  lemma {:induction false} ArtifactsStay(s: State, steps: seq<Step>, s': State, x: Suffix)
    requires Inv(s) && Runs(s, steps, s') && x in ARTIFACTS && x in s.disk.files
    requires NeverRemoved(s, steps, x)
    ensures x in s'.disk.files && s'.disk.files[x] == s.disk.files[x]
    decreases |steps|
  {
    if steps != [] {
      StepKeeps(s, steps[0]);
      StepPreserves(s, steps[0], x);
      ArtifactsStay(After(s, steps[0]), steps[1..], s', x);
    }
  }

  // ---- Deletion ----

  const EMPTY: Disk := Disk(map[], map[])

  predicate SaysDeleted(ph: Phase) {
    ph == Closed(Deleted(true)) || ((ph.Leaving? || ph.Pruning?) && ph.ok)
  }

  lemma NothingToLeave(s: State, p: nat)
    requires Inv(s) && p < |s.ps| && s.ps[p].phase.Critical? && s.ps[p].phase.cs == Leave(true)
    ensures s.disk == EMPTY
  {
    assert ProcOk(s, p);
  }

  lemma OnlyUnlinkSaysDeleted(s: State, step: Step, p: nat)
    requires Inv(s) && CanStep(s, step) && p < |s.ps|
    requires !SaysDeleted(s.ps[p].phase) && SaysDeleted(After(s, step).ps[p].phase)
    ensures step == Unlink(p, true) && s.disk == EMPTY
  {
    hide Inv, Enabled, NextCs, NextDisk, PassesOver, Orphans, Bare, Unlocked, Unused, Own;
    if step.p != p {
      OneMoves(s, step);
    } else if step == Unlink(p, true) && s.ps[p].phase.cs.ok {
      NothingToLeave(s, p);
    }
  }

  /** A delete that reports success unlinked the lock file at a moment when no
      artifact, sidecar or temporary of the revision was left. */
  lemma {:induction false} DeletedMeansEmptied(s: State, steps: seq<Step>, s': State, p: nat) returns (k: nat, m: State)
    requires Inv(s) && Runs(s, steps, s') && p < |s.ps| && p < |s'.ps|
    requires !SaysDeleted(s.ps[p].phase) && SaysDeleted(s'.ps[p].phase)
    ensures k < |steps| && Runs(s, steps[..k], m)
    ensures steps[k] == Unlink(p, true) && CanStep(m, steps[k]) && m.disk == EMPTY
    decreases |steps|
  {
    hide Inv, CanStep, After;
    var next := After(s, steps[0]);
    StepKeeps(s, steps[0]);
    StepOf(s, steps[0], p);
    if SaysDeleted(next.ps[p].phase) {
      k, m := 0, s;
      OnlyUnlinkSaysDeleted(s, steps[0], p);
    } else {
      k, m := DeletedMeansEmptied(next, steps[1..], s', p);
      k := k + 1;
      assert steps[..k][1..] == steps[1..][..k - 1];
    }
  }

  /** From the beginning: a process that ends with a delete reported as done has
      unlinked the lock over an empty set. */
  lemma DeleteReportsTruly(s0: State, steps: seq<Step>, s: State, p: nat) returns (k: nat, m: State)
    requires Initial(s0) && Runs(s0, steps, s) && p < |s0.ps| && p < |s.ps|
    requires s0.ps[p].phase.Waiting? && s.ps[p].phase == Closed(Deleted(true))
    ensures k < |steps| && Runs(s0, steps[..k], m) && steps[k] == Unlink(p, true) && CanStep(m, steps[k])
    ensures m.disk.files == map[] && m.disk.staged == map[]
  {
    InitialOk(s0);
    hide Initial, Runs, Inv, CanStep;
    k, m := DeletedMeansEmptied(s0, steps, s, p);
  }

  /** An unlink or a removal of the directory that fails leaves everything there,
      and the delete whose unlink failed does not report success. */
  lemma FailuresLeaveAll(s: State, p: nat)
    ensures CanStep(s, Unlink(p, false)) ==>
              var after := After(s, Unlink(p, false));
              && after.path == s.path && after.disk == s.disk && after.dir == s.dir && after.unlinks == s.unlinks
              && after.ps[p].phase.Leaving? && !after.ps[p].phase.ok
    ensures CanStep(s, Prune(p, false)) ==>
              var after := After(s, Prune(p, false));
              after.path == s.path && after.disk == s.disk && after.dir == s.dir && after.prunes == s.prunes
    ensures CanStep(s, Visit(p, true)) ==>
              var after := After(s, Visit(p, true));
              after.path == s.path && after.disk == s.disk && after.dir && after.prunes == s.prunes
  {
    hide Enabled, NextCs, NextDisk;
  }

  lemma DeleterAddsNothing(s: State, step: Step)
    requires Inv(s) && CanStep(s, step) && s.disk == EMPTY
    requires forall p | 0 <= p < |s.ps| :: s.ps[p].job.Delete?
    ensures After(s, step).disk == EMPTY
    ensures forall p | 0 <= p < |After(s, step).ps| :: After(s, step).ps[p].job.Delete?
  {
    hide NextCs, OneBuild, SidecarOk, Chain, PassesOver, Orphans;
    if step.Work? { assert ProcOk(s, step.p); }
  }

  /** Deleting again changes no file. */
  lemma {:induction false} DeletingAgainChangesNothing(s: State, steps: seq<Step>, s': State)
    requires Inv(s) && Runs(s, steps, s') && s.disk == EMPTY
    requires forall p | 0 <= p < |s.ps| :: s.ps[p].job.Delete?
    ensures s'.disk == EMPTY
    decreases |steps|
  {
    hide Inv, CanStep, After;
    if steps != [] {
      StepKeeps(s, steps[0]);
      DeleterAddsNothing(s, steps[0]);
      var next := After(s, steps[0]);
      DeletingAgainChangesNothing(next, steps[1..], s');
    }
  }

  function OwnedBy(q: Proc): set<nat> {
    if q.phase.Critical? then Own(q.phase.cs) else {}
  }

  /** The sweep of a delete never takes a temporary that a process which has not
      stopped still has in hand. */
  lemma SweepSparesTheLiving(s0: State, steps: seq<Step>, s: State, p: nat, act: Act, r: nat)
    requires Initial(s0) && Runs(s0, steps, s)
    requires CanStep(s, Work(p, act)) && s.ps[p].phase.cs.Sweep? && s.ps[p].phase.cs.left != {}
    requires r < |s.ps|
    ensures act.t !in OwnedBy(s.ps[r])
    ensures s.ps[r].phase.Critical? ==> act.t !in Own(s.ps[r].phase.cs)
  {
    if s.ps[r].phase.Critical? {
      AtMostOneInside(s0, steps, s, p, r);
    }
  }

  // ---- Waiting for the lock ----

  /** An acquirer starts over at most as often as the lock file was unlinked
      since it began: each failed check is paid for by an unlink of its own. */
  lemma RetriesArePaidFor(s0: State, steps: seq<Step>, s: State, p: nat)
    requires Initial(s0) && Runs(s0, steps, s) && p < |s.ps|
    requires s.ps[p].phase.Idle? || HasOpen(s.ps[p].phase)
    ensures s.ps[p].retries <= s.unlinks - s.ps[p].start
  {
    InitialOk(s0);
    RunKeeps(s0, steps, s);
    assert ProcOk(s, p);
  }

  // ---- The directory ----

  /** The directory is removed: by a deleter of the revision, or of another. */
  predicate RemovesDirectory(step: Step) {
    (step.Prune? && step.gone) || (step.Visit? && !step.made)
  }

  lemma {:induction false} RemovalInRun(s: State, steps: seq<Step>, s': State) returns (i: nat)
    requires Runs(s, steps, s') && s.prunes < s'.prunes
    ensures i < |steps| && RemovesDirectory(steps[i])
    decreases |steps|
  {
    var next := After(s, steps[0]);
    if RemovesDirectory(steps[0]) {
      i := 0;
    } else {
      assert next.prunes == s.prunes;
      i := RemovalInRun(next, steps[1..], s');
      i := i + 1;
    }
  }

  /** What a step can do to one process, as far as the directory is concerned. */
  lemma StepOf(s: State, step: Step, p: nat)
    requires CanStep(s, step) && p < |s.ps|
    ensures var next := After(s, step);
            && |next.ps| == |s.ps|
            && (s.ps[p].phase.Closed? ==> next.ps[p] == s.ps[p])
            && (!s.ps[p].phase.Waiting? ==> !next.ps[p].phase.Waiting? && next.ps[p].made == s.ps[p].made)
            && (s.ps[p].phase.Waiting? && step != Start(p) ==>
                  next.ps[p].phase.Waiting? || next.ps[p].phase == Closed(Stopped))
            && (step == Start(p) ==> next.ps[p].phase.Idle? && next.ps[p].made == next.prunes)
            && (next.ps[p].phase == Closed(NoDirectory) ==> step == Missing(p) || s.ps[p].phase == Closed(NoDirectory))
  {
    hide Enabled, NextCs, NextDisk, PassesOver, Orphans, Own, Bare, Unlocked, Unused;
    if step.p != p { OneMoves(s, step); }
  }

  lemma {:induction false} ClosedStays(s: State, steps: seq<Step>, s': State, p: nat)
    requires Runs(s, steps, s') && p < |s.ps| && s.ps[p].phase.Closed?
    ensures p < |s'.ps| && s'.ps[p] == s.ps[p]
    decreases |steps|
  {
    hide CanStep, After;
    if steps != [] {
      StepOf(s, steps[0], p);
      ClosedStays(After(s, steps[0]), steps[1..], s', p);
    }
  }

  /** From a process that has made sure of the directory to its finding it gone. */
  lemma {:induction false} FoundMissing(s: State, steps: seq<Step>, s': State, p: nat) returns (j: nat, m: State)
    requires Inv(s) && Runs(s, steps, s') && p < |s.ps| && p < |s'.ps|
    requires !s.ps[p].phase.Waiting? && s.ps[p].phase != Closed(NoDirectory)
    requires s'.ps[p].phase == Closed(NoDirectory)
    ensures j < |steps| && steps[j] == Missing(p) && Runs(s, steps[..j], m)
    ensures Inv(m) && CanStep(m, steps[j]) && p < |m.ps| && m.ps[p].made == s.ps[p].made
    decreases |steps|
  {
    hide Inv, CanStep, After;
    var next := After(s, steps[0]);
    StepKeeps(s, steps[0]);
    StepOf(s, steps[0], p);
    if steps[0] == Missing(p) {
      j, m := 0, s;
    } else {
      j, m := FoundMissing(next, steps[1..], s', p);
      j := j + 1;
      assert steps[..j][1..] == steps[1..][..j - 1];
    }
  }

  lemma GoneSince(m: State, p: nat)
    requires Inv(m) && CanStep(m, Missing(p))
    ensures m.ps[p].made < m.prunes
  {
    assert ProcOk(m, p);
  }

  /** An acquirer that finds the directory of the lock file gone had made sure of
      it, and it was removed in between. */
  lemma {:induction false} MissingWasRemoved(s: State, steps: seq<Step>, s': State, p: nat)
    returns (a: nat, i: nat, j: nat)
    requires Inv(s) && Runs(s, steps, s') && p < |s.ps| && p < |s'.ps|
    requires s.ps[p].phase.Waiting? && s'.ps[p].phase == Closed(NoDirectory)
    ensures a < i < j < |steps|
    ensures steps[a] == Start(p) && RemovesDirectory(steps[i]) && steps[j] == Missing(p)
    decreases |steps|
  {
    hide Inv, CanStep, After;
    var next := After(s, steps[0]);
    StepKeeps(s, steps[0]);
    StepOf(s, steps[0], p);
    if steps[0] == Start(p) {
      var m;
      j, m := FoundMissing(next, steps[1..], s', p);
      GoneSince(m, p);
      i := RemovalInRun(next, steps[1..][..j], m);
      a, i, j := 0, i + 1, j + 1;
    } else {
      if next.ps[p].phase.Closed? { ClosedStays(next, steps[1..], s', p); }
      a, i, j := MissingWasRemoved(next, steps[1..], s', p);
      a, i, j := a + 1, i + 1, j + 1;
    }
  }

  /** A process inside always has its directory. */
  lemma InsideHasDirectory(s0: State, steps: seq<Step>, s: State, p: nat)
    requires Initial(s0) && Runs(s0, steps, s) && p < |s.ps| && s.ps[p].phase.Critical?
    ensures s.dir
  {
    AtMostOneInside(s0, steps, s, p, p);
    InitialOk(s0);
    RunKeeps(s0, steps, s);
  }
}
