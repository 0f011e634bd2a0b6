/** Undisturbed, seeding is deterministic: every schedule gives what trying the
    siblings in order, one file after the other, gives. */
module SeedingQuiet {
  import opened Seeding
  import opened Wrappers

  /** The first sibling, from k on, with a wanted copy of file t. */
  function FirstGood(job: Job, first: Links, t: nat, k: nat): (r: Option<nat>)
    requires t < |job.files|
    ensures r.Some? ==>
              && k <= r.value < job.siblings && job.CopyOf(t, r.value) in first
              && job.Wanted(t, first[job.CopyOf(t, r.value)])
    ensures forall j: nat | k <= j < (if r.Some? then r.value else job.siblings) ::
              job.CopyOf(t, j) in first ==> !job.Wanted(t, first[job.CopyOf(t, j)])
    ensures r.Some? ==>
              && Copy(r.value, job.files[t].path) in first
              && IsListed(job, t, first[Copy(r.value, job.files[t].path)])
    ensures forall j: nat | k <= j < (if r.Some? then r.value else job.siblings) ::
              Copy(j, job.files[t].path) in first ==> !IsListed(job, t, first[Copy(j, job.files[t].path)])
    decreases job.siblings - k
  {
    assert job.CopyOf(t, k) in first ==>
             (job.Wanted(t, first[job.CopyOf(t, k)]) <==> IsListed(job, t, first[job.CopyOf(t, k)])) by {
      if job.CopyOf(t, k) in first { WantedIsListed(job, t, first[job.CopyOf(t, k)]); }
    }
    if k >= job.siblings then None
    else if job.CopyOf(t, k) in first && job.Wanted(t, first[job.CopyOf(t, k)]) then Some(k)
    else FirstGood(job, first, t, k + 1)
  }

  /** What becomes of file t: nothing if it is there already. */
  function Outcome(job: Job, first: Links, t: nat): Option<nat>
    requires t < |job.files|
  {
    if job.TargetOf(t) in first then None else FirstGood(job, first, t, 0)
  }

  predicate Distinct(job: Job) {
    forall t, u | 0 <= t < |job.files| && 0 <= u < |job.files| && job.files[t].path == job.files[u].path :: t == u
  }

  predicate Quiet(step: Step) { step.Work? && !step.fails }

  /** Where a busy worker stands: it has passed over no good sibling. */
  predicate OnTrack(job: Job, first: Links, pc: Pc)
    requires Busy(pc) && pc.t < |job.files|
  {
    !pc.Look? ==>
      && job.TargetOf(pc.t) !in first && pc.k <= job.siblings
      && FirstGood(job, first, pc.t, 0) == FirstGood(job, first, pc.t, pc.k)
      && (!pc.Try? ==> job.CopyOf(pc.t, pc.k) in first && job.Plausible(pc.t, first[job.CopyOf(pc.t, pc.k)]))
      && (pc.Undo? ==> !job.Wanted(pc.t, first[job.CopyOf(pc.t, pc.k)]))
  }

  ghost predicate SiblingsSame(first: Links, s: Seed) {
    forall k, path ::
      (Copy(k, path) in s.links <==> Copy(k, path) in first)
      && (Copy(k, path) in first ==> s.links[Copy(k, path)] == first[Copy(k, path)])
  }

  predicate MadeOk(first: Links, s: Seed, path: string)
    requires path in s.made
  {
    var e := s.made[path];
    && !e.status.Left? && Target(path) in s.links && Copy(e.k, path) in first
    && s.links[Target(path)] == first[Copy(e.k, path)]
  }

  predicate TaskOk(job: Job, first: Links, s: Seed, t: nat)
    requires t < |job.files|
  {
    t < s.next ==>
      && t in s.owner && s.owner[t] < |s.ws| && t < |s.results|
      && var pc := s.ws[s.owner[t]];
         if Busy(pc) && pc.t == t then OnTrack(job, first, pc) else s.results[t] == Outcome(job, first, t)
  }

  ghost predicate QuietInv(job: Job, first: Links, s: Seed) {
    && Inv(job, first, s) && !s.failed && SiblingsSame(first, s)
    && (forall path | path in s.made :: MadeOk(first, s, path))
    && (forall t | 0 <= t < |job.files| :: TaskOk(job, first, s, t))
    && (forall w | 0 <= w < |s.ws| && s.ws[w].Done? :: s.next >= |job.files|)
  }

  /** The target of a task under way is there only while its worker holds it. */
  lemma TargetFree(job: Job, first: Links, s: Seed, w: nat)
    requires QuietInv(job, first, s) && Distinct(job) && w < |s.ws| && Busy(s.ws[w]) && !Holds(s.ws[w])
    ensures s.ws[w].t < |job.files|
    ensures job.TargetOf(s.ws[w].t) in s.links <==> job.TargetOf(s.ws[w].t) in first
  {
    assert WorkerOk(job, s, w);
    assert forall path | path in s.made :: EntryOk(job, s, path);
  }

  /** A step in which worker w goes on with, or gives up, its task t. */
  lemma TaskStep(job: Job, first: Links, s: Seed, s': Seed, w: nat, t: nat)
    requires QuietInv(job, first, s) && w < |s.ws| && Busy(s.ws[w]) && s.ws[w].t == t < |job.files|
    requires Around(job, s, s', w, t) && !s'.failed && SiblingsSame(first, s') && !s'.ws[w].Done?
    requires Busy(s'.ws[w]) ==> s'.ws[w].t == t && OnTrack(job, first, s'.ws[w])
    requires !Busy(s'.ws[w]) ==> s'.results[t] == Outcome(job, first, t)
    requires job.files[t].path in s'.made ==> MadeOk(first, s', job.files[t].path)
    requires Inv(job, first, s')
    ensures QuietInv(job, first, s')
  {
    assert WorkerOk(job, s, w) && TaskOk(job, first, s, t);
    forall u | 0 <= u < |job.files| ensures TaskOk(job, first, s', u) { assert TaskOk(job, first, s, u); }
    forall path | path in s'.made ensures MadeOk(first, s', path) {
      if path != job.files[t].path { assert MadeOk(first, s, path); }
    }
  }

  lemma QuietClaim(job: Job, first: Links, s: Seed, w: nat)
    requires QuietInv(job, first, s) && w < |s.ws| && s.ws[w].Claim?
    ensures QuietInv(job, first, Claimed(job, s, w))
  {
    var s' := Claimed(job, s, w);
    ClaimKeeps(job, first, s, w);
    forall u | 0 <= u < |job.files| ensures TaskOk(job, first, s', u) { assert TaskOk(job, first, s, u); }
    forall path | path in s'.made ensures MadeOk(first, s', path) { assert MadeOk(first, s, path); }
  }

  lemma LinkedAround(job: Job, s: Seed, w: nat, t: nat, k: nat)
    requires w < |s.ws| && t < |job.files|
    ensures Around(job, s, Linked(job, s, w, t, k, false), w, t)
  {
  }

  lemma VerifiedAround(job: Job, s: Seed, w: nat, t: nat, k: nat)
    requires w < |s.ws| && t < |job.files|
    ensures Around(job, s, Verified(job, s, w, t, k), w, t)
  {
  }

  lemma UndoneAround(job: Job, s: Seed, w: nat, t: nat, k: nat)
    requires w < |s.ws| && t < |job.files|
    ensures Around(job, s, Undone(job, s, w, t, k, false), w, t)
  {
  }

  lemma GotoAround(job: Job, s: Seed, w: nat, t: nat, pc: Pc)
    requires w < |s.ws| && t < |job.files|
    ensures Around(job, s, Goto(s, w, pc), w, t)
  {
  }

  /** A busy worker's step is about its own task only. */
  lemma WorkedAround(job: Job, s: Seed, w: nat)
    requires w < |s.ws| && Busy(s.ws[w]) && Enabled(job, s, Work(w, false))
    ensures Around(job, s, Worked(job, s, w, false), w, s.ws[w].t)
  {
    hide Around, Linked, Verified, Undone;
    var t, next := s.ws[w].t, Worked(job, s, w, false);
    match s.ws[w]
    case Look(_) => GotoAround(job, s, w, t, next.ws[w]);
    case Try(_, _) => GotoAround(job, s, w, t, next.ws[w]);
    case MakeDir(_, _) => GotoAround(job, s, w, t, next.ws[w]);
    case Check(_, _) => GotoAround(job, s, w, t, next.ws[w]);
    case Link(_, k) => LinkedAround(job, s, w, t, k);
    case Read(_, k) => VerifiedAround(job, s, w, t, k); GotoAround(job, s, w, t, Undo(t, k));
    case Undo(_, k) => UndoneAround(job, s, w, t, k);
    case Claim =>
    case Done =>
  }

  lemma SiblingsStay(job: Job, first: Links, s: Seed, w: nat)
    requires SiblingsSame(first, s) && Enabled(job, s, Work(w, false))
    ensures SiblingsSame(first, Worked(job, s, w, false))
  {
    forall k, path
      ensures Copy(k, path) in Worked(job, s, w, false).links <==> Copy(k, path) in first
      ensures Copy(k, path) in first ==> Worked(job, s, w, false).links[Copy(k, path)] == first[Copy(k, path)]
    {
      SiblingsAreUntouched(job, s, w, false, k, path);
    }
  }

  lemma QuietOfWorker(job: Job, first: Links, s: Seed, w: nat)
    requires QuietInv(job, first, s) && w < |s.ws| && Busy(s.ws[w])
    ensures WorkerOk(job, s, w) && TaskOk(job, first, s, s.ws[w].t)
    ensures var path := job.files[s.ws[w].t].path; path in s.made ==> MadeOk(first, s, path)
    ensures !s.failed && SiblingsSame(first, s) && |s.results| == |job.files|
  {
    assert WorkerOk(job, s, w);
  }

  lemma QuietSearch(job: Job, first: Links, s: Seed, w: nat)
    requires QuietInv(job, first, s) && Distinct(job) && w < |s.ws| && Busy(s.ws[w]) && !Holds(s.ws[w])
    requires Enabled(job, s, Work(w, false)) && Inv(job, first, Worked(job, s, w, false))
    ensures QuietInv(job, first, Worked(job, s, w, false))
  {
    hide Inv, QuietInv, SiblingsSame, Around;
    var s', t := Worked(job, s, w, false), s.ws[w].t;
    QuietOfWorker(job, first, s, w);
    TargetFree(job, first, s, w);
    WorkedAround(job, s, w);
    SiblingsStay(job, first, s, w);
    TaskStep(job, first, s, s', w, t);
  }

  lemma QuietVerify(job: Job, first: Links, s: Seed, w: nat)
    requires QuietInv(job, first, s) && Distinct(job) && w < |s.ws| && Holds(s.ws[w])
    requires Enabled(job, s, Work(w, false)) && Inv(job, first, Worked(job, s, w, false))
    ensures QuietInv(job, first, Worked(job, s, w, false))
  {
    hide Inv, QuietInv, SiblingsSame, Around;
    var s', t := Worked(job, s, w, false), s.ws[w].t;
    QuietOfWorker(job, first, s, w);
    WorkedAround(job, s, w);
    SiblingsStay(job, first, s, w);
    TaskStep(job, first, s, s', w, t);
  }

  lemma QuietStep(job: Job, first: Links, s: Seed, step: Step)
    requires QuietInv(job, first, s) && Distinct(job) && Enabled(job, s, step) && Quiet(step)
    ensures QuietInv(job, first, Apply(job, s, step))
  {
    if s.ws[step.w].Claim? {
      QuietClaim(job, first, s, step.w);
    } else {
      StepKeeps(job, first, s, step);
      if Holds(s.ws[step.w]) { QuietVerify(job, first, s, step.w); } else { QuietSearch(job, first, s, step.w); }
    }
  }

  lemma {:induction false} QuietRun(job: Job, first: Links, s: Seed, steps: seq<Step>, s': Seed)
    requires QuietInv(job, first, s) && Distinct(job) && Runs(job, s, steps, s')
    requires forall i | 0 <= i < |steps| :: Quiet(steps[i])
    ensures QuietInv(job, first, s') && |s'.ws| == |s.ws|
    decreases |steps|
  {
    if steps != [] {
      QuietStep(job, first, s, steps[0]);
      QuietRun(job, first, Apply(job, s, steps[0]), steps[1..], s');
    }
  }

  /** The sequential outcome: results and links follow from what was there. */
  ghost predicate Settled(job: Job, links: Links, s: Seed) {
    && s.results == seq(|job.files|, t requires 0 <= t < |job.files| => Outcome(job, links, t))
    && SiblingsSame(links, s)
    && (forall path | Target(path) in links :: Target(path) in s.links && s.links[Target(path)] == links[Target(path)])
    && (forall t | 0 <= t < |job.files| && Outcome(job, links, t).Some? ::
          var target, source := Target(job.files[t].path), Copy(Outcome(job, links, t).value, job.files[t].path);
          target in s.links && s.links[target] == links[source])
    && (forall path | Target(path) in s.links && Target(path) !in links ::
          exists t | 0 <= t < |job.files| :: job.files[t].path == path && Outcome(job, links, t).Some?)
  }

  lemma QuietStart(job: Job, links: Links, workers: nat)
    ensures QuietInv(job, links, Start(job, links, workers))
  {
    StartOk(job, links, workers);
  }

  lemma CanGoOn(job: Job, links: Links, s: Seed)
    requires QuietInv(job, links, s) && !Resting(s)
    ensures exists step :: Quiet(step) && Enabled(job, s, step)
  {
    var w :| 0 <= w < |s.ws| && !s.ws[w].Done?;
    assert WorkerOk(job, s, w);
    assert Quiet(Work(w, false)) && Enabled(job, s, Work(w, false));
  }

  lemma QuietAtRest(job: Job, links: Links, s: Seed)
    requires QuietInv(job, links, s) && Resting(s) && |s.ws| > 0
    ensures !s.failed && Settled(job, links, s)
  {
    assert s.ws[0].Done?;
    forall t | 0 <= t < |job.files|
      ensures s.results[t] == Outcome(job, links, t)
    {
      assert TaskOk(job, links, s, t);
    }
    forall t | 0 <= t < |job.files| && Outcome(job, links, t).Some?
      ensures job.TargetOf(t) in s.links
                && s.links[job.TargetOf(t)] == links[job.CopyOf(t, Outcome(job, links, t).value)]
    {
      assert ResultOk(job, s, t) && MadeOk(links, s, job.files[t].path);
    }
    forall path | Target(path) in s.links && Target(path) !in links
      ensures exists t | 0 <= t < |job.files| :: job.files[t].path == path && Outcome(job, links, t).Some?
    {
      assert path in s.made && EntryOk(job, s, path) && MadeOk(links, s, path);
      assert job.files[s.made[path].t].path == path;
    }
  }

  lemma {:induction false} QuietCount(steps: seq<Step>)
    requires forall i | 0 <= i < |steps| :: Quiet(steps[i])
    ensures WorkCount(steps) == |steps|
  {
    if steps != [] { QuietCount(steps[1..]); }
  }

  /** In a quiet environment and with distinct target paths, every schedule of
      any number of workers ends, without error, in the sequential outcome: each
      missing file comes from the first sibling that has it. A schedule has a
      bounded number of steps, and one that is not at rest can go on quietly. */
  lemma EveryScheduleAgrees(job: Job, links: Links, workers: nat, steps: seq<Step>, s: Seed)
    requires Runs(job, Start(job, links, workers), steps, s) && workers > 0
    requires Distinct(job) && forall i | 0 <= i < |steps| :: Quiet(steps[i])
    ensures |steps| <= |job.files| * (3 + 6 * job.siblings) + workers
    ensures if Resting(s) then !s.failed && Settled(job, links, s)
            else exists step :: Quiet(step) && Enabled(job, s, step)
  {
    hide Runs, QuietInv, Settled, Enabled;
    EveryScheduleEnds(job, links, workers, steps, s);
    QuietCount(steps);
    QuietStart(job, links, workers);
    QuietRun(job, links, Start(job, links, workers), steps, s);
    if Resting(s) {
      QuietAtRest(job, links, s);
    } else {
      CanGoOn(job, links, s);
    }
  }

  lemma SettledFollows(job: Job, links: Links, s1: Seed, s2: Seed)
    requires Settled(job, links, s1) && Settled(job, links, s2)
    ensures s1.results == s2.results
    ensures forall name | name in s1.links :: name in s2.links && s2.links[name] == s1.links[name]
  {
    forall name | name in s1.links
      ensures name in s2.links && s2.links[name] == s1.links[name]
    {
      if name.Target? && name !in links {
        var t :| 0 <= t < |job.files| && job.files[t].path == name.path && Outcome(job, links, t).Some?;
        assert name == job.TargetOf(t);
      }
    }
  }

  lemma SettledIsUnique(job: Job, links: Links, s1: Seed, s2: Seed)
    requires Settled(job, links, s1) && Settled(job, links, s2)
    ensures s1.results == s2.results && s1.links == s2.links
  {
    hide *;
    SettledFollows(job, links, s1, s2);
    SettledFollows(job, links, s2, s1);
    assert s1.links.Keys == s2.links.Keys;
  }

  /** So any two undisturbed runs end in the same directories and results. */
  lemma SchedulesAgree(job: Job, links: Links, n1: nat, steps1: seq<Step>, s1: Seed, n2: nat, steps2: seq<Step>,
                       s2: Seed)
    requires Distinct(job) && n1 > 0 && n2 > 0
    requires Runs(job, Start(job, links, n1), steps1, s1) && Resting(s1)
              && forall i | 0 <= i < |steps1| :: Quiet(steps1[i])
    requires Runs(job, Start(job, links, n2), steps2, s2) && Resting(s2)
              && forall i | 0 <= i < |steps2| :: Quiet(steps2[i])
    ensures s1.results == s2.results && s1.links == s2.links
  {
    hide *;
    EveryScheduleAgrees(job, links, n1, steps1, s1);
    EveryScheduleAgrees(job, links, n2, steps2, s2);
    SettledIsUnique(job, links, s1, s2);
  }
}
