/** The one way safety is lost: a delete that cannot remove the two commit files
    and goes on to remove the sidecar. Here is a whole run of it. */
module Mixing {
  import opened ArtifactLock
  import opened LockedSteps
  import opened Store
  import opened StoreOps
  import opened StoreSafety

  function WithSidecar(b: Build): Files {
    map[Mpk := Image(b), Info := RefOf(b), Schema := SchemaId(b.schema)]
  }

  function WithoutSidecar(b: Build): Files {
    map[Mpk := Image(b), Info := RefOf(b)]
  }

  /** What is left after the first i removals, and how the next one goes. */
  function Remains(b: Build, i: nat): Files {
    if i <= 4 then WithSidecar(b) else WithoutSidecar(b)
  }

  function Tried(i: nat): Act {
    if i == 2 || i == 3 then Decline else Go
  }

  lemma OneRemoval(b: Build, i: nat)
    requires i < |REMOVALS|
    ensures var d, cs := Disk(Remains(b, i), map[]), Remove(i, i <= 2);
            && Enabled(Delete, d, cs, Tried(i))
            && NextDisk(Delete, d, cs, Tried(i)) == Disk(Remains(b, i + 1), map[])
            && NextCs(Delete, d, cs, Tried(i)) == Remove(i + 1, i + 1 <= 2)
  {
    assert WithSidecar(b) - {Schema} == WithoutSidecar(b);
    assert REMOVALS[i] !in Remains(b, i) ==> Remains(b, i) - {REMOVALS[i]} == Remains(b, i);
  }

  /** The removals of .info and .mpk fail, all others succeed. */
  lemma DeleteLeavesOrphans(b: Build) returns (acts: seq<Act>)
    ensures Works(Delete, Disk(WithSidecar(b), map[]), Remove(0, true), acts,
                  Disk(WithoutSidecar(b), map[]), Leave(false))
  {
    hide Works, WithSidecar, WithoutSidecar, Tried;
    acts := [];
    var start := Disk(WithSidecar(b), map[]);
    var i := 0;
    NoActs(Delete, start, Remove(0, true));
    while i < |REMOVALS|
      invariant 0 <= i <= |REMOVALS|
      invariant Works(Delete, start, Remove(0, true), acts, Disk(Remains(b, i), map[]), Remove(i, i <= 2))
    {
      OneRemoval(b, i);
      OneMore(Delete, start, Remove(0, true), acts, Disk(Remains(b, i), map[]), Remove(i, i <= 2), Tried(i));
      acts, i := acts + [Tried(i)], i + 1;
    }
    var end := Disk(WithoutSidecar(b), map[]);
    OneMore(Delete, start, Remove(0, true), acts, end, Remove(|REMOVALS|, false), Go);
    acts := acts + [Go];
    assert end.staged.Keys == {};
    OneMore(Delete, start, Remove(0, true), acts, end, Sweep({}, false), Go);
    acts := acts + [Go];
  }

  /** A packer that asks for schema 1 takes the orphans for its own. */
  lemma PackTakesOrphans(b: Build) returns (acts: seq<Act>, d: Disk)
    ensures Works(Pack(1, false), Disk(WithoutSidecar(b), map[]), Check(0, {}), acts, d, Returning(RefOf(b)))
  {
    acts := [];
    var job, start := Pack(1, false), Disk(WithoutSidecar(b), map[]);
    assert STATS == [Mpk, Info, Emwp, EmwpInfo];
    OneMore(job, start, Check(0, {}), acts, start, Check(0, {}), Go);
    acts := acts + [Go];
    OneMore(job, start, Check(0, {}), acts, start, Check(1, {Mpk}), Go);
    acts := acts + [Go];
    OneMore(job, start, Check(0, {}), acts, start, Check(2, {Mpk} + {Info}), Go);
    acts := acts + [Go];
    OneMore(job, start, Check(0, {}), acts, start, Check(3, {Mpk} + {Info}), Go);
    acts := acts + [Go];
    OneMore(job, start, Check(0, {}), acts, start, Check(4, {Mpk} + {Info}), Go);
    acts := acts + [Go];
    OneMore(job, start, Check(0, {}), acts, start, Backfill, Go);
    acts := acts + [Go];
    var rest: seq<Act>;
    rest, d := BackfillAndReturn(b);
    assert Works(job, start, Check(0, {}), acts, start, Stage(Schema, SchemaId(1), ReadInfo));
    WorksThen(job, start, Check(0, {}), acts, start, Stage(Schema, SchemaId(1), ReadInfo),
              rest, d, Returning(RefOf(b)));
    acts := acts + rest;
  }

  lemma BackfillAndReturn(b: Build) returns (acts: seq<Act>, d: Disk)
    ensures Works(Pack(1, false), Disk(WithoutSidecar(b), map[]), Stage(Schema, SchemaId(1), ReadInfo),
                  acts, d, Returning(RefOf(b)))
  {
    var job, cs, start := Pack(1, false), Stage(Schema, SchemaId(1), ReadInfo), Disk(WithoutSidecar(b), map[]);
    var made, filled := Disk(WithoutSidecar(b), map[0 := Junk]), Disk(WithoutSidecar(b), map[0 := SchemaId(1)]);
    acts := [];
    OneMore(job, start, cs, acts, start, cs, Named(0));
    acts := acts + [Named(0)];
    assert start.staged[0 := Junk] == made.staged;
    OneMore(job, start, cs, acts, made, Fill(Schema, SchemaId(1), 0, ReadInfo), Go);
    acts := acts + [Go];
    assert made.staged[0 := SchemaId(1)] == filled.staged;
    d := NextDisk(job, filled, Move(Schema, 0, ReadInfo), Go);
    OneMore(job, start, cs, acts, filled, Move(Schema, 0, ReadInfo), Go);
    acts := acts + [Go];
    OneMore(job, start, cs, acts, d, ReadInfo, Go);
    acts := acts + [Go];
    OneMore(job, start, cs, acts, d, HaveRef(b), Go);
    acts := acts + [Go];
  }

  lemma {:induction false} WorksThen(job: Job, d: Disk, cs: Cs, acts: seq<Act>, d1: Disk, cs1: Cs, more: seq<Act>,
                                     d2: Disk, cs2: Cs)
    requires Works(job, d, cs, acts, d1, cs1) && Works(job, d1, cs1, more, d2, cs2)
    ensures Works(job, d, cs, acts + more, d2, cs2)
    decreases |acts|
  {
    if acts == [] {
      assert acts + more == more;
    } else {
      assert (acts + more)[1..] == acts[1..] + more;
      WorksThen(job, NextDisk(job, d, cs, acts[0]), NextCs(job, d, cs, acts[0]), acts[1..], d1, cs1, more, d2, cs2);
    }
  }

  predicate Quiet(s: State) {
    forall q | 0 <= q < |s.ps| :: s.ps[q].phase.Waiting? || s.ps[q].phase.Closed?
  }

  /** A process that nobody is in the way of gets in. */
  lemma GetsIn(s: State, p: nat) returns (s': State)
    requires p < |s.ps| && s.ps[p].phase.Waiting? && s.path == Absent && Quiet(s)
    ensures Runs(s, [Start(p), Open(p, 0), Flock(p), Stat(p)], s')
    ensures s'.dir && s'.disk == s.disk && s'.path == Names(0) && OnlyMoves(s, s', p)
    ensures s'.unlinks == s.unlinks && s'.skipped == s.skipped
    ensures s'.ps[p].job == s.ps[p].job && s'.ps[p].phase == Critical(0, LockedSteps.Begin(s.ps[p].job))
  {
    hide Runs, Enabled, AfterWork;
    var steps: seq<Step> := [];
    s' := s;
    NoSteps(s);
    steps, s' := Then(s, steps, s', Start(p));
    steps, s' := Then(s, steps, s', Open(p, 0));
    steps, s' := Then(s, steps, s', Flock(p));
    steps, s' := Then(s, steps, s', Stat(p));
    assert steps == [Start(p), Open(p, 0), Flock(p), Stat(p)];
  }

  /** A deleter that has done its work goes; pruned is whether it can and does
      remove the directory. */
  lemma Departs(s: State, p: nat, ok: bool, pruned: bool) returns (steps: seq<Step>, s': State)
    requires p < |s.ps| && s.ps[p].phase.Critical? && s.ps[p].phase.cs == Leave(ok)
    requires pruned ==> s.dir && s.disk == EMPTY
    ensures Runs(s, steps, s') && OnlyMoves(s, s', p)
    ensures steps == [Unlink(p, true), Close(p), Prune(p, pruned)]
    ensures s'.disk == s.disk && s'.path == Absent && s'.ps[p].phase == Closed(Deleted(ok))
    ensures s'.dir == (s.dir && !pruned)
  {
    hide Runs, Enabled, AfterWork;
    steps, s' := [], s;
    NoSteps(s);
    steps, s' := Then(s, steps, s', Unlink(p, true));
    steps, s' := Then(s, steps, s', Close(p));
    steps, s' := Then(s, steps, s', Prune(p, pruned));
  }

  lemma Chained(s: State, p: nat, s1: State, acts: seq<Act>, s2: State, last: seq<Step>, s3: State)
    returns (steps: seq<Step>)
    requires Runs(s, [Start(p), Open(p, 0), Flock(p), Stat(p)], s1)
    requires Runs(s1, WorkSteps(p, acts), s2) && Runs(s2, last, s3)
    ensures Runs(s, steps, s3)
  {
    hide *;
    var first := [Start(p), Open(p, 0), Flock(p), Stat(p)];
    RunsThen(s, first, s1, WorkSteps(p, acts), s2);
    RunsThen(s, first + WorkSteps(p, acts), s2, last, s3);
    steps := first + WorkSteps(p, acts) + last;
  }

  lemma DeletePasses(b: Build, s: State, p: nat) returns (steps: seq<Step>, s': State)
    requires p < |s.ps| && s.ps[p].phase.Waiting? && s.ps[p].job == Delete && s.path == Absent && Quiet(s)
    requires s.disk == Disk(WithSidecar(b), map[])
    ensures Runs(s, steps, s') && OnlyMoves(s, s', p) && s'.path == Absent && s'.ps[p].phase.Closed?
    ensures s'.disk == Disk(WithoutSidecar(b), map[])
  {
    hide Runs, Works, WorkSteps, WithSidecar, WithoutSidecar, Quiet;
    var s1 := GetsIn(s, p);
    var acts := DeleteLeavesOrphans(b);
    var s2 := WorksIsRun(s1, p, acts, Disk(WithoutSidecar(b), map[]), Leave(false));
    var last;
    last, s' := Departs(s2, p, false, false);
    steps := Chained(s, p, s1, acts, s2, last, s');
  }

  lemma PackPasses(b: Build, s: State, p: nat) returns (steps: seq<Step>, s': State)
    requires p < |s.ps| && s.ps[p].phase.Waiting? && s.ps[p].job == Pack(1, false) && s.path == Absent && Quiet(s)
    requires s.disk == Disk(WithoutSidecar(b), map[])
    ensures Runs(s, steps, s') && OnlyMoves(s, s', p) && s'.ps[p].job == s.ps[p].job
    ensures s'.ps[p].phase == Closed(Returned(RefOf(b)))
  {
    hide Runs, Works, WorkSteps, WithoutSidecar, Quiet, Enabled, AfterWork;
    var s1 := GetsIn(s, p);
    var acts, d := PackTakesOrphans(b);
    var s2 := WorksIsRun(s1, p, acts, d, Returning(RefOf(b)));
    NoSteps(s2);
    var last;
    last, s' := Then(s2, [], s2, Close(p));
    steps := Chained(s, p, s1, acts, s2, last, s');
  }

  function Before(b: Build): State {
    Untouched(WithSidecar(b), true, [Proc(Delete, Waiting, 0, 0, 0), Proc(Pack(1, false), Waiting, 0, 0, 0)])
  }

  lemma BeforeIsInitial(b: Build)
    ensures Initial(Before(b))
  {
  }

  /** From a sound set of another schema, one delete with two failing removals
      and one packing under schema 1: the packer returns the reference of that set. */
  lemma MixingHappens(b: Build) returns (steps: seq<Step>, s: State)
    requires b.schema != 1
    ensures Initial(Before(b)) && Runs(Before(b), steps, s)
    ensures |s.ps| == 2 && s.ps[1].job == Pack(1, false) && s.ps[1].phase == Closed(Returned(RefOf(b)))
  {
    hide Runs, Works, Initial, WithSidecar, WithoutSidecar;
    BeforeIsInitial(b);
    var first, mid, second;
    first, mid := DeletePasses(b, Before(b), 0);
    second, s := PackPasses(b, mid, 1);
    RunsThen(Before(b), first, mid, second, s);
    steps := first + second;
  }
}
