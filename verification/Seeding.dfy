/** Seeding a download directory from earlier revisions: workers hard-link
    candidates first and verify the linked inode after, while anything may
    happen to the sibling directories. */
module Seeding {
  import opened Bytes
  import opened Wrappers

  datatype LfsFile = LfsFile(path: string, sha256: string, size: int)

  /** An inode's mode and content, neither of which ever changes. */
  datatype Node = Node(mode: nat, data: seq<byte>)

  /** A path in the target directory, or in one of the sibling revisions. */
  datatype Name = Target(path: string) | Copy(sibling: nat, path: string)

  type Links = map<Name, nat>

  datatype Job = Job(files: seq<LfsFile>, siblings: nat, mode: nat, nodes: nat -> Node, sha: seq<byte> -> string)
  {
    function TargetOf(t: nat): Name requires t < |files| { Target(files[t].path) }

    function CopyOf(t: nat, k: nat): Name requires t < |files| { Copy(k, files[t].path) }

    /** The cheap part of the checks: full mode and size. */
    predicate Plausible(t: nat, ino: nat) requires t < |files| {
      nodes(ino).mode == mode && |nodes(ino).data| == files[t].size
    }

    predicate HashOk(t: nat, ino: nat) requires t < |files| {
      sha(nodes(ino).data) == Lower(files[t].sha256)
    }

    /** Exactly the wanted file: mode, size and content hash. */
    predicate Wanted(t: nat, ino: nat) requires t < |files| {
      Plausible(t, ino) && HashOk(t, ino)
    }
  }

  function Lower(s: string): (r: string)
    ensures |r| == |s|
  {
    seq(|s|, i requires 0 <= i < |s| => if 'A' <= s[i] <= 'Z' then (s[i] as int + 32) as char else s[i])
  }

  /** h is w with its capitals lowered. */
  predicate IsLowered(h: string, w: string) {
    && |h| == |w|
    && forall i | 0 <= i < |w| :: h[i] == if 'A' <= w[i] <= 'Z' then (w[i] as int + 32) as char else w[i]
  }

  lemma LowerLowers(h: string, w: string)
    ensures h == Lower(w) <==> IsLowered(h, w)
  {
  }

  /** The full mode, the size, and the hash of the listed file t. */
  predicate IsListed(job: Job, t: nat, ino: nat)
    requires t < |job.files|
  {
    && job.nodes(ino).mode == job.mode && |job.nodes(ino).data| == job.files[t].size
    && IsLowered(job.sha(job.nodes(ino).data), job.files[t].sha256)
  }

  lemma WantedIsListed(job: Job, t: nat, ino: nat)
    requires t < |job.files|
    ensures job.Wanted(t, ino) <==> IsListed(job, t, ino)
  {
    LowerLowers(job.sha(job.nodes(ino).data), job.files[t].sha256);
  }

  datatype Pc =
    | Claim
    | Look(t: nat)
    | Try(t: nat, k: nat)
    | MakeDir(t: nat, k: nat)
    | Link(t: nat, k: nat)
    | Check(t: nat, k: nat)
    | Read(t: nat, k: nat)
    | Undo(t: nat, k: nat)
    | Done

  /** Who linked a target that was not there before, from which sibling, and
      whether it is still being verified, verified, or left behind in error. */
  datatype Status = Pending | Good | Left

  datatype Entry = Entry(t: nat, k: nat, status: Status)

  /** owner and made record which worker claimed a task and which targets the
      seeding has added. */
  datatype Seed = Seed(links: Links, next: nat, ws: seq<Pc>, results: seq<Option<nat>>, failed: bool,
                       owner: map<nat, nat>, made: map<string, Entry>)

  predicate Holds(pc: Pc) { pc.Check? || pc.Read? || pc.Undo? }

  predicate Busy(pc: Pc) { !pc.Claim? && !pc.Done? }

  function Start(job: Job, links: Links, workers: nat): Seed {
    Seed(links, 0, seq(workers, _ => Claim), seq(|job.files|, _ => None), false, map[], map[])
  }

  // ---- Steps ----

  /** A worker's next file operation, which may fail; or somebody renaming an
      inode over a path of a sibling, or removing it. */
  datatype Step =
    | Work(w: nat, fails: bool)
    | Replace(sibling: nat, path: string, ino: nat)
    | Vanish(sibling: nat, path: string)

  predicate Enabled(job: Job, s: Seed, step: Step) {
    match step
    case Work(w, _) => w < |s.ws| && !s.ws[w].Done? && (Busy(s.ws[w]) ==> s.ws[w].t < |job.files|)
    case _ => true
  }

  function Goto(s: Seed, w: nat, pc: Pc): Seed
    requires w < |s.ws|
  {
    s.(ws := s.ws[w := pc])
  }

  function Claimed(job: Job, s: Seed, w: nat): Seed
    requires w < |s.ws|
  {
    if s.next >= |job.files| then Goto(s, w, Done).(next := s.next + 1)
    else Goto(s, w, Look(s.next)).(next := s.next + 1, owner := s.owner[s.next := w])
  }

  function Linked(job: Job, s: Seed, w: nat, t: nat, k: nat, fails: bool): Seed
    requires w < |s.ws| && t < |job.files|
  {
    if fails || job.CopyOf(t, k) !in s.links || job.TargetOf(t) in s.links then Goto(s, w, Try(t, k + 1))
    else Goto(s, w, Check(t, k))
         .(links := s.links[job.TargetOf(t) := s.links[job.CopyOf(t, k)]],
           made := s.made[job.files[t].path := Entry(t, k, Pending)])
  }

  function Verified(job: Job, s: Seed, w: nat, t: nat, k: nat): Seed
    requires w < |s.ws| && t < |job.files|
  {
    Goto(s, w, Claim)
    .(results := if t < |s.results| then s.results[t := Some(k)] else s.results,
      made := s.made[job.files[t].path := Entry(t, k, Good)])
  }

  function Undone(job: Job, s: Seed, w: nat, t: nat, k: nat, fails: bool): Seed
    requires w < |s.ws| && t < |job.files|
  {
    if fails then Goto(s, w, Done).(failed := true, made := s.made[job.files[t].path := Entry(t, k, Left)])
    else Goto(s, w, Try(t, k + 1)).(links := s.links - {job.TargetOf(t)}, made := s.made - {job.files[t].path})
  }

  function Worked(job: Job, s: Seed, w: nat, fails: bool): Seed
    requires Enabled(job, s, Work(w, fails))
  {
    match s.ws[w]
    case Claim => Claimed(job, s, w)
    case Look(t) => Goto(s, w, if job.TargetOf(t) in s.links && !fails then Claim else Try(t, 0))
    case Try(t, k) =>
      if k >= job.siblings then Goto(s, w, Claim)
      else if fails || job.CopyOf(t, k) !in s.links || !job.Plausible(t, s.links[job.CopyOf(t, k)]) then
        Goto(s, w, Try(t, k + 1))
      else Goto(s, w, MakeDir(t, k))
    case MakeDir(t, k) => Goto(s, w, if fails then Try(t, k + 1) else Link(t, k))
    case Link(t, k) => Linked(job, s, w, t, k, fails)
    case Check(t, k) =>
      var target := job.TargetOf(t);
      Goto(s, w, if !fails && target in s.links && job.Plausible(t, s.links[target]) then Read(t, k) else Undo(t, k))
    case Read(t, k) =>
      var target := job.TargetOf(t);
      if !fails && target in s.links && job.HashOk(t, s.links[target]) then Verified(job, s, w, t, k)
      else Goto(s, w, Undo(t, k))
    case Undo(t, k) => Undone(job, s, w, t, k, fails)
  }

  function Apply(job: Job, s: Seed, step: Step): Seed
    requires Enabled(job, s, step)
  {
    match step
    case Work(w, fails) => Worked(job, s, w, fails)
    case Replace(sibling, path, ino) => s.(links := s.links[Copy(sibling, path) := ino])
    case Vanish(sibling, path) => s.(links := s.links - {Copy(sibling, path)})
  }

  predicate Runs(job: Job, s: Seed, steps: seq<Step>, s': Seed)
    decreases |steps|
  {
    if steps == [] then s == s'
    else Enabled(job, s, steps[0]) && Runs(job, Apply(job, s, steps[0]), steps[1..], s')
  }

  predicate Resting(s: Seed) {
    forall w | 0 <= w < |s.ws| :: s.ws[w].Done?
  }

  // ---- Safety ----

  /** The targets that were there are untouched; the others are those made. */
  ghost predicate LinksOk(first: Links, s: Seed) {
    forall path: string ::
      if Target(path) in first then
        Target(path) in s.links && s.links[Target(path)] == first[Target(path)] && path !in s.made
      else Target(path) in s.links <==> path in s.made
  }

  predicate EntryOk(job: Job, s: Seed, path: string)
    requires path in s.made
  {
    var e := s.made[path];
    && e.t < |job.files| && job.files[e.t].path == path && e.k < job.siblings && Target(path) in s.links
    && match e.status
       case Pending =>
         e.t in s.owner && s.owner[e.t] < |s.ws| && Holds(s.ws[s.owner[e.t]]) && s.ws[s.owner[e.t]].t == e.t
       case Good => e.t < |s.results| && s.results[e.t] == Some(e.k) && job.Wanted(e.t, s.links[Target(path)])
       case Left => s.failed
  }

  predicate WorkerOk(job: Job, s: Seed, w: nat)
    requires w < |s.ws|
  {
    var pc := s.ws[w];
    Busy(pc) ==>
      && pc.t < |job.files| && pc.t < s.next && pc.t in s.owner && s.owner[pc.t] == w
      && pc.t < |s.results| && s.results[pc.t] == None
      && (!pc.Look? && !pc.Try? ==> pc.k < job.siblings)
      && (Holds(pc) ==> var path := job.files[pc.t].path;
                        && path in s.made && s.made[path] == Entry(pc.t, pc.k, Pending)
                        && Target(path) in s.links && (pc.Read? ==> job.Plausible(pc.t, s.links[Target(path)])))
  }

  predicate ResultOk(job: Job, s: Seed, t: nat)
    requires t < |job.files| && t < |s.results|
  {
    s.results[t].Some? ==>
      t < s.next && var path := job.files[t].path; path in s.made && s.made[path] == Entry(t, s.results[t].value, Good)
  }

  ghost predicate Inv(job: Job, first: Links, s: Seed) {
    && |s.results| == |job.files|
    && LinksOk(first, s)
    && (forall path | path in s.made :: EntryOk(job, s, path))
    && (forall w | 0 <= w < |s.ws| :: WorkerOk(job, s, w))
    && (forall t | 0 <= t < |job.files| :: ResultOk(job, s, t))
    && (forall t | t in s.owner :: t < s.next && s.owner[t] < |s.ws|)
  }

  lemma InvOfWorker(job: Job, first: Links, s: Seed, w: nat)
    requires Inv(job, first, s) && w < |s.ws|
    ensures WorkerOk(job, s, w)
  {
  }

  lemma StartOk(job: Job, links: Links, workers: nat)
    ensures Inv(job, links, Start(job, links, workers))
  {
  }

  /** A step that moves one worker, which holds no target before or after. */
  lemma MoveKeeps(job: Job, first: Links, s: Seed, w: nat, pc: Pc)
    requires Inv(job, first, s) && w < |s.ws| && Busy(s.ws[w]) && !Holds(s.ws[w])
    requires pc.Claim? || (pc.Try? && pc.t == s.ws[w].t)
             || ((pc.MakeDir? || pc.Link?) && pc.t == s.ws[w].t && pc.k < job.siblings)
    ensures Inv(job, first, Goto(s, w, pc))
  {
    var s' := Goto(s, w, pc);
    assert WorkerOk(job, s, w);
    forall v | 0 <= v < |s'.ws|
      ensures WorkerOk(job, s', v)
    {
      assert WorkerOk(job, s, v);
    }
    forall path | path in s'.made
      ensures EntryOk(job, s', path)
    {
      assert EntryOk(job, s, path);
    }
    forall t | 0 <= t < |job.files| ensures ResultOk(job, s', t) { assert ResultOk(job, s, t); }
  }

  lemma ClaimKeepsWorkers(job: Job, first: Links, s: Seed, w: nat)
    requires Inv(job, first, s) && w < |s.ws| && s.ws[w].Claim?
    ensures forall v | 0 <= v < |s.ws| :: WorkerOk(job, Claimed(job, s, w), v)
  {
    var s' := Claimed(job, s, w);
    if s.next < |job.files| { assert ResultOk(job, s, s.next); }
    forall v | 0 <= v < |s'.ws| ensures WorkerOk(job, s', v) { assert WorkerOk(job, s, v); }
  }

  lemma ClaimKeepsEntry(job: Job, s: Seed, w: nat, path: string)
    requires w < |s.ws| && s.ws[w].Claim? && path in s.made && EntryOk(job, s, path)
    requires forall t | t in s.owner :: t < s.next
    ensures EntryOk(job, Claimed(job, s, w), path)
  {
  }

  lemma LinksOnly(first: Links, s: Seed, s': Seed)
    requires LinksOk(first, s) && s'.links == s.links && s'.made == s.made
    ensures LinksOk(first, s')
  {
  }

  lemma ClaimKeeps(job: Job, first: Links, s: Seed, w: nat)
    requires Inv(job, first, s) && w < |s.ws| && s.ws[w].Claim?
    ensures Inv(job, first, Claimed(job, s, w))
  {
    hide WorkerOk, EntryOk, LinksOk;
    var s' := Claimed(job, s, w);
    ClaimKeepsWorkers(job, first, s, w);
    forall path | path in s'.made ensures EntryOk(job, s', path) { ClaimKeepsEntry(job, s, w, path); }
    LinksOnly(first, s, s');
    forall t | 0 <= t < |job.files| ensures ResultOk(job, s', t) { assert ResultOk(job, s, t); }
  }

  /** s' differs from s only in worker w, its task t and the target of that task. */
  ghost predicate Around(job: Job, s: Seed, s': Seed, w: nat, t: nat)
    requires t < |job.files|
  {
    && |s'.ws| == |s.ws| && (forall v | 0 <= v < |s.ws| && v != w :: s'.ws[v] == s.ws[v])
    && s'.next == s.next && s'.owner == s.owner && (s.failed ==> s'.failed)
    && |s'.results| == |s.results| && (forall u | 0 <= u < |s.results| && u != t :: s'.results[u] == s.results[u])
    && (forall path | path != job.files[t].path ::
          && (path in s'.made <==> path in s.made) && (path in s.made ==> s'.made[path] == s.made[path])
          && (Target(path) in s'.links <==> Target(path) in s.links)
          && (Target(path) in s.links ==> s'.links[Target(path)] == s.links[Target(path)]))
  }

  lemma AroundKeeps(job: Job, first: Links, s: Seed, s': Seed, w: nat, t: nat)
    requires Inv(job, first, s) && w < |s.ws| && Busy(s.ws[w]) && s.ws[w].t == t < |job.files|
    requires Around(job, s, s', w, t)
    requires job.files[t].path in s.made ==> s.made[job.files[t].path].t == t
    ensures forall v | 0 <= v < |s'.ws| && v != w :: WorkerOk(job, s', v)
    ensures forall path | path in s'.made && path != job.files[t].path :: EntryOk(job, s', path)
    ensures forall u | 0 <= u < |job.files| && u != t :: ResultOk(job, s', u)
  {
    assert WorkerOk(job, s, w);
    forall v | 0 <= v < |s'.ws| && v != w ensures WorkerOk(job, s', v) { assert WorkerOk(job, s, v); }
    forall path | path in s'.made && path != job.files[t].path
      ensures EntryOk(job, s', path)
    {
      assert EntryOk(job, s, path);
    }
    forall u | 0 <= u < |job.files| && u != t ensures ResultOk(job, s', u) { assert ResultOk(job, s, u); }
  }

  lemma InvOf(job: Job, first: Links, s: Seed, w: nat)
    requires Inv(job, first, s) && w < |s.ws| && Busy(s.ws[w])
    ensures WorkerOk(job, s, w) && |s.results| == |job.files| && ResultOk(job, s, s.ws[w].t)
    ensures LinksOk(first, s)
    ensures var path := job.files[s.ws[w].t].path; path in s.made ==> EntryOk(job, s, path)
    ensures s.ws[w].t in s.owner && s.owner[s.ws[w].t] == w
  {
    assert WorkerOk(job, s, w);
  }

  /** The invariant holds after the step if it holds of the worker, its task and
      the target of that task. */
  lemma AroundInv(job: Job, first: Links, s: Seed, s': Seed, w: nat, t: nat)
    requires Inv(job, first, s) && w < |s.ws| && Busy(s.ws[w]) && s.ws[w].t == t < |job.files|
    requires Around(job, s, s', w, t) && LinksOk(first, s') && WorkerOk(job, s', w)
    requires var path := job.files[t].path;
             (path in s.made ==> s.made[path].t == t) && (path in s'.made ==> EntryOk(job, s', path))
    requires t < |s'.results| && ResultOk(job, s', t)
    ensures Inv(job, first, s')
  {
    hide LinksOk, WorkerOk, EntryOk, ResultOk;
    AroundKeeps(job, first, s, s', w, t);
  }

  /** A new link never meets an old name: nobody else can be holding it. */
  lemma LinkKeeps(job: Job, first: Links, s: Seed, w: nat, fails: bool)
    requires Inv(job, first, s) && w < |s.ws| && s.ws[w].Link? && s.ws[w].t < |job.files|
    ensures Inv(job, first, Linked(job, s, w, s.ws[w].t, s.ws[w].k, fails))
  {
    hide Inv;
    var t, k := s.ws[w].t, s.ws[w].k;
    var s' := Linked(job, s, w, t, k, fails);
    InvOf(job, first, s, w);
    if s'.ws[w].Try? {
      MoveKeeps(job, first, s, w, Try(t, k + 1));
    } else {
      AroundInv(job, first, s, s', w, t);
    }
  }

  /** The checks: all of them look at the one inode the target names. */
  lemma CheckKeeps(job: Job, first: Links, s: Seed, w: nat, pc: Pc)
    requires Inv(job, first, s) && w < |s.ws| && Holds(s.ws[w])
    requires pc == Undo(s.ws[w].t, s.ws[w].k) || pc == Read(s.ws[w].t, s.ws[w].k)
    requires pc.Read? && s.ws[w].t < |job.files| && job.TargetOf(s.ws[w].t) in s.links ==>
               job.Plausible(s.ws[w].t, s.links[job.TargetOf(s.ws[w].t)])
    ensures Inv(job, first, Goto(s, w, pc))
  {
    var s' := Goto(s, w, pc);
    assert WorkerOk(job, s, w);
    forall v | 0 <= v < |s'.ws| ensures WorkerOk(job, s', v) { assert WorkerOk(job, s, v); }
    forall path | path in s'.made ensures EntryOk(job, s', path) { assert EntryOk(job, s, path); }
    forall t | 0 <= t < |job.files| ensures ResultOk(job, s', t) { assert ResultOk(job, s, t); }
  }

  lemma VerifiedKeeps(job: Job, first: Links, s: Seed, w: nat)
    requires Inv(job, first, s) && w < |s.ws| && s.ws[w].Read? && s.ws[w].t < |job.files|
    requires job.TargetOf(s.ws[w].t) in s.links && job.HashOk(s.ws[w].t, s.links[job.TargetOf(s.ws[w].t)])
    ensures Inv(job, first, Verified(job, s, w, s.ws[w].t, s.ws[w].k))
  {
    hide Inv;
    var t, k := s.ws[w].t, s.ws[w].k;
    InvOf(job, first, s, w);
    AroundInv(job, first, s, Verified(job, s, w, t, k), w, t);
  }

  /** What is undone is the undoing worker's own link, never a verified one. */
  lemma UndoKeeps(job: Job, first: Links, s: Seed, w: nat, fails: bool)
    requires Inv(job, first, s) && w < |s.ws| && s.ws[w].Undo? && s.ws[w].t < |job.files|
    ensures Inv(job, first, Undone(job, s, w, s.ws[w].t, s.ws[w].k, fails))
  {
    hide Inv;
    var t, k := s.ws[w].t, s.ws[w].k;
    InvOf(job, first, s, w);
    AroundInv(job, first, s, Undone(job, s, w, t, k, fails), w, t);
  }

  lemma OutsideKeeps(job: Job, first: Links, s: Seed, step: Step)
    requires Inv(job, first, s) && !step.Work?
    ensures Inv(job, first, Apply(job, s, step))
  {
    var s' := Apply(job, s, step);
    forall v | 0 <= v < |s'.ws| ensures WorkerOk(job, s', v) { assert WorkerOk(job, s, v); }
    forall path | path in s'.made ensures EntryOk(job, s', path) { assert EntryOk(job, s, path); }
    forall u | 0 <= u < |job.files| ensures ResultOk(job, s', u) { assert ResultOk(job, s, u); }
  }

  lemma StepKeeps(job: Job, first: Links, s: Seed, step: Step)
    requires Inv(job, first, s) && Enabled(job, s, step)
    ensures Inv(job, first, Apply(job, s, step))
  {
    hide Inv;
    if !step.Work? {
      OutsideKeeps(job, first, s, step);
    } else {
      var w, fails, pc := step.w, step.fails, s.ws[step.w];
      var next := Worked(job, s, w, fails);
      InvOfWorker(job, first, s, w);
      match pc
      case Claim => ClaimKeeps(job, first, s, w);
      case Link(t, k) => LinkKeeps(job, first, s, w, fails);
      case Check(t, k) => CheckKeeps(job, first, s, w, next.ws[w]);
      case Read(t, k) =>
        if next.ws[w].Undo? { CheckKeeps(job, first, s, w, next.ws[w]); } else { VerifiedKeeps(job, first, s, w); }
      case Undo(t, k) => UndoKeeps(job, first, s, w, fails);
      case Look(_) => MoveKeeps(job, first, s, w, next.ws[w]);
      case Try(_, _) => MoveKeeps(job, first, s, w, next.ws[w]);
      case MakeDir(_, _) => MoveKeeps(job, first, s, w, next.ws[w]);
      case Done =>
    }
  }

  lemma {:induction false} RunKeeps(job: Job, first: Links, s: Seed, steps: seq<Step>, s': Seed)
    requires Inv(job, first, s) && Runs(job, s, steps, s')
    ensures Inv(job, first, s')
    decreases |steps|
  {
    if steps != [] {
      StepKeeps(job, first, s, steps[0]);
      RunKeeps(job, first, Apply(job, s, steps[0]), steps[1..], s');
    }
  }

  /** Whatever the workers' interleaving, whatever fails and whatever happens to
      the siblings: targets that were there are untouched, and once all workers
      have returned without error, every target that was added names an inode
      with the probed mode and the wanted size and hash of a listed file of that
      path, linked from the sibling the result names. */
  lemma SeedingIsSafe(job: Job, links: Links, workers: nat, steps: seq<Step>, s: Seed, path: string)
    requires Runs(job, Start(job, links, workers), steps, s)
    ensures Target(path) in links ==> Target(path) in s.links && s.links[Target(path)] == links[Target(path)]
    ensures |s.results| == |job.files|
    ensures Resting(s) && !s.failed && Target(path) in s.links && Target(path) !in links ==>
              exists t | 0 <= t < |job.files| ::
                && job.files[t].path == path && s.results[t].Some? && job.Wanted(t, s.links[Target(path)])
                && var node := job.nodes(s.links[Target(path)]);
                   && node.mode == job.mode && |node.data| == job.files[t].size
                   && IsLowered(job.sha(node.data), job.files[t].sha256)
    ensures forall t | 0 <= t < |job.files| && s.results[t].Some? ::
              && Target(job.files[t].path) !in links && Target(job.files[t].path) in s.links
              && job.Wanted(t, s.links[Target(job.files[t].path)])
              && var node := job.nodes(s.links[Target(job.files[t].path)]);
                 && node.mode == job.mode && |node.data| == job.files[t].size
                 && IsLowered(job.sha(node.data), job.files[t].sha256)
  {
    StartOk(job, links, workers);
    RunKeeps(job, links, Start(job, links, workers), steps, s);
    if Resting(s) && !s.failed && path in s.made {
      assert EntryOk(job, s, path);
      assert job.files[s.made[path].t].path == path;
      WantedIsListed(job, s.made[path].t, s.links[Target(path)]);
    }
    forall t | 0 <= t < |job.files| && s.results[t].Some?
      ensures job.TargetOf(t) !in links && job.TargetOf(t) in s.links && job.Wanted(t, s.links[job.TargetOf(t)])
      ensures IsListed(job, t, s.links[job.TargetOf(t)])
    {
      assert ResultOk(job, s, t);
      assert EntryOk(job, s, job.files[t].path);
      WantedIsListed(job, t, s.links[job.TargetOf(t)]);
    }
  }

  /** No worker touches a sibling: a path there changes only by the steps of
      others. */
  lemma SiblingsAreUntouched(job: Job, s: Seed, w: nat, fails: bool, sibling: nat, path: string)
    requires Enabled(job, s, Work(w, fails))
    ensures var after := Worked(job, s, w, fails).links;
            && (Copy(sibling, path) in after <==> Copy(sibling, path) in s.links)
            && (Copy(sibling, path) in after ==> after[Copy(sibling, path)] == s.links[Copy(sibling, path)])
  {
    hide Job.Plausible, Job.HashOk, Busy;
    match s.ws[w]
    case Link(_, _) =>
    case Undo(_, _) =>
    case _ =>
  }

  /** An operation that fails has no effect on any link and gets nothing recorded
      as linked; a check that fails leads to the removal, and a removal that fails
      is what ends the seeding with an error. */
  lemma FailuresChangeNothing(job: Job, s: Seed, w: nat)
    requires Enabled(job, s, Work(w, true)) && Busy(s.ws[w])
    ensures var after := Worked(job, s, w, true);
            && after.links == s.links && after.results == s.results
            && (after.failed <==> s.failed || s.ws[w].Undo?)
            && (s.ws[w].Check? || s.ws[w].Read? ==> after.ws == s.ws[w := Undo(s.ws[w].t, s.ws[w].k)])
            && (s.ws[w].Undo? ==> after.ws == s.ws[w := Done])
            && (s.ws[w].Link? || s.ws[w].MakeDir? ==> after.ws == s.ws[w := Try(s.ws[w].t, s.ws[w].k + 1)])
            && (s.ws[w].Look? ==> after.ws == s.ws[w := Try(s.ws[w].t, 0)])
            && (s.ws[w].Try? && s.ws[w].k < job.siblings ==> after.ws == s.ws[w := Try(s.ws[w].t, s.ws[w].k + 1)])
  {
    hide Job.Plausible, Job.HashOk;
    match s.ws[w]
    case Undo(_, _) =>
    case Link(_, _) =>
    case Read(_, _) =>
    case _ =>
  }

  // ---- Every schedule comes to rest ----

  /** How many more steps a worker can take before it claims again. */
  function Rank(job: Job, pc: Pc): nat {
    match pc
    case Done => 0
    case Claim => 1
    case Look(_) => FullRank(job)
    case Try(_, k) => 2 + 6 * Untried(job, k)
    case MakeDir(_, k) => 1 + 6 * Untried(job, k)
    case Link(_, k) => 6 * Untried(job, k)
    case Check(_, k) => Less(6 * Untried(job, k), 1)
    case Read(_, k) => Less(6 * Untried(job, k), 2)
    case Undo(_, k) => Less(6 * Untried(job, k), 3)
  }

  function FullRank(job: Job): nat { 3 + 6 * job.siblings }

  function Untried(job: Job, k: nat): nat { Less(job.siblings, k) }

  function Less(a: nat, b: nat): nat { if a < b then 0 else a - b }

  function RankSum(job: Job, ws: seq<Pc>): nat {
    if ws == [] then 0 else Rank(job, ws[0]) + RankSum(job, ws[1..])
  }

  lemma {:induction false} RankSumUpdate(job: Job, ws: seq<Pc>, w: nat, pc: Pc)
    requires w < |ws|
    ensures RankSum(job, ws[w := pc]) == RankSum(job, ws) - Rank(job, ws[w]) + Rank(job, pc)
  {
    if w == 0 {
      assert ws[w := pc][1..] == ws[1..];
    } else {
      RankSumUpdate(job, ws[1..], w - 1, pc);
      assert ws[w := pc][1..] == ws[1..][w - 1 := pc];
    }
  }

  /** How many more steps the workers can take together. */
  function Measure(job: Job, s: Seed): nat {
    Less(|job.files|, s.next) * FullRank(job) + RankSum(job, s.ws)
  }

  /** What can come after what, for a worker with a task. */
  predicate Follows(job: Job, pc: Pc, next: Pc) {
    match pc
    case Look(t) => next.Claim? || next == Try(t, 0)
    case Try(t, k) => next.Claim? || (k < job.siblings && (next == Try(t, k + 1) || next == MakeDir(t, k)))
    case MakeDir(t, k) => next == Try(t, k + 1) || next == Link(t, k)
    case Link(t, k) => next == Try(t, k + 1) || next == Check(t, k)
    case Check(t, k) => next == Read(t, k) || next == Undo(t, k)
    case Read(t, k) => next.Claim? || next == Undo(t, k)
    case Undo(t, k) => next.Done? || next == Try(t, k + 1)
    case _ => false
  }

  /** The worker has gone on to next, and claimed nothing. */
  predicate GoesTo(job: Job, s: Seed, w: nat, s': Seed, next: Pc) {
    w < |s.ws| && Follows(job, s.ws[w], next) && s'.ws == s.ws[w := next] && s'.next == s.next
  }

  lemma LookFollows(job: Job, s: Seed, w: nat, fails: bool) returns (next: Pc)
    requires Enabled(job, s, Work(w, fails)) && s.ws[w].Look?
    ensures GoesTo(job, s, w, Worked(job, s, w, fails), next)
  {
    next := Worked(job, s, w, fails).ws[w];
  }

  lemma TryFollows(job: Job, s: Seed, w: nat, fails: bool) returns (next: Pc)
    requires Enabled(job, s, Work(w, fails)) && s.ws[w].Try?
    ensures GoesTo(job, s, w, Worked(job, s, w, fails), next)
  {
    hide Job.Plausible;
    next := Worked(job, s, w, fails).ws[w];
  }

  lemma MakeDirFollows(job: Job, s: Seed, w: nat, fails: bool) returns (next: Pc)
    requires Enabled(job, s, Work(w, fails)) && s.ws[w].MakeDir?
    ensures GoesTo(job, s, w, Worked(job, s, w, fails), next)
  {
    next := Worked(job, s, w, fails).ws[w];
  }

  lemma LinkFollows(job: Job, s: Seed, w: nat, fails: bool) returns (next: Pc)
    requires Enabled(job, s, Work(w, fails)) && s.ws[w].Link?
    ensures GoesTo(job, s, w, Worked(job, s, w, fails), next)
  {
    next := Worked(job, s, w, fails).ws[w];
  }

  lemma HeldFollows(job: Job, s: Seed, w: nat, fails: bool) returns (next: Pc)
    requires Enabled(job, s, Work(w, fails)) && Holds(s.ws[w])
    ensures GoesTo(job, s, w, Worked(job, s, w, fails), next)
  {
    hide Job.Plausible, Job.HashOk;
    next := Worked(job, s, w, fails).ws[w];
  }

  lemma WorkFollows(job: Job, s: Seed, w: nat, fails: bool) returns (next: Pc)
    requires Enabled(job, s, Work(w, fails)) && Busy(s.ws[w])
    ensures Follows(job, s.ws[w], next)
    ensures Worked(job, s, w, fails).ws == s.ws[w := next] && Worked(job, s, w, fails).next == s.next
  {
    hide Job.Plausible, Job.HashOk, Follows;
    match s.ws[w]
    case Look(t) => next := LookFollows(job, s, w, fails);
    case Try(t, k) => next := TryFollows(job, s, w, fails);
    case MakeDir(t, k) => next := MakeDirFollows(job, s, w, fails);
    case Link(t, k) => next := LinkFollows(job, s, w, fails);
    case _ => next := HeldFollows(job, s, w, fails);
  }

  lemma RankDescends(job: Job, pc: Pc, next: Pc)
    requires Follows(job, pc, next) && (!pc.Look? && !pc.Try? ==> pc.k < job.siblings)
    ensures Rank(job, next) < Rank(job, pc)
  {
  }

  lemma BusyDescends(job: Job, first: Links, s: Seed, w: nat, fails: bool)
    requires Inv(job, first, s) && Enabled(job, s, Work(w, fails)) && Busy(s.ws[w])
    ensures Measure(job, Worked(job, s, w, fails)) < Measure(job, s)
  {
    hide Inv, Follows, Worked, Rank, RankSum, FullRank;
    InvOfWorker(job, first, s, w);
    var next := WorkFollows(job, s, w, fails);
    RankDescends(job, s.ws[w], next);
    RankSumUpdate(job, s.ws, w, next);
  }

  lemma OneFewer(n: nat, c: nat)
    requires n > 0
    ensures n * c == (n - 1) * c + c
  {
  }

  lemma ClaimDescends(job: Job, s: Seed, w: nat)
    requires w < |s.ws| && s.ws[w].Claim?
    ensures Measure(job, Claimed(job, s, w)) < Measure(job, s)
  {
    hide RankSum, FullRank;
    var next := Claimed(job, s, w).ws[w];
    RankSumUpdate(job, s.ws, w, next);
    var left := Less(|job.files|, s.next);
    if left > 0 { OneFewer(left, FullRank(job)); }
  }

  /** Every step of a worker, failing or not, brings the end nearer; nobody
      else's puts it off. */
  lemma StepDescends(job: Job, first: Links, s: Seed, step: Step)
    requires Inv(job, first, s) && Enabled(job, s, step)
    ensures if step.Work? then Measure(job, Apply(job, s, step)) < Measure(job, s)
            else Measure(job, Apply(job, s, step)) == Measure(job, s)
  {
    hide Inv, RankSum, FullRank, Claimed;
    if step.Work? {
      if s.ws[step.w].Claim? {
        ClaimDescends(job, s, step.w);
      } else {
        BusyDescends(job, first, s, step.w, step.fails);
      }
    }
  }

  function WorkCount(steps: seq<Step>): nat {
    if steps == [] then 0 else (if steps[0].Work? then 1 else 0) + WorkCount(steps[1..])
  }

  lemma {:induction false} RunDescends(job: Job, first: Links, s: Seed, steps: seq<Step>, s': Seed)
    requires Inv(job, first, s) && Runs(job, s, steps, s')
    ensures WorkCount(steps) + Measure(job, s') <= Measure(job, s)
    decreases |steps|
  {
    if steps != [] {
      StepDescends(job, first, s, steps[0]);
      StepKeeps(job, first, s, steps[0]);
      RunDescends(job, first, Apply(job, s, steps[0]), steps[1..], s');
    }
  }

  lemma {:induction false} StartRanks(job: Job, workers: nat)
    ensures RankSum(job, seq(workers, _ => Claim)) == workers
  {
    if workers > 0 {
      var ws: seq<Pc>, fewer: seq<Pc> := seq(workers, _ => Claim), seq(workers - 1, _ => Claim);
      assert ws[1..] == fewer;
      StartRanks(job, workers - 1);
    }
  }

  /** Every schedule ends: the workers of a run take a bounded number of steps,
      whatever fails and whatever others do in between, and as long as one of
      them has not returned it can take another. */
  lemma EveryScheduleEnds(job: Job, links: Links, workers: nat, steps: seq<Step>, s: Seed)
    requires Runs(job, Start(job, links, workers), steps, s)
    ensures WorkCount(steps) <= |job.files| * (3 + 6 * job.siblings) + workers
    ensures Resting(s) <==> forall w, fails :: !Enabled(job, s, Work(w, fails))
  {
    StartOk(job, links, workers);
    RunDescends(job, links, Start(job, links, workers), steps, s);
    StartRanks(job, workers);
    RunKeeps(job, links, Start(job, links, workers), steps, s);
    if !Resting(s) {
      var w :| 0 <= w < |s.ws| && !s.ws[w].Done?;
      assert WorkerOk(job, s, w);
      assert Enabled(job, s, Work(w, false));
    }
  }
}
