/** What a packer or a deleter does while it holds the revision's lock, one
    filesystem operation at a time. */
module LockedSteps {
  import opened Store

  datatype Job = Pack(want: pos, encrypt: bool) | Delete

  const STATS: seq<Suffix> := [Mpk, Info, Emwp, EmwpInfo]

  const REMOVALS: seq<Suffix> :=
    [EmwpInfo, Emwp, Info, Mpk, Schema, MpkTmp, InfoTmp, EmwpTmp, EmwpInfoTmp, EmwpVerifyTmp]

  /** Where the holder stands. Stage, Fill and Move are the three operations of
      an atomic replacement of one file, with what follows it. */
  datatype Cs =
    | Check(k: nat, seen: set<Suffix>)
    | Backfill
    | NewImage
    | FillImage(t: nat)
    | PublishMpk(t: nat, b: Build)
    | Stage(x: Suffix, doc: Doc, next: Cs)
    | Fill(x: Suffix, doc: Doc, t: nat, next: Cs)
    | Move(x: Suffix, t: nat, next: Cs)
    | ReadInfo
    | HaveRef(b: Build)
    | NewCipher(b: Build)
    | FillCipher(t: nat, b: Build)
    | VerifyEmwp(b: Build)
    | Verifying(t: nat, b: Build)
    | Returning(doc: Doc)
    | Remove(i: nat, ok: bool)
    | Sweep(left: set<nat>, ok: bool)
    | Leave(ok: bool)

  /** What is not determined: the random part of a new temporary, the image
      built, the next leftover and whether it could be removed, and whether an
      operation was left out or, in a delete, failed and was passed over. */
  datatype Act = Go | Named(t: nat) | Made(b: Build) | Picked(t: nat, gone: bool) | Decline

  function Begin(job: Job): Cs {
    if job.Pack? then Check(0, {}) else Remove(0, true)
  }

  /** The temporaries the holder has made and not yet moved or removed. */
  function Own(cs: Cs): set<nat> {
    match cs
    case FillImage(t) => {t}
    case PublishMpk(t, _) => {t}
    case Stage(_, _, next) => Own(next)
    case Fill(_, _, t, next) => {t} + Own(next)
    case Move(_, t, next) => {t} + Own(next)
    case FillCipher(t, _) => {t}
    case Verifying(t, _) => {t}
    case _ => {}
  }

  /** The file operations; the ones that fail end the run elsewhere. */
  predicate Enabled(job: Job, d: Disk, cs: Cs, act: Act) {
    match cs
    case Check(k, seen) => act.Go? && job.Pack? && (k >= |STATS| ==> Judge(seen, Sidecar(d.files), job.want) != Refuse)
    case Backfill => act.Go? && job.Pack? && Sidecar(d.files) >= 1
    case NewImage => act.Named? && act.t !in d.staged
    case FillImage(t) => act.Made? && job.Pack? && act.b.schema == job.want && t in d.staged
    case PublishMpk(t, b) => act.Go? && t in d.staged
    case Stage(x, doc, next) => act.Named? && act.t !in d.staged
    case Fill(x, doc, t, next) => act.Go? && t in d.staged
    case Move(x, t, next) => act.Go? && t in d.staged
    case ReadInfo => act.Go? && Info in d.files && d.files[Info].RefOf?
    case HaveRef(b) => act.Go? && job.Pack?
    case NewCipher(b) => act.Named? && act.t !in d.staged && Mpk in d.files
    case FillCipher(t, b) => act.Go? && t in d.staged && Mpk in d.files && d.files[Mpk].Image?
    case VerifyEmwp(b) => act.Decline? || (act.Named? && act.t !in d.staged)
    case Verifying(t, b) => act.Go?
    case Returning(_) => false
    case Remove(i, ok) => act.Go? || act.Decline?
    case Sweep(left, ok) => if left == {} then act.Go? || act.Decline? else act.Picked? && act.t in left
    case Leave(_) => false
  }

  /** Recording the reference of the encrypted artifact, and what follows. */
  function Record(b: Build): Cs {
    Stage(EmwpInfo, CipherRef(b), VerifyEmwp(b))
  }

  function NextCs(job: Job, d: Disk, cs: Cs, act: Act): Cs
    requires Enabled(job, d, cs, act)
  {
    match cs
    case Check(k, seen) =>
      if k < |STATS| then Check(k + 1, if STATS[k] in d.files then seen + {STATS[k]} else seen)
      else if Judge(seen, Sidecar(d.files), job.want) == Reuse then Backfill
      else NewImage
    case Backfill => if Schema in d.files then ReadInfo else Stage(Schema, SchemaId(job.want), ReadInfo)
    case NewImage => FillImage(act.t)
    case FillImage(t) => Stage(Schema, SchemaId(job.want), PublishMpk(t, act.b))
    case PublishMpk(t, b) => Stage(Info, RefOf(b), ReadInfo)
    case Stage(x, doc, next) => Fill(x, doc, act.t, next)
    case Fill(x, doc, t, next) => Move(x, t, next)
    case Move(x, t, next) => next
    case ReadInfo => HaveRef(d.files[Info].b)
    case HaveRef(b) =>
      if !job.encrypt then Returning(RefOf(b)) else if Emwp in d.files then Record(b) else NewCipher(b)
    case NewCipher(b) => FillCipher(act.t, b)
    case FillCipher(t, b) => Move(Emwp, t, Record(b))
    case VerifyEmwp(b) => if act.Decline? then Returning(CipherRef(b)) else Verifying(act.t, b)
    case Verifying(t, b) => Returning(CipherRef(b))
    case Remove(i, ok) =>
      if i < |REMOVALS| then Remove(i + 1, ok && act.Go?)
      else if act.Go? then Sweep(d.staged.Keys, ok)
      else Leave(false)
    case Sweep(left, ok) =>
      if left == {} then Leave(ok && act.Go?) else Sweep(left - {act.t}, ok && act.gone)
  }

  function NextFiles(job: Job, d: Disk, cs: Cs, act: Act): Files
    requires Enabled(job, d, cs, act)
  {
    match cs
    case PublishMpk(t, b) => d.files[Mpk := d.staged[t]]
    case Move(x, t, next) => d.files[x := d.staged[t]]
    case Remove(i, ok) => if i < |REMOVALS| && act.Go? then d.files - {REMOVALS[i]} else d.files
    case _ => d.files
  }

  function NextStaged(job: Job, d: Disk, cs: Cs, act: Act): map<nat, Doc>
    requires Enabled(job, d, cs, act)
  {
    match cs
    case NewImage => d.staged[act.t := Junk]
    case FillImage(t) => d.staged[t := Image(act.b)]
    case PublishMpk(t, b) => d.staged - {t}
    case Stage(x, doc, next) => d.staged[act.t := Junk]
    case Fill(x, doc, t, next) => d.staged[t := doc]
    case Move(x, t, next) => d.staged - {t}
    case NewCipher(b) => d.staged[act.t := Junk]
    case FillCipher(t, b) => d.staged[t := Cipher(d.files[Mpk].b)]
    case VerifyEmwp(b) => if act.Named? then d.staged[act.t := Junk] else d.staged
    case Verifying(t, b) => d.staged - {t}
    case Sweep(left, ok) => if left != {} && act.gone then d.staged - {act.t} else d.staged
    case _ => d.staged
  }

  function NextDisk(job: Job, d: Disk, cs: Cs, act: Act): Disk
    requires Enabled(job, d, cs, act)
  {
    Disk(NextFiles(job, d, cs, act), NextStaged(job, d, cs, act))
  }

  // ---- What the holder knows ----

  /** A complete set with the wanted sidecar, whose reference names build b. */
  predicate Complete(job: Job, f: Files, b: Build) {
    job.Pack? && Mpk in f && Info in f && f[Info] == RefOf(b) && Sidecar(f) == job.want
  }

  predicate Encrypted(f: Files, b: Build) {
    Emwp in f && EmwpInfo in f && f[EmwpInfo] == CipherRef(b)
  }

  /** Putting doc at x replaces no artifact by another, and spoils nothing. */
  predicate Lands(f: Files, x: Suffix, doc: Doc) {
    var g := f[x := doc];
    && (if x == Schema then NoArtifact(f) || (x !in f && Sidecar(f) == Sidecar(g)) else x in f ==> f[x] == doc)
    && OneBuild(g)
    && (SidecarOk(f) ==> SidecarOk(g))
    && (Chain(f) ==> Chain(g))
  }

  predicate SeenUpTo(f: Files, k: nat, seen: set<Suffix>) {
    seen <= ARTIFACTS && forall j | 0 <= j < |STATS| :: STATS[j] in seen <==> j < k && STATS[j] in f
  }

  /** The state is one from which the rest of the operations are sound. */
  predicate Ready(job: Job, d: Disk, cs: Cs)
    decreases cs
  {
    var f := d.files;
    match cs
    case Check(k, seen) =>
      job.Pack? && k <= |STATS| && SeenUpTo(f, k, seen)
    case Backfill => job.Pack? && Mpk in f && Info in f && Sidecar(f) == job.want
    case NewImage => job.Pack? && NoArtifact(f)
    case FillImage(t) => job.Pack? && NoArtifact(f)
    case PublishMpk(t, b) =>
      && job.Pack? && NoArtifact(f) && b.schema == job.want
      && Schema in f && f[Schema] == SchemaId(job.want)
      && t in d.staged && d.staged[t] == Image(b)
    case Stage(x, doc, next) => job.Pack? && Lands(f, x, doc) && Ready(job, Disk(f[x := doc], d.staged), next)
    case Fill(x, doc, t, next) =>
      job.Pack? && t !in Own(next) && Lands(f, x, doc) && Ready(job, Disk(f[x := doc], d.staged), next)
    case Move(x, t, next) =>
      && job.Pack? && t !in Own(next) && t in d.staged && Lands(f, x, d.staged[t])
      && Ready(job, Disk(f[x := d.staged[t]], d.staged), next)
    case ReadInfo => job.Pack? && Mpk in f && Info in f && Sidecar(f) == job.want
    case HaveRef(b) => Complete(job, f, b)
    case NewCipher(b) => job.Pack? && job.encrypt && Complete(job, f, b) && Emwp !in f
    case FillCipher(t, b) => job.Pack? && job.encrypt && Complete(job, f, b) && Emwp !in f
    case VerifyEmwp(b) => job.Pack? && job.encrypt && Complete(job, f, b) && Encrypted(f, b)
    case Verifying(t, b) => job.Pack? && job.encrypt && Complete(job, f, b) && Encrypted(f, b)
    case Returning(doc) => Answers(job, f, doc)
    case Remove(i, ok) => job.Delete? && i <= |REMOVALS| && (ok ==> forall j | 0 <= j < i :: REMOVALS[j] !in f)
    case Sweep(left, ok) => job.Delete? && (ok ==> f == map[] && d.staged.Keys <= left)
    case Leave(ok) => job.Delete? && (ok ==> f == map[] && d.staged == map[])
  }

  /** The answer of a packer is the reference of the build that is published, and
      of its encryption if that was asked for. */
  predicate Answers(job: Job, f: Files, doc: Doc) {
    && job.Pack?
    && (if job.encrypt then doc.CipherRef? && Complete(job, f, doc.b) && Encrypted(f, doc.b)
        else doc.RefOf? && Complete(job, f, doc.b))
  }

  predicate CsInv(job: Job, d: Disk, cs: Cs) {
    OneBuild(d.files) && Ready(job, d, cs) && Own(cs) <= d.staged.Keys
  }

  /** What is ready stays so when other temporaries come and go. */
  lemma {:induction false} ReadyFrame(job: Job, f: Files, s: map<nat, Doc>, s': map<nat, Doc>, cs: Cs)
    requires job.Pack? && Ready(job, Disk(f, s), cs)
    requires forall t | t in Own(cs) :: t in s && t in s' && s[t] == s'[t]
    ensures Ready(job, Disk(f, s'), cs)
    decreases cs
  {
    match cs
    case Stage(x, doc, next) => ReadyFrame(job, f[x := doc], s, s', next);
    case Fill(x, doc, t, next) => ReadyFrame(job, f[x := doc], s, s', next);
    case Move(x, t, next) => ReadyFrame(job, f[x := s[t]], s, s', next);
    case _ =>
  }

  /** A delete passes over a removal that failed. */
  predicate PassesOver(cs: Cs, act: Act) {
    cs.Remove? && cs.i < |REMOVALS| && act.Decline?
  }

  /** A delete removes the sidecar from under a complete set whose schema is not
      the one that a missing sidecar means. */
  predicate Orphans(d: Disk, cs: Cs, act: Act) {
    && cs.Remove? && cs.i < |REMOVALS| && REMOVALS[cs.i] == Schema && act.Go?
    && Mpk in d.files && Info in d.files && d.files[Mpk].Image? && d.files[Mpk].b.schema != 1
  }

  /** Artifacts are never replaced; they go only by a delete's removal of that
      very file. The sidecar is replaced only where there is no artifact. */
  predicate Preserves(job: Job, d: Disk, cs: Cs, act: Act)
    requires Enabled(job, d, cs, act)
  {
    var f, g := d.files, NextFiles(job, d, cs, act);
    && (forall x | x in f && x != Schema ::
          (x in g && g[x] == f[x]) || (cs.Remove? && cs.i < |REMOVALS| && REMOVALS[cs.i] == x))
    && (!NoArtifact(f) && !cs.Remove? ==> Sidecar(g) == Sidecar(f))
  }

  predicate StepOk(job: Job, d: Disk, cs: Cs, act: Act)
    requires Enabled(job, d, cs, act)
  {
    var d', cs' := NextDisk(job, d, cs, act), NextCs(job, d, cs, act);
    && CsInv(job, d', cs')
    && (SidecarOk(d.files) && !Orphans(d, cs, act) ==> SidecarOk(d'.files))
    && (Chain(d.files) && !PassesOver(cs, act) && (cs.Remove? ==> cs.ok) ==> Chain(d'.files))
    && Preserves(job, d, cs, act)
  }

  lemma StageStep(job: Job, d: Disk, cs: Cs, act: Act)
    requires CsInv(job, d, cs) && Enabled(job, d, cs, act) && job.Pack?
    requires cs.Stage? || cs.Fill?
    ensures StepOk(job, d, cs, act)
  {
    var s' := NextStaged(job, d, cs, act);
    ReadyFrame(job, d.files[cs.x := cs.doc], d.staged, s', cs.next);
  }

  lemma MoveStep(job: Job, d: Disk, cs: Cs, act: Act)
    requires CsInv(job, d, cs) && Enabled(job, d, cs, act) && job.Pack?
    requires cs.Move?
    ensures StepOk(job, d, cs, act)
  {
    var doc := d.staged[cs.t];
    ReadyFrame(job, d.files[cs.x := doc], d.staged, d.staged - {cs.t}, cs.next);
  }

  lemma CheckStep(job: Job, d: Disk, cs: Cs, act: Act)
    requires CsInv(job, d, cs) && Enabled(job, d, cs, act) && job.Pack?
    requires cs.Check? || cs.Backfill?
    ensures StepOk(job, d, cs, act)
  {
    if cs.Check? && cs.k == |STATS| {
      assert forall j | 0 <= j < |STATS| :: STATS[j] in cs.seen <==> STATS[j] in d.files;
      assert STATS[0] == Mpk && STATS[1] == Info && STATS[2] == Emwp && STATS[3] == EmwpInfo;
    }
  }

  lemma BuildStep(job: Job, d: Disk, cs: Cs, act: Act)
    requires CsInv(job, d, cs) && Enabled(job, d, cs, act) && job.Pack?
    requires cs.NewImage? || cs.FillImage? || cs.PublishMpk?
    ensures StepOk(job, d, cs, act)
  {
  }

  lemma ReturnStep(job: Job, d: Disk, cs: Cs, act: Act)
    requires CsInv(job, d, cs) && Enabled(job, d, cs, act) && job.Pack?
    requires cs.ReadInfo? || cs.VerifyEmwp? || cs.Verifying?
    ensures StepOk(job, d, cs, act)
  {
  }

  lemma RecordReady(job: Job, d: Disk, b: Build)
    requires OneBuild(d.files) && job.Pack? && job.encrypt && Complete(job, d.files, b) && Emwp in d.files
    ensures Ready(job, d, Record(b)) && Own(Record(b)) == {}
  {
    assert Lands(d.files, EmwpInfo, CipherRef(b));
  }

  lemma EncryptStep(job: Job, d: Disk, cs: Cs, act: Act)
    requires CsInv(job, d, cs) && Enabled(job, d, cs, act) && job.Pack?
    requires cs.HaveRef? || cs.NewCipher? || cs.FillCipher?
    ensures StepOk(job, d, cs, act)
  {
    var f, b := d.files, cs.b;
    assert f[Mpk].b == b;
    if cs.HaveRef? && job.encrypt && Emwp in f { RecordReady(job, d, b); }
    if cs.FillCipher? {
      var d' := NextDisk(job, d, cs, act);
      assert Lands(f, Emwp, Cipher(b));
      RecordReady(job, Disk(f[Emwp := Cipher(b)], d'.staged), b);
    }
  }

  lemma RemovalsAreAll(x: Suffix)
    ensures exists j :: 0 <= j < |REMOVALS| && REMOVALS[j] == x
  {
    match x
    case EmwpInfo => assert REMOVALS[0] == x;
    case Emwp => assert REMOVALS[1] == x;
    case Info => assert REMOVALS[2] == x;
    case Mpk => assert REMOVALS[3] == x;
    case Schema => assert REMOVALS[4] == x;
    case MpkTmp => assert REMOVALS[5] == x;
    case InfoTmp => assert REMOVALS[6] == x;
    case EmwpTmp => assert REMOVALS[7] == x;
    case EmwpInfoTmp => assert REMOVALS[8] == x;
    case EmwpVerifyTmp => assert REMOVALS[9] == x;
  }

  /** Removing the next file, those before it being gone, keeps the chain: each
      artifact goes before what it depends on. */
  lemma RemovalKeepsChain(f: Files, i: nat)
    requires OneBuild(f) && Chain(f) && i < |REMOVALS|
    requires forall j | 0 <= j < i :: REMOVALS[j] !in f
    ensures Chain(f - {REMOVALS[i]})
  {
    if i > 0 { assert REMOVALS[0] !in f; }
    if i > 1 { assert REMOVALS[1] !in f; }
    if i > 2 { assert REMOVALS[2] !in f; }
    if i > 3 { assert REMOVALS[3] !in f; }
  }

  lemma NothingLeft(f: Files)
    requires forall j | 0 <= j < |REMOVALS| :: REMOVALS[j] !in f
    ensures f == map[]
  {
    forall x | x in f
      ensures false
    {
      RemovalsAreAll(x);
    }
  }

  lemma RemoveStep(job: Job, d: Disk, cs: Cs, act: Act)
    requires CsInv(job, d, cs) && Enabled(job, d, cs, act) && job.Delete?
    requires cs.Remove?
    ensures StepOk(job, d, cs, act)
  {
    if cs.i < |REMOVALS| {
      if Chain(d.files) && cs.ok { RemovalKeepsChain(d.files, cs.i); }
    } else if cs.ok {
      NothingLeft(d.files);
    }
  }

  lemma SweepStep(job: Job, d: Disk, cs: Cs, act: Act)
    requires CsInv(job, d, cs) && Enabled(job, d, cs, act) && job.Delete?
    requires cs.Sweep?
    ensures StepOk(job, d, cs, act)
  {
    if cs.left == {} {
      assert cs.ok ==> d.staged.Keys == {};
    }
  }

  lemma JobOf(job: Job, d: Disk, cs: Cs, act: Act)
    requires CsInv(job, d, cs) && Enabled(job, d, cs, act)
    ensures job.Pack? <==> !(cs.Remove? || cs.Sweep? || cs.Leave?)
  {
  }

  /** Every operation of a lock holder keeps what makes the rest sound; the set
      stays sound unless a delete orphans it, and ordered unless a delete passes
      over a failed removal. */
  lemma HolderStep(job: Job, d: Disk, cs: Cs, act: Act)
    requires CsInv(job, d, cs) && Enabled(job, d, cs, act)
    ensures StepOk(job, d, cs, act)
  {
    hide StepOk, CsInv;
    JobOf(job, d, cs, act);
    if cs.Stage? || cs.Fill? {
      StageStep(job, d, cs, act);
    } else if cs.Move? {
      MoveStep(job, d, cs, act);
    } else if cs.Check? || cs.Backfill? {
      CheckStep(job, d, cs, act);
    } else if cs.NewImage? || cs.FillImage? || cs.PublishMpk? {
      BuildStep(job, d, cs, act);
    } else if cs.HaveRef? || cs.NewCipher? || cs.FillCipher? {
      EncryptStep(job, d, cs, act);
    } else if cs.Remove? {
      RemoveStep(job, d, cs, act);
    } else if cs.Sweep? {
      SweepStep(job, d, cs, act);
    } else {
      ReturnStep(job, d, cs, act);
    }
  }

  /** Of all operations on a sound set, exactly the orphaning ones spoil it. */
  lemma ExactlyOrphaningSpoils(job: Job, d: Disk, cs: Cs, act: Act)
    requires CsInv(job, d, cs) && Enabled(job, d, cs, act) && SidecarOk(d.files)
    ensures SidecarOk(NextFiles(job, d, cs, act)) <==> !Orphans(d, cs, act)
  {
    HolderStep(job, d, cs, act);
    if Orphans(d, cs, act) {
      var g := NextFiles(job, d, cs, act);
      assert Mpk in g && Info in g && Schema !in g;
    }
  }
}
