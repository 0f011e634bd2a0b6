/** The locked parts of packing and deleting as they run: every change they make to
    the directory is an operation of the lock holder, in its order. */
module StoreOps {
  import opened ArtifactLock
  import opened Bytes
  import opened LockedSteps
  import opened Store
  import opened StoreSafety
  import opened Wrappers

  import DiskImage
  import OpenFiles = Files
  import Packer
  import Reference

  /** The two sets agree except on the given files. */
  predicate SameBut(f: Files, g: Files, xs: set<Suffix>) {
    forall x | x !in xs :: (x in f <==> x in g) && (x in f ==> f[x] == g[x])
  }

  lemma OneChange(f: Files, x: Suffix, doc: Doc)
    ensures SameBut(f, f, {x}) && SameBut(f[x := doc], f, {x})
  {
  }

  /** A packer under schema want, on an image it takes or not, gets to a complete
      set. */
  predicate CanPublish(f: Files, want: pos, imageOk: bool) {
    VerdictOn(f, want) == Reuse || (VerdictOn(f, want) == Fresh && imageOk)
  }

  /** With a set published, a packer gets to its answer: the text under .info
      parses, and if it is to encrypt, the key loads, and there is an encrypted
      image already or one can be made of that many bytes. */
  predicate CanAnswer(encrypt: bool, f: Files, info: string, size: nat, vault: DiskImage.Vault) {
    && Reference.ParseRef(info).Ok?
    && (encrypt ==> vault.masterKey.Ok? && (Emwp in f || vault.CanSeal(size)))
  }

  /** The image among the files is on record, with a reference that vouches for
      its bytes. */
  predicate Archived(recipe: Packer.Recipe, archive: map<Build, Packer.Artifact>, f: Files) {
    Mpk in f && f[Mpk].Image? ==> f[Mpk].b in archive && recipe.Genuine(archive[f[Mpk].b])
  }

  /** The record after a packing: one that built has entered what it made. */
  function Entered(archive: map<Build, Packer.Artifact>, first: Files, want: pos, id: nat, made: Packer.Artifact)
    : map<Build, Packer.Artifact>
  {
    if VerdictOn(first, want) == Fresh then archive[Build(id, want) := made] else archive
  }

  /** Build b is on record, with a reference that vouches for its bytes if that
      was so of the image found; it is on record as what this run made if there
      was none, and as it was before if there was one. */
  predicate OnRecord(recipe: Packer.Recipe, archive: map<Build, Packer.Artifact>, after: map<Build, Packer.Artifact>,
                     first: Files, want: pos, b: Build, file: seq<byte>, image: seq<byte>) {
    && (Archived(recipe, archive, first) ==> b in after && recipe.Genuine(after[b]))
    && (VerdictOn(first, want) == Fresh ==> b in after && after[b].file == file && after[b].image == image)
    && (VerdictOn(first, want) == Reuse ==> after == archive)
  }

  lemma EntersRecord(recipe: Packer.Recipe, archive: map<Build, Packer.Artifact>, first: Files, mid: Files, last: Files,
                     want: pos, id: nat, made: Packer.Artifact, b: Build, file: seq<byte>, image: seq<byte>)
    requires SameBut(last, mid, {Emwp, EmwpInfo}) && Mpk in last && last[Mpk] == Image(b)
    requires VerdictOn(first, want) == Reuse ==> SameBut(mid, first, {Schema})
    requires VerdictOn(first, want) == Fresh ==>
               && Mpk in mid && mid[Mpk] == Image(Build(id, want))
               && recipe.Genuine(made) && made.file == file && made.image == image
    requires VerdictOn(first, want) != Refuse
    ensures OnRecord(recipe, archive, Entered(archive, first, want, id, made), first, want, b, file, image)
  {
    hide VerdictOn, Packer.Recipe.Genuine;
    assert Mpk in mid && mid[Mpk] == Image(b);
  }

  /** The record has the bytes that are under .mpk and the text under .info. */
  predicate Held(archive: map<Build, Packer.Artifact>, f: Files, file: seq<byte>, info: string) {
    Mpk in f && f[Mpk].Image? && f[Mpk].b in archive ==>
      archive[f[Mpk].b].file == file && archive[f[Mpk].b].ref == info
  }

  /** Build b is on record with the bytes and the reference a packing ended with. */
  lemma NowOnRecord(archive: map<Build, Packer.Artifact>, first: Files, mid: Files, last: Files,
                    want: pos, id: nat, now: Packer.Artifact, b: Build)
    requires SameBut(last, mid, {Emwp, EmwpInfo}) && Mpk in last && last[Mpk] == Image(b)
    requires VerdictOn(first, want) == Reuse ==>
               SameBut(mid, first, {Schema}) && Held(archive, first, now.file, now.ref)
    requires VerdictOn(first, want) == Fresh ==> Mpk in mid && mid[Mpk] == Image(Build(id, want))
    requires VerdictOn(first, want) != Refuse
    ensures var after := Entered(archive, first, want, id, now);
            b in after ==> after[b].file == now.file && after[b].ref == now.ref
  {
    hide VerdictOn;
    assert Mpk in mid && mid[Mpk] == Image(b);
  }

  lemma OnRecordIsGenuine(recipe: Packer.Recipe, archive: map<Build, Packer.Artifact>,
                          after: map<Build, Packer.Artifact>, first: Files, want: pos, b: Build, file: seq<byte>,
                          image: seq<byte>)
    requires OnRecord(recipe, archive, after, first, want, b, file, image) && Archived(recipe, archive, first)
    ensures b in after && recipe.Genuine(after[b])
  {
  }

  /** What a packer returns: the reference as a document and as it is printed,
      and the encrypted image if it has made one. */
  datatype Packed = Packed(doc: Doc, text: string, disk: seq<byte>)

  /** What was returned is the reference of the artifact, or of its encryption;
      and an encrypted image, unless there was one before, opens to the artifact. */
  ghost predicate Rendered(encrypt: bool, had: bool, vault: DiskImage.Vault, a: Packer.Artifact, p: Packed) {
    Printed(encrypt, vault, a.ref, p.text) && (encrypt && !had ==> vault.Opens(p.disk, a))
  }

  /** text is the given reference, or one that differs from it in its UUID only,
      which is that of the encryption. */
  predicate Printed(encrypt: bool, vault: DiskImage.Vault, ref: string, text: string) {
    && Reference.ParseRef(ref).Ok? && Reference.ParseRef(text).Ok?
    && if !encrypt then text == ref
       else
         var plain, outer := Reference.ParseRef(ref).value, Reference.ParseRef(text).value;
         outer.rootHash == plain.rootHash && outer.hashOffset == plain.hashOffset && outer.uuid == vault.uuid
  }

  lemma OuterIsPrinted(vault: DiskImage.Vault, ref: string)
    requires vault.Valid() && Reference.ParseRef(ref).Ok?
    ensures Printed(true, vault, ref, Reference.ToString(vault.Outer(Reference.ParseRef(ref).value)))
  {
    hide Reference.ParseRef, Reference.ToString;
    Reference.ParseThenPrint(ref);
    Reference.PrintThenParse(vault.Outer(Reference.ParseRef(ref).value));
  }

  lemma PlainIsPrinted(vault: DiskImage.Vault, ref: string)
    requires Reference.ParseRef(ref).Ok?
    ensures Printed(false, vault, ref, Reference.ToString(Reference.ParseRef(ref).value))
  {
    hide Reference.ParseRef, Reference.ToString;
    Reference.ParseThenPrint(ref);
  }

  lemma Renders(recipe: Packer.Recipe, vault: DiskImage.Vault, a: Packer.Artifact, now: Packer.Artifact, encrypt: bool,
                had: bool, p: Packed)
    requires recipe.Genuine(a) && vault.Valid() && a.file == now.file && a.ref == now.ref
    requires Printed(encrypt, vault, now.ref, p.text)
    requires encrypt && !had ==> vault.Seals(Reference.ParseRef(now.ref).value, p.disk, now.file)
    ensures Rendered(encrypt, had, vault, a, p)
  {
    hide DiskImage.Vault.Valid, DiskImage.Vault.Seals, DiskImage.Vault.Opens, Reference.ParseRef;
    hide Packer.Recipe.Genuine;
    if encrypt && !had { DiskImage.SealedOpens(recipe, vault, a, p.disk); }
  }

  /** After building, only the key and the partitioning tool can be in the way. */
  lemma FreshAnswers(encrypt: bool, first: Files, mid: Files, want: pos, recipe: Packer.Recipe, now: Packer.Artifact,
                     vault: DiskImage.Vault)
    requires VerdictOn(first, want) == Fresh && SameBut(mid, first, {Schema, Mpk, Info}) && recipe.Genuine(now)
    ensures |now.file| <= MAX_INT64 && (Emwp in mid <==> Emwp in first)
    ensures CanAnswer(encrypt, mid, now.ref, |now.file|, vault)
            <==> (encrypt ==> vault.masterKey.Ok? && vault.sgdiskWorks)
  {
    hide Packer.Recipe.Genuine, Reference.ParseRef, DiskImage.ImageBytes;
    DiskImage.ArtifactFits(recipe, now);
    DiskImage.RefParses(recipe, now);
    assert NoArtifact(first);
  }

  lemma ReuseAnswers(encrypt: bool, first: Files, mid: Files, info: string, size: nat, vault: DiskImage.Vault)
    requires SameBut(mid, first, {Schema, Mpk, Info})
    ensures Emwp in mid <==> Emwp in first
    ensures CanAnswer(encrypt, mid, info, size, vault) == CanAnswer(encrypt, first, info, size, vault)
  {
    hide Reference.ParseRef, DiskImage.Vault.CanSeal;
  }

  /** The acts lead the holder of this job from one point to another. */
  predicate Works(job: Job, d: Disk, cs: Cs, acts: seq<Act>, d': Disk, cs': Cs)
    decreases |acts|
  {
    if acts == [] then d == d' && cs == cs'
    else
      && Enabled(job, d, cs, acts[0])
      && Works(job, NextDisk(job, d, cs, acts[0]), NextCs(job, d, cs, acts[0]), acts[1..], d', cs')
  }

  lemma NoActs(job: Job, d: Disk, cs: Cs)
    ensures Works(job, d, cs, [], d, cs)
  {
  }

  lemma {:induction false} OneMore(job: Job, d: Disk, cs: Cs, acts: seq<Act>, d': Disk, cs': Cs, act: Act)
    requires Works(job, d, cs, acts, d', cs') && Enabled(job, d', cs', act)
    ensures Works(job, d, cs, acts + [act], NextDisk(job, d', cs', act), NextCs(job, d', cs', act))
    decreases |acts|
  {
    var all := acts + [act];
    if acts == [] {
      assert all[1..] == [];
    } else {
      assert all[0] == acts[0] && all[1..] == acts[1..] + [act];
      OneMore(job, NextDisk(job, d, cs, acts[0]), NextCs(job, d, cs, acts[0]), acts[1..], d', cs', act);
    }
  }

  lemma {:induction false} WorksKeeps(job: Job, d: Disk, cs: Cs, acts: seq<Act>, d': Disk, cs': Cs)
    requires CsInv(job, d, cs) && Works(job, d, cs, acts, d', cs')
    ensures CsInv(job, d', cs')
    decreases |acts|
  {
    if acts != [] {
      HolderStep(job, d, cs, acts[0]);
      WorksKeeps(job, NextDisk(job, d, cs, acts[0]), NextCs(job, d, cs, acts[0]), acts[1..], d', cs');
    }
  }

  /** A packer, however far it gets, leaves every artifact it found as it was, and
      a sound set sound. */
  lemma {:induction false} WorksPreserve(job: Job, d: Disk, cs: Cs, acts: seq<Act>, d': Disk, cs': Cs)
    requires job.Pack? && CsInv(job, d, cs) && Works(job, d, cs, acts, d', cs')
    ensures forall x | x in ARTIFACTS && x in d.files :: x in d'.files && d'.files[x] == d.files[x]
    ensures (SidecarOk(d.files) ==> SidecarOk(d'.files)) && (Chain(d.files) ==> Chain(d'.files))
    decreases |acts|
  {
    if acts != [] {
      HolderStep(job, d, cs, acts[0]);
      assert Preserves(job, d, cs, acts[0]);
      WorksPreserve(job, NextDisk(job, d, cs, acts[0]), NextCs(job, d, cs, acts[0]), acts[1..], d', cs');
    }
  }

  function WorkSteps(p: nat, acts: seq<Act>): seq<Step> {
    if acts == [] then [] else [Work(p, acts[0])] + WorkSteps(p, acts[1..])
  }

  /** What a lock holder does alone is a run of the whole system. */
  lemma {:induction false} WorksIsRun(s: State, p: nat, acts: seq<Act>, d': Disk, cs': Cs) returns (s': State)
    requires p < |s.ps| && s.ps[p].phase.Critical?
    requires Works(s.ps[p].job, s.disk, s.ps[p].phase.cs, acts, d', cs')
    ensures Runs(s, WorkSteps(p, acts), s')
    ensures s'.disk == d' && s'.path == s.path && s'.dir == s.dir && OnlyMoves(s, s', p)
    ensures s'.ps[p].phase == Critical(s.ps[p].phase.ino, cs') && s'.ps[p].job == s.ps[p].job
    decreases |acts|
  {
    if acts == [] {
      s' := s;
    } else {
      s' := WorksIsRun(After(s, Work(p, acts[0])), p, acts[1..], d', cs');
    }
  }

  /** The downloaded source of a revision. */
  class Cache {
    /** A removal never fails. */
    const reliable: bool
    var there: bool

    constructor (there: bool, reliable: bool)
      ensures this.there == there && this.reliable == reliable
    {
      this.there, this.reliable := there, reliable;
    }

    /** Removes the directory with all that is in it; may fail part-way. */
    method RemoveAll() returns (ok: bool)
      modifies this
      ensures there == (old(there) && !ok)
      ensures reliable ==> ok
    {
      ok := *;
      if reliable { ok := true; }
      if ok { there := false; }
    }
  }

  /** The directory of a revision in the hands of the process that holds its
      lock. job, start, acts, last and cs say which operations it has done. */
  class Session {
    const job: Job
    /** No operation that can be done ever fails. */
    const reliable: bool
    ghost const start: Disk
    var files: Files
    var staged: map<nat, Doc>
    ghost var acts: seq<Act>
    ghost var last: Disk
    ghost var cs: Cs

    /** What is recorded is a run of the holder. */
    ghost predicate Recorded()
      reads this`acts, this`last, this`cs
    {
      CsInv(job, start, Begin(job)) && Works(job, start, Begin(job), acts, last, cs) && CsInv(job, last, cs)
    }

    /** And it is all that has been done, except that after an error some
        temporaries of the holder's own may be gone as well. */
    ghost predicate Valid()
      reads this
    {
      && Recorded() && files == last.files && staged.Keys <= last.staged.Keys
      && forall t | t in last.staged :: if t in staged then staged[t] == last.staged[t] else t in Own(cs)
    }

    ghost predicate At(c: Cs)
      reads this
    {
      Valid() && cs == c && last == Disk(files, staged)
    }

    constructor (job: Job, reliable: bool, files: Files, staged: map<nat, Doc>)
      requires OneBuild(files)
      ensures At(Begin(job)) && this.job == job && this.files == files && this.staged == staged
      ensures start == Disk(files, staged) && acts == [] && this.reliable == reliable
    {
      this.job, this.reliable, this.files, this.staged := job, reliable, files, staged;
      start, last, acts, cs := Disk(files, staged), Disk(files, staged), [], Begin(job);
    }

    /** Records the operation just done: it must be the one, or one of those,
        that this point of the job has next. */
    ghost method Note(act: Act)
      requires Recorded() && Enabled(job, last, cs, act)
      requires NextDisk(job, last, cs, act) == Disk(files, staged)
      modifies this`acts, this`last, this`cs
      ensures At(NextCs(job, old(last), old(cs), act)) && last == NextDisk(job, old(last), old(cs), act)
      ensures acts == old(acts) + [act]
    {
      hide CsInv, Works, Enabled, NextDisk, NextCs, Own;
      OneMore(job, start, Begin(job), acts, last, cs, act);
      HolderStep(job, last, cs, act);
      last, cs, acts := NextDisk(job, last, cs, act), NextCs(job, last, cs, act), acts + [act];
    }

    // ---- File operations, each of which may fail ----

    method Stat(x: Suffix) returns (there: Result<bool>)
      ensures there.Ok? ==> there.value == (x in files)
      ensures reliable ==> there.Ok?
    {
      var ok := *;
      there := if ok || reliable then Ok(x in files) else Err;
    }

    /** A sidecar that is not a positive number is an error. */
    method ReadSchemaSidecar() returns (r: Result<Option<int>>)
      requires OneBuild(files)
      ensures r.Ok? ==> Sidecar(files) >= 1
      ensures r.Ok? ==> r.value == if Schema in files then Some(Sidecar(files)) else None
      ensures reliable && Sidecar(files) >= 1 ==> r.Ok?
    {
      var ok := *;
      if !ok && !reliable { return Err; }
      if Schema !in files { return Ok(None); }
      if files[Schema].n < 1 { return Err; }
      return Ok(Some(files[Schema].n));
    }

    method StagedPath() returns (r: Result<nat>)
      modifies this`staged
      ensures r.Ok? ==> r.value !in old(staged) && staged == old(staged)[r.value := Junk]
      ensures r.Err? ==> staged == old(staged)
      ensures reliable ==> r.Ok?
    {
      var ok := *;
      if !ok && !reliable { return Err; }
      SomeNameIsFree(staged.Keys);
      var t: nat :| t !in staged;
      staged := staged[t := Junk];
      return Ok(t);
    }

    /** A write that fails leaves something that is no document. */
    method WriteFile(t: nat, doc: Doc) returns (ok: bool)
      requires t in staged && staged[t] == Junk
      modifies this`staged
      ensures staged == if ok then old(staged)[t := doc] else old(staged)
      ensures reliable ==> ok
    {
      ok := *;
      if reliable { ok := true; }
      if ok { staged := staged[t := doc]; }
    }

    method RemoveTemp(t: nat) returns (ok: bool)
      modifies this`staged
      ensures staged == if ok then old(staged) - {t} else old(staged)
      ensures reliable ==> ok
    {
      ok := *;
      if reliable { ok := true; }
      if ok { staged := staged - {t}; }
    }

    method Rename(t: nat, x: Suffix) returns (ok: bool)
      requires t in staged
      modifies this`staged, this`files
      ensures ok ==> files == old(files)[x := old(staged)[t]] && staged == old(staged) - {t}
      ensures !ok ==> files == old(files) && staged == old(staged)
      ensures reliable ==> ok
    {
      ok := *;
      if reliable { ok := true; }
      if ok { files, staged := files[x := staged[t]], staged - {t}; }
    }

    /** A file that is not there counts as removed. */
    method RemoveFile(x: Suffix) returns (ok: bool)
      modifies this`files
      ensures files == if ok then old(files) - {x} else old(files)
      ensures reliable ==> ok
    {
      ok := *;
      if reliable { ok := true; }
      if ok { files := files - {x}; }
    }

    // ---- Pack ----

    /** Looks for the artifacts one by one; complete is whether both commit files
        were there. */
    method StatArtifacts() returns (found: Result<set<Suffix>>, complete: bool)
      requires job.Pack? && At(Check(0, {}))
      modifies this`acts, this`last, this`cs
      ensures Valid() && (reliable ==> found.Ok?)
      ensures found.Ok? ==> At(Check(|STATS|, found.value)) && found.value == Present(files)
      ensures found.Ok? ==> (complete <==> Mpk in found.value && Info in found.value)
    {
      hide Works, Lands;
      var seen: set<Suffix>, i := {}, 0;
      complete := true;
      while i < |STATS|
        invariant 0 <= i <= |STATS| && At(Check(i, seen))
        invariant complete <==> (i > 0 ==> Mpk in files) && (i > 1 ==> Info in files)
      {
        var there := Stat(STATS[i]);
        if there.Err? { return Err, complete; }
        if there.value {
          seen := seen + {STATS[i]};
        } else if STATS[i] == Mpk || STATS[i] == Info {
          complete := false;
        }
        Note(Go);
        i := i + 1;
      }
      SeenAll(files, seen);
      found := Ok(seen);
    }

    method CheckExistingArtifacts(want: pos) returns (reuse: Result<bool>)
      requires job.Pack? && job.want == want && At(Check(0, {}))
      modifies this`acts, this`last, this`cs
      ensures Valid()
      ensures reuse == Ok(true) ==> VerdictOn(files, want) == Reuse && At(Backfill)
      ensures reuse == Ok(false) ==> VerdictOn(files, want) == Fresh && At(NewImage)
      ensures VerdictOn(files, want) == Refuse ==> reuse.Err?
      ensures reliable && VerdictOn(files, want) != Refuse ==> reuse.Ok?
    {
      hide Works, Ready, Lands, Present;
      var found, complete := StatArtifacts();
      if found.Err? { return Err; }
      var got := ReadSchemaSidecar();
      if got.Err? { return Err; }
      if found.value == {} {
        Note(Go);
        return Ok(false);
      }
      if !complete { return Err; }
      var schema := if got.value.None? then 1 else got.value.value;
      if schema != want { return Err; }
      Note(Go);
      return Ok(true);
    }

    method BeginStaged(x: Suffix, doc: Doc, ghost next: Cs) returns (t: Result<nat>)
      requires At(Stage(x, doc, next))
      modifies this`staged, this`acts, this`last, this`cs
      ensures Valid() && (reliable ==> t.Ok?)
      ensures t.Err? ==> staged == old(staged)
      ensures t.Ok? ==>
                && At(Fill(x, doc, t.value, next)) && t.value !in old(staged)
                && staged == old(staged)[t.value := Junk]
    {
      hide Recorded, CsInv, Works, Ready, Lands, OneBuild;
      t := StagedPath();
      if t.Ok? { Note(Named(t.value)); }
    }

    method FillStaged(x: Suffix, doc: Doc, t: nat, ghost next: Cs) returns (ok: bool)
      requires At(Fill(x, doc, t, next)) && t in staged && staged[t] == Junk
      modifies this`staged, this`acts, this`last, this`cs
      ensures Valid() && (reliable ==> ok)
      ensures ok ==> At(Move(x, t, next)) && staged == old(staged)[t := doc]
      ensures !ok ==> staged.Keys >= old(staged).Keys - {t}
    {
      hide Recorded, CsInv, Works, Ready, Lands, OneBuild;
      ok := WriteFile(t, doc);
      if ok {
        Note(Go);
      } else {
        var gone := RemoveTemp(t);
      }
    }

    method MoveStaged(x: Suffix, t: nat, ghost next: Cs) returns (ok: bool)
      requires At(Move(x, t, next)) && t in staged
      modifies this
      ensures Valid() && (reliable ==> ok)
      ensures ok ==> At(next) && files == old(files)[x := old(staged)[t]] && staged == old(staged) - {t}
      ensures !ok ==> files == old(files) && staged == old(staged)
    {
      hide Recorded, CsInv, Works, Ready, Lands, OneBuild;
      ok := Rename(t, x);
      if ok { Note(Go); }
    }

    /** Replaces one file atomically, through a temporary. */
    method WriteStaged(x: Suffix, doc: Doc, ghost next: Cs) returns (ok: bool)
      requires At(Stage(x, doc, next))
      modifies this
      ensures Valid() && (reliable ==> ok)
      ensures ok ==> At(next) && files == old(files)[x := doc] && staged == old(staged)
      ensures !ok ==> files == old(files) && staged.Keys >= old(staged).Keys
    {
      hide *;
      var t := BeginStaged(x, doc, next);
      if t.Err? { return false; }
      ok := FillStaged(x, doc, t.value, next);
      if ok { ok := MoveStaged(x, t.value, next); }
    }

    /** Gives a reused set that predates sidecars one; leaves another alone. */
    method BackfillSchemaSidecar(id: pos) returns (ok: bool)
      requires job.Pack? && job.want == id && At(Backfill)
      modifies this
      ensures Valid()
      ensures ok ==> At(ReadInfo) && staged == old(staged)
      ensures ok ==> files == if Schema in old(files) then old(files) else old(files)[Schema := SchemaId(id)]
      ensures !ok ==> files == old(files)
      ensures reliable ==> ok
    {
      var got := ReadSchemaSidecar();
      if got.Err? { return false; }
      Note(Go);
      if got.value.Some? { return true; }
      ok := WriteStaged(Schema, SchemaId(id), ReadInfo);
    }

    method BeginImage() returns (t: Result<nat>)
      requires At(NewImage)
      modifies this`staged, this`acts, this`last, this`cs
      ensures Valid() && (reliable ==> t.Ok?)
      ensures t.Err? ==> staged == old(staged)
      ensures t.Ok? ==> At(FillImage(t.value)) && t.value !in old(staged) && staged == old(staged)[t.value := Junk]
    {
      hide Recorded, CsInv, Works, Ready, OneBuild;
      t := StagedPath();
      if t.Ok? { Note(Named(t.value)); }
    }

    method FinishImage(t: nat, b: Build) returns (ok: bool)
      requires job.Pack? && b.schema == job.want && At(FillImage(t)) && t in staged && staged[t] == Junk
      modifies this`staged, this`acts, this`last, this`cs
      ensures Valid() && (reliable ==> ok)
      ensures ok ==> At(Stage(Schema, SchemaId(job.want), PublishMpk(t, b))) && staged == old(staged)[t := Image(b)]
      ensures !ok ==> At(FillImage(t)) && staged == old(staged)
    {
      hide Recorded, CsInv, Works, Ready, OneBuild;
      ok := WriteFile(t, Image(b));
      if ok { Note(Made(b)); }
    }

    /** Gives up on an image: its temporary goes, if it can be removed. */
    method DropImage(t: nat)
      requires At(FillImage(t))
      modifies this`staged
      ensures Valid() && (reliable ==> staged == old(staged) - {t})
    {
      hide Recorded;
      var gone := RemoveTemp(t);
    }

    /** Builds an image under the wanted schema into a temporary and makes it an
        artifact. image is what the image builder, if it works, has left there. */
    method BuildMwp(id: nat, works: bool, image: OpenFiles.File, recipe: Packer.Recipe)
      returns (r: Result<(nat, Build)>, made: Packer.Artifact)
      requires job.Pack? && At(NewImage) && recipe.Valid() && |image.data| <= MAX_INT64
      modifies this`staged, this`acts, this`last, this`cs, image
      ensures Valid()
      ensures r.Ok? ==>
                var (t, b) := r.value;
                && At(Stage(Schema, SchemaId(job.want), PublishMpk(t, b)))
                && b == Build(id, job.want) && t !in old(staged) && staged == old(staged)[t := Image(b)]
      ensures r.Ok? ==> made.file == image.data && made.image == old(image.data) && recipe.Genuine(made)
      ensures reliable && image.reliable ==> (r.Ok? <==> works && recipe.Accepts(old(image.data)))
      ensures reliable && r.Err? ==> staged == old(staged)
    {
      hide At, Valid, Packer.Recipe.Genuine, Packer.Recipe.Accepts, Packer.Recipe.Valid;
      made := Packer.Artifact([], "", []);
      var content := image.data;
      var t := BeginImage();
      if t.Err? { return Err, made; }
      var ref := Err;
      if works { ref := Packer.BuildMwp(image, recipe); }
      var b := Build(id, job.want);
      var ok := false;
      if ref.Ok? { ok := FinishImage(t.value, b); }
      if !ok {
        DropImage(t.value);
        return Err, made;
      }
      made := Packer.Artifact(image.data, ref.value, content);
      return Ok((t.value, b)), made;
    }

    /** Sidecar first, then the image, the reference last. */
    method PublishArtifacts(id: pos, t: nat, b: Build) returns (ok: bool)
      requires job.Pack? && job.want == id && At(Stage(Schema, SchemaId(id), PublishMpk(t, b)))
      modifies this
      ensures Valid()
      ensures ok ==> At(ReadInfo) && staged == old(staged) - {t}
      ensures ok ==> files == old(files)[Schema := SchemaId(id)][Mpk := Image(b)][Info := RefOf(b)]
      ensures reliable ==> ok
    {
      ok := WriteStaged(Schema, SchemaId(id), PublishMpk(t, b));
      if !ok { return; }
      ok := Rename(t, Mpk);
      if !ok { return; }
      Note(Go);
      ok := WriteStaged(Info, RefOf(b), ReadInfo);
    }

    method BeginCipher(b: Build) returns (t: Result<nat>)
      requires At(NewCipher(b)) && Mpk in files
      modifies this`staged, this`acts, this`last, this`cs
      ensures Valid() && (reliable ==> t.Ok?)
      ensures t.Ok? ==> At(FillCipher(t.value, b)) && t.value !in old(staged) && staged == old(staged)[t.value := Junk]
    {
      hide Recorded, CsInv, Works, Ready, OneBuild;
      t := StagedPath();
      if t.Ok? { Note(Named(t.value)); }
    }

    /** The ciphertext is made from the image as it is stored now. */
    method FinishCipher(t: nat, b: Build) returns (ok: bool)
      requires At(FillCipher(t, b)) && t in staged && staged[t] == Junk && Mpk in files && files[Mpk].Image?
      modifies this`staged, this`acts, this`last, this`cs
      ensures Valid() && (reliable ==> ok)
      ensures ok ==> At(Move(Emwp, t, Record(b))) && staged == old(staged)[t := Cipher(files[Mpk].b)]
      ensures !ok ==> At(FillCipher(t, b)) && staged == old(staged)
    {
      hide Recorded, CsInv, Works, Ready, OneBuild, Record;
      ok := WriteFile(t, Cipher(files[Mpk].b));
      if ok { Note(Go); }
    }

    /** Gives up on an encryption: its temporary goes, if it can be removed. */
    method DropCipher(t: nat, ghost b: Build)
      requires At(FillCipher(t, b))
      modifies this`staged
      ensures Valid() && (reliable ==> staged == old(staged) - {t})
    {
      hide Recorded;
      var gone := RemoveTemp(t);
    }

    lemma ImageIsStored(b: Build)
      requires job.Pack? && At(NewCipher(b))
      ensures Mpk in files && files[Mpk].Image?
    {
    }

    /** Encrypts the stored image, the file mwp with reference plain, into a
        temporary and moves it into place. */
    method EncryptEmwp(b: Build, mwp: OpenFiles.File, plain: Reference.ArtifactRef, vault: DiskImage.Vault)
      returns (ok: bool, disk: seq<byte>)
      requires job.Pack? && job.encrypt && At(NewCipher(b))
      requires vault.Valid() && vault.masterKey.Ok? && |mwp.data| <= MAX_INT64
      modifies this
      ensures Valid()
      ensures ok ==> At(Record(b)) && staged == old(staged) && vault.Seals(plain, disk, mwp.data)
      ensures reliable && mwp.reliable ==> (ok <==> vault.CanSeal(|mwp.data|))
      ensures reliable && !ok ==> files == old(files) && staged == old(staged)
      ensures SameBut(files, old(files), {Emwp})
    {
      hide *;
      ImageIsStored(b);
      ghost var f, doc := files, Cipher(files[Mpk].b);
      OneChange(f, Emwp, doc);
      var t := BeginCipher(b);
      if t.Err? { return false, []; }
      var img;
      ok, img := DiskImage.Seal(mwp, plain, vault, reliable);
      if ok { ok := FinishCipher(t.value, b); }
      if !ok {
        DropCipher(t.value, b);
        return false, [];
      }
      ok := MoveStaged(Emwp, t.value, Record(b));
      disk := img.data;
    }

    lemma StillValid(c: Cs)
      requires At(c)
      ensures Valid()
    {
    }

    /** Whether there is an encrypted image decides what is next. */
    ghost method NoteLooked(b: Build)
      requires job.Pack? && job.encrypt && At(HaveRef(b))
      modifies this`acts, this`last, this`cs
      ensures Valid() && At(if Emwp in files then Record(b) else NewCipher(b))
    {
      hide Recorded, CsInv, Works, Ready, Lands;
      Note(Go);
    }

    /** Encrypts the stored image unless there is an encrypted one, and records
        its reference; without a master key it does neither. */
    method EncryptStored(b: Build, mwp: OpenFiles.File, plain: Reference.ArtifactRef, vault: DiskImage.Vault)
      returns (ok: bool, disk: seq<byte>)
      requires job.Pack? && job.encrypt && At(HaveRef(b)) && vault.Valid() && |mwp.data| <= MAX_INT64
      modifies this
      ensures Valid()
      ensures ok ==> At(VerifyEmwp(b)) && staged == old(staged)
      ensures ok && Emwp !in old(files) ==> vault.Seals(plain, disk, mwp.data)
      ensures reliable && mwp.reliable ==>
                (ok <==> vault.masterKey.Ok? && (Emwp in old(files) || vault.CanSeal(|mwp.data|)))
      ensures vault.masterKey.Err? ==> !ok && files == old(files) && staged == old(staged)
      ensures reliable && !ok ==> files == old(files) && staged == old(staged)
      ensures SameBut(files, old(files), {Emwp, EmwpInfo})
    {
      hide At, Valid, DiskImage.Vault.Valid, DiskImage.Vault.Seals, DiskImage.Vault.CanSeal;
      disk := [];
      StillValid(HaveRef(b));
      if vault.masterKey.Err? { return false, disk; }
      var there := Stat(Emwp);
      if there.Err? { return false, disk; }
      NoteLooked(b);
      if !there.value {
        ok, disk := EncryptEmwp(b, mwp, plain, vault);
        if !ok { return; }
      }
      ok := WriteStaged(EmwpInfo, CipherRef(b), VerifyEmwp(b));
    }

    /** Reuses the set on disk, or builds and publishes one where there is none. */
    method EnsureMwp(want: pos, id: nat, works: bool, image: OpenFiles.File, recipe: Packer.Recipe)
      returns (ok: bool, reused: bool, made: Packer.Artifact)
      requires job.Pack? && job.want == want && At(Check(0, {})) && recipe.Valid() && |image.data| <= MAX_INT64
      modifies this, image
      ensures Valid()
      ensures ok ==> At(ReadInfo) && staged == old(staged)
      ensures ok ==> SameBut(files, old(files), {Schema, Mpk, Info})
      ensures ok && VerdictOn(old(files), want) == Reuse ==> SameBut(files, old(files), {Schema})
      ensures ok && VerdictOn(old(files), want) == Fresh ==>
                && Mpk in files && files[Mpk] == Image(Build(id, want))
                && made.file == image.data && made.image == old(image.data) && recipe.Genuine(made)
      ensures VerdictOn(old(files), want) == Refuse ==> !ok && files == old(files) && staged == old(staged)
      ensures reliable && image.reliable ==>
                (ok <==> CanPublish(old(files), want, works && recipe.Accepts(old(image.data))))
      ensures reliable && !ok ==> files == old(files) && staged == old(staged)
      ensures ok ==> (if reused then VerdictOn(old(files), want) == Reuse else VerdictOn(old(files), want) == Fresh)
    {
      hide At, Valid, VerdictOn, Packer.Recipe.Genuine, Packer.Recipe.Accepts, Packer.Recipe.Valid;
      made, reused := Packer.Artifact([], "", []), false;
      var reuse := CheckExistingArtifacts(want);
      if reuse.Err? { return false, reused, made; }
      reused := reuse.value;
      if reused {
        ok := BackfillSchemaSidecar(want);
      } else {
        var built;
        built, made := BuildMwp(id, works, image, recipe);
        if built.Err? { return false, reused, made; }
        ok := PublishArtifacts(want, built.value.0, built.value.1);
      }
    }

    /** Reads the text under .info and parses it. */
    method ReadReference(info: string) returns (r: Result<(Build, Reference.ArtifactRef)>)
      requires job.Pack? && At(ReadInfo)
      modifies this`acts, this`last, this`cs
      ensures Valid() && (reliable ==> (r.Ok? <==> Reference.ParseRef(info).Ok?))
      ensures r.Ok? ==> At(HaveRef(r.value.0)) && Reference.ParseRef(info) == Ok(r.value.1)
    {
      hide Works, Lands, Reference.ParseRef;
      var there := Stat(Info);
      if there != Ok(true) { return Err; }
      var ref := Reference.ParseRef(info);
      if ref.Err? { return Err; }
      r := Ok((files[Info].b, ref.value));
      Note(Go);
    }

    /** The rest of the job changes nothing. */
    ghost method NoteReturn(b: Build)
      requires job.Pack? && At(if job.encrypt then VerifyEmwp(b) else HaveRef(b))
      modifies this`acts, this`last, this`cs
      ensures Valid() && At(Returning(if job.encrypt then CipherRef(b) else RefOf(b)))
    {
      hide Recorded, CsInv, Works, Ready, Lands;
      Note(if job.encrypt then Decline else Go);
    }

    /** Reads the reference back, and encrypts if asked to. info is the text under
        .info, mwp the file under .mpk. */
    method Answer(info: string, mwp: OpenFiles.File, vault: DiskImage.Vault) returns (r: Result<Packed>)
      requires job.Pack? && At(ReadInfo) && vault.Valid() && |mwp.data| <= MAX_INT64
      modifies this
      ensures Valid()
      ensures r.Ok? ==> At(Returning(r.value.doc)) && staged == old(staged) && Reference.ParseRef(info).Ok?
      ensures r.Ok? ==>
                var plain := Reference.ParseRef(info).value;
                && Printed(job.encrypt, vault, info, r.value.text)
                && (job.encrypt && Emwp !in old(files) ==> vault.Seals(plain, r.value.disk, mwp.data))
      ensures reliable && mwp.reliable ==> (r.Ok? <==> CanAnswer(job.encrypt, old(files), info, |mwp.data|, vault))
      ensures SameBut(files, old(files), {Emwp, EmwpInfo})
      ensures job.encrypt && vault.masterKey.Err? ==> r.Err? && files == old(files) && staged == old(staged)
      ensures reliable && r.Err? ==> files == old(files) && staged == old(staged)
    {
      hide At, Valid, DiskImage.Vault.Valid, DiskImage.Vault.Seals, DiskImage.Vault.CanSeal, Reference.ParseRef;
      hide Reference.ToString, Printed;
      var got := ReadReference(info);
      if got.Err? { return Err; }
      var (b, plain) := got.value;
      if !job.encrypt {
        NoteReturn(b);
        PlainIsPrinted(vault, info);
        return Ok(Packed(RefOf(b), Reference.ToString(plain), []));
      }
      var ok, disk := EncryptStored(b, mwp, plain, vault);
      if !ok { return Err; }
      NoteReturn(b);
      OuterIsPrinted(vault, info);
      return Ok(Packed(CipherRef(b), Reference.ToString(vault.Outer(plain)), disk));
    }

    /** Whatever a packer has done so far, and wherever it stops, the artifacts
        that were there when it got the lock are there unchanged, and a sound
        set is sound. */
    lemma PackKeeps()
      requires Valid() && job.Pack?
      ensures forall x | x in ARTIFACTS && x in start.files :: x in files && files[x] == start.files[x]
      ensures (SidecarOk(start.files) ==> SidecarOk(files)) && (Chain(start.files) ==> Chain(files))
    {
      WorksPreserve(job, start, LockedSteps.Begin(job), acts, last, cs);
    }

    lemma NothingDone()
      requires job.Pack? && At(Begin(job)) && acts == []
      ensures start == Disk(files, staged) && At(Check(0, {}))
    {
    }

    lemma ReturnedIsStored(doc: Doc)
      requires At(Returning(doc))
      ensures Answers(job, files, doc) && Mpk in files && files[Mpk] == Image(doc.b)
      ensures SidecarOk(files) ==> CompleteSet(files, job.want)
    {
    }

    lemma ReadyToReadIsComplete()
      requires At(ReadInfo) && SidecarOk(start.files)
      ensures job.Pack? && CompleteSet(files, job.want)
    {
      hide Works;
      PackKeeps();
    }

    /** The locked part of packing. works is whether the image builder runs, image
        what it has left in its temporary; stored and info are the file under .mpk
        and the text under .info, if there are any. The returned reference is that
        of the bytes on record for the stored image, those of this run if it built
        them, and an encrypted image made by this run opens to those bytes. */
    method PackLocked(want: pos, encrypt: bool, id: nat, works: bool, image: OpenFiles.File, recipe: Packer.Recipe,
                      stored: OpenFiles.File, info: string, vault: DiskImage.Vault,
                      ghost archive: map<Build, Packer.Artifact>)
      returns (r: Result<Packed>, ghost after: map<Build, Packer.Artifact>)
      requires job == Pack(want, encrypt) && At(Begin(job)) && acts == [] && stored != image
      requires recipe.Valid() && vault.Valid() && |image.data| <= MAX_INT64 && |stored.data| <= MAX_INT64
      modifies this, image
      ensures Valid()
      ensures r.Ok? ==> At(Returning(r.value.doc)) && Answers(job, files, r.value.doc) && staged == old(staged)
      ensures r.Ok? ==> Mpk in files && files[Mpk] == Image(r.value.doc.b)
      ensures r.Ok? && SidecarOk(old(files)) ==> CompleteSet(files, want)
      ensures r.Ok? ==>
                OnRecord(recipe, archive, after, old(files), want, r.value.doc.b, image.data, old(image.data))
      ensures r.Ok? && Archived(recipe, archive, old(files)) && Held(archive, old(files), stored.data, info) ==>
                r.value.doc.b in after
                && Rendered(encrypt, Emwp in old(files), vault, after[r.value.doc.b], r.value)
      ensures r.Ok? && VerdictOn(old(files), want) == Reuse ==> Printed(encrypt, vault, info, r.value.text)
      ensures (SidecarOk(old(files)) ==> SidecarOk(files)) && (Chain(old(files)) ==> Chain(files))
      ensures VerdictOn(old(files), want) == Refuse ==> r.Err? && files == old(files) && staged == old(staged)
      ensures reliable && image.reliable && stored.reliable ==>
                (r.Ok? <==>
                   && CanPublish(old(files), want, works && recipe.Accepts(old(image.data)))
                   && (VerdictOn(old(files), want) == Reuse ==>
                         CanAnswer(encrypt, old(files), info, |stored.data|, vault))
                   && (VerdictOn(old(files), want) == Fresh && encrypt ==> vault.masterKey.Ok? && vault.sgdiskWorks))
      ensures reliable && image.reliable && !CanPublish(old(files), want, works && recipe.Accepts(old(image.data))) ==>
                files == old(files) && staged == old(staged)
      ensures reliable && image.reliable && r.Err? && SidecarOk(old(files))
              && CanPublish(old(files), want, works && recipe.Accepts(old(image.data))) ==>
                CompleteSet(files, want) && SameBut(files, old(files), {Schema, Mpk, Info}) && staged == old(staged)
      ensures forall x | x in ARTIFACTS && x in old(files) :: x in files && files[x] == old(files)[x]
    {
      hide *;
      NothingDone();
      ghost var first := files;
      var ok, reused, now := EnsureMwp(want, id, works, image, recipe);
      ghost var mid := files;
      r := Err;
      if ok {
        if SidecarOk(first) { ReadyToReadIsComplete(); }
        var mwp := if reused then stored else image;
        if reused { now := Packer.Artifact(stored.data, info, []); }
        if reused { ReuseAnswers(encrypt, first, mid, info, |stored.data|, vault); }
        else { FreshAnswers(encrypt, first, mid, want, recipe, now, vault); }
        r := Answer(now.ref, mwp, vault);
      }
      PackKeeps();
      after := Entered(archive, first, want, id, now);
      if r.Ok? {
        ReturnedIsStored(r.value.doc);
        EntersRecord(recipe, archive, first, mid, files, want, id, now, r.value.doc.b, image.data, old(image.data));
        if Archived(recipe, archive, first) && Held(archive, first, stored.data, info) {
          NowOnRecord(archive, first, mid, files, want, id, now, r.value.doc.b);
          OnRecordIsGenuine(recipe, archive, after, first, want, r.value.doc.b, image.data, old(image.data));
          Renders(recipe, vault, after[r.value.doc.b], now, encrypt, Emwp in first, r.value);
        }
      }
    }

    // ---- Delete ----

    method RemoveNext(i: nat, ghost ok: bool) returns (gone: bool)
      requires job.Delete? && i < |REMOVALS| && At(Remove(i, ok))
      modifies this`files, this`acts, this`last, this`cs
      ensures At(Remove(i + 1, ok && gone)) && (reliable ==> gone)
      ensures files == if gone then old(files) - {REMOVALS[i]} else old(files)
      ensures acts == old(acts) + [if gone then Go else Decline]
    {
      hide Recorded, CsInv, Works, Ready;
      gone := RemoveFile(REMOVALS[i]);
      if gone { Note(Go); } else { Note(Decline); }
    }

    method SweepNext(t: nat, ghost left: set<nat>, ghost ok: bool) returns (gone: bool)
      requires job.Delete? && t in left && At(Sweep(left, ok))
      modifies this`staged, this`acts, this`last, this`cs
      ensures At(Sweep(left - {t}, ok && gone)) && (reliable ==> gone) && old(acts) <= acts
      ensures staged == if gone then old(staged) - {t} else old(staged)
    {
      hide Recorded, CsInv, Works, Ready;
      gone := RemoveTemp(t);
      Note(Picked(t, gone));
    }

    /** The removals of a delete, each tried whatever came of those before; kept
        are the files whose removal failed. */
    method RemoveAll() returns (ok: bool, ghost kept: set<Suffix>)
      requires job.Delete? && At(Remove(0, true))
      modifies this`files, this`acts, this`last, this`cs
      ensures At(Remove(|REMOVALS|, ok)) && (reliable ==> ok) && (ok <==> kept == {})
      ensures files == Survivors(old(files), kept) && Failing(old(acts), acts, kept, |REMOVALS|)
    {
      hide At, Survivors, Thinned, Failing;
      ok, kept := true, {};
      ghost var before, done := files, acts;
      var i := 0;
      NothingThinned(before, done);
      while i < |REMOVALS|
        invariant 0 <= i <= |REMOVALS| && At(Remove(i, ok)) && (reliable ==> ok) && (ok <==> kept == {})
        invariant Thinned(before, files, kept, i) && Failing(done, acts, kept, i) && |acts| == |done| + i
      {
        ThinnedFurther(before, files, kept, i);
        FailingFurther(done, acts, before, files, kept, i);
        var gone := RemoveNext(i, ok);
        if !gone { ok, kept := false, kept + {REMOVALS[i]}; }
        i := i + 1;
      }
      AllRemovals(before, files, kept);
    }

    lemma NothingStays(ok: bool)
      requires At(Leave(ok))
      ensures ok ==> files == map[] && staged == map[]
    {
    }

    /** The locked part of a delete: removes what it can and goes on. Exactly the
        files whose removal failed survive; the removal of the cache is tried
        whatever came before. */
    method DeleteLocked(cache: Cache) returns (ok: bool, ghost kept: set<Suffix>)
      requires job.Delete? && At(Begin(job))
      modifies this, cache
      ensures At(Leave(ok))
      ensures files == Survivors(old(files), kept) && Failing(old(acts), acts, kept, |REMOVALS|)
      ensures ok ==> files == map[] && staged == map[] && kept == {} && !cache.there
      ensures reliable && cache.reliable ==> ok
      ensures cache.reliable ==> !cache.there
      ensures forall t | t in staged :: t in old(staged) && staged[t] == old(staged)[t]
    {
      hide Recorded, CsInv, Works, Ready, Survivors, Failing;
      ghost var done := acts;
      ok, kept := RemoveAll();
      ghost var removed := acts;
      var listed := *;
      if listed || reliable {
        Note(Go);
        ok := SweepStaged(ok, cache);
        NothingStays(ok);
      } else {
        Note(Decline);
        ok := false;
        var cacheGone := cache.RemoveAll();
      }
      FailingStill(done, removed, acts, kept);
    }

    /** Removes the temporaries that crashed runs left behind, then the
        downloaded source. */
    method SweepStaged(sofar: bool, cache: Cache) returns (ok: bool)
      requires job.Delete? && At(Sweep(staged.Keys, sofar))
      modifies this`staged, this`acts, this`last, this`cs, cache
      ensures At(Leave(ok)) && (reliable && cache.reliable && sofar ==> ok) && (ok ==> sofar) && old(acts) <= acts
      ensures ok || cache.reliable ==> !cache.there
      ensures forall t | t in staged :: t in old(staged) && staged[t] == old(staged)[t]
    {
      hide Recorded, CsInv, Works, Ready;
      ok := sofar;
      ghost var had := staged;
      var left := staged.Keys;
      while left != {}
        invariant At(Sweep(left, ok)) && (reliable && sofar ==> ok) && (ok ==> sofar) && old(acts) <= acts
        invariant forall t | t in staged :: t in had && staged[t] == had[t]
        decreases |left|
      {
        var t :| t in left;
        var gone := SweepNext(t, left, ok);
        ok, left := ok && gone, left - {t};
      }
      var cacheGone := cache.RemoveAll();
      if cacheGone { Note(Go); } else { Note(Decline); }
      ok := ok && cacheGone;
    }
  }

  /** The files left after the first i removals, those of kept having failed. */
  predicate Thinned(before: Files, f: Files, kept: set<Suffix>, i: nat)
    requires i <= |REMOVALS|
  {
    && (forall x :: x in f <==> x in before && (x in kept || x !in REMOVALS[..i]))
    && (forall x | x in f :: f[x] == before[x])
    && (forall x | x in kept :: x in REMOVALS[..i])
  }

  /** Of the first n removals, which followed the operations before, exactly
      those of kept failed. */
  predicate Failing(before: seq<Act>, acts: seq<Act>, kept: set<Suffix>, n: nat)
    requires n <= |REMOVALS|
  {
    && before <= acts && |before| + n <= |acts|
    && forall j | 0 <= j < n :: REMOVALS[j] in kept <==> acts[|before| + j] == Decline
  }

  lemma NothingThinned(f: Files, acts: seq<Act>)
    ensures Thinned(f, f, {}, 0) && Failing(acts, acts, {}, 0)
  {
  }

  lemma EachOnce(i: nat, j: nat)
    requires j < i < |REMOVALS|
    ensures REMOVALS[j] != REMOVALS[i]
  {
  }

  lemma FailingFurther(before: seq<Act>, acts: seq<Act>, f: Files, g: Files, kept: set<Suffix>, i: nat)
    requires i < |REMOVALS| && Thinned(f, g, kept, i)
    requires Failing(before, acts, kept, i) && |acts| == |before| + i
    ensures Failing(before, acts + [Go], kept, i + 1)
    ensures Failing(before, acts + [Decline], kept + {REMOVALS[i]}, i + 1)
  {
    forall j | 0 <= j < i ensures REMOVALS[j] != REMOVALS[i] { EachOnce(i, j); }
    assert REMOVALS[i] !in REMOVALS[..i];
  }

  lemma FailingStill(before: seq<Act>, acts: seq<Act>, more: seq<Act>, kept: set<Suffix>)
    requires Failing(before, acts, kept, |REMOVALS|) && acts <= more
    ensures Failing(before, more, kept, |REMOVALS|)
  {
  }

  lemma ThinnedFurther(before: Files, f: Files, kept: set<Suffix>, i: nat)
    requires i < |REMOVALS| && Thinned(before, f, kept, i)
    ensures Thinned(before, f - {REMOVALS[i]}, kept, i + 1)
    ensures Thinned(before, f, kept + {REMOVALS[i]}, i + 1)
  {
    assert REMOVALS[..i + 1] == REMOVALS[..i] + [REMOVALS[i]];
    assert REMOVALS[i] !in REMOVALS[..i];
  }

  lemma AllRemovals(before: Files, f: Files, kept: set<Suffix>)
    requires Thinned(before, f, kept, |REMOVALS|)
    ensures f == Survivors(before, kept)
  {
    forall x
      ensures x in REMOVALS[..|REMOVALS|]
    {
      RemovalsAreAll(x);
    }
  }

  lemma {:induction false} Bound(taken: set<nat>) returns (m: nat)
    ensures forall t | t in taken :: t < m
  {
    if taken == {} {
      m := 0;
    } else {
      var t :| t in taken;
      var n := Bound(taken - {t});
      assert forall u | u in taken :: u == t || u in taken - {t};
      m := if n <= t then t + 1 else n;
    }
  }

  lemma SomeNameIsFree(taken: set<nat>)
    ensures exists t: nat :: t !in taken
  {
    var m := Bound(taken);
    assert m !in taken;
  }

  lemma SeenAll(f: Files, seen: set<Suffix>)
    requires SeenUpTo(f, |STATS|, seen)
    ensures seen == Present(f)
  {
    assert STATS[0] == Mpk && STATS[1] == Info && STATS[2] == Emwp && STATS[3] == EmwpInfo;
    forall x ensures x in seen <==> x in Present(f) {
    }
  }
}
