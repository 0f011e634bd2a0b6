/** The files of one model revision: published artifacts, sidecar and staged
    temporaries, what counts as a sound set of them, and how a packer judges
    the set it finds. */
module Store {
  type pos = n: int | 0 < n witness 1

  /** One run of the image builder; what it produces is identified by id, the
      schema it was built under is part of it. */
  datatype Build = Build(id: nat, schema: pos)

  datatype Suffix =
    | Mpk | Info | Emwp | EmwpInfo | Schema
    | MpkTmp | InfoTmp | EmwpTmp | EmwpInfoTmp | EmwpVerifyTmp

  datatype Doc = Image(b: Build) | RefOf(b: Build) | Cipher(b: Build) | CipherRef(b: Build) | SchemaId(n: int) | Junk

  type Files = map<Suffix, Doc>

  /** staged holds the temporaries `<revision>..staged...`, by their random part. */
  datatype Disk = Disk(files: Files, staged: map<nat, Doc>)

  const ARTIFACTS: set<Suffix> := {Mpk, Info, Emwp, EmwpInfo}

  predicate Fits(x: Suffix, doc: Doc) {
    match x
    case Mpk => doc.Image?
    case Info => doc.RefOf?
    case Emwp => doc.Cipher?
    case EmwpInfo => doc.CipherRef?
    case Schema => doc.SchemaId?
    case _ => true
  }

  /** All artifacts present come from one build. */
  predicate OneBuild(f: Files) {
    && (forall x | x in f :: Fits(x, f[x]))
    && (forall x, y | x in ARTIFACTS && y in ARTIFACTS && x in f && y in f :: f[x].b == f[y].b)
  }

  predicate NoArtifact(f: Files) {
    forall x | x in ARTIFACTS :: x !in f
  }

  /** The schema the set is taken to be of; a set without sidecar predates them. */
  function Sidecar(f: Files): int {
    if Schema in f && f[Schema].SchemaId? then f[Schema].n else 1
  }

  /** A complete set is what its sidecar says. */
  predicate SidecarOk(f: Files) {
    Mpk in f && Info in f && f[Mpk].Image? ==> Sidecar(f) == f[Mpk].b.schema
  }

  /** The order in which a set is published and, backwards, removed: everything
      has what it depends on, and the image has the right sidecar. */
  predicate Chain(f: Files) {
    && (EmwpInfo in f ==> Emwp in f)
    && (Emwp in f ==> Info in f)
    && (Info in f ==> Mpk in f)
    && (Mpk in f && f[Mpk].Image? ==> Sidecar(f) == f[Mpk].b.schema)
  }

  lemma ChainIsSidecarOk(f: Files)
    requires Chain(f)
    ensures SidecarOk(f)
  {
  }

  datatype Verdict = Reuse | Fresh | Refuse

  /** The decision on the artifacts seen and the sidecar found. */
  function Judge(seen: set<Suffix>, sidecar: int, want: pos): Verdict {
    if sidecar < 1 then Refuse
    else if seen == {} then Fresh
    else if Mpk !in seen || Info !in seen then Refuse
    else if sidecar != want then Refuse
    else Reuse
  }

  function Present(f: Files): (seen: set<Suffix>)
    ensures seen == {} <==> NoArtifact(f)
  {
    var seen := set x | x in ARTIFACTS && x in f;
    assert NoArtifact(f) ==> seen == {};
    assert seen == {} ==> forall x | x in ARTIFACTS :: x in f ==> x in seen;
    seen
  }

  function VerdictOn(f: Files, want: pos): Verdict {
    Judge(Present(f), Sidecar(f), want)
  }

  /** A complete set of one build made under the given schema. */
  predicate CompleteSet(f: Files, want: pos) {
    && Mpk in f && f[Mpk].Image? && f[Mpk].b.schema == want
    && Info in f && f[Info] == RefOf(f[Mpk].b)
  }

  /** The verdict on a sound set: reuse exactly where there is a complete build
      of the wanted schema, a fresh build only where there is no artifact at
      all, refusal of everything else. */
  lemma VerdictIsSafe(f: Files, want: pos)
    requires OneBuild(f) && SidecarOk(f)
    ensures VerdictOn(f, want) == Reuse <==> CompleteSet(f, want)
    ensures VerdictOn(f, want) == Fresh <==> NoArtifact(f) && Sidecar(f) >= 1
  {
  }

  /** What deleting leaves when exactly the removals of kept fail. */
  function Survivors(f: Files, kept: set<Suffix>): Files {
    map x | x in f && x in kept :: f[x]
  }

  /** Both commit files outlive their sidecar, and the set is not of the schema
      that the absence of a sidecar means. */
  predicate Orphaned(f: Files, kept: set<Suffix>) {
    && Mpk in f && Info in f && Schema in f && f[Mpk].Image?
    && Mpk in kept && Info in kept && Schema !in kept
    && f[Mpk].b.schema != 1
  }

  /** A delete goes on after a removal that fails. Of all the sets of failures,
      exactly those that orphan the commit files leave an unsound set. */
  lemma FailedRemovals(f: Files, kept: set<Suffix>)
    requires OneBuild(f) && SidecarOk(f)
    ensures OneBuild(Survivors(f, kept))
    ensures SidecarOk(Survivors(f, kept)) <==> !Orphaned(f, kept)
  {
    var left := Survivors(f, kept);
    assert Mpk in left <==> Mpk in f && Mpk in kept;
    assert Info in left <==> Info in f && Info in kept;
    assert Schema in left <==> Schema in f && Schema in kept;
  }

  /** An orphaned set is reused by a packer that asks for schema 1, whatever it
      was built under: the mixing the sidecar is there to prevent. */
  lemma OrphanIsMistaken(f: Files, kept: set<Suffix>)
    requires OneBuild(f) && Orphaned(f, kept)
    ensures VerdictOn(Survivors(f, kept), 1) == Reuse
    ensures Mpk in Survivors(f, kept) && Survivors(f, kept)[Mpk].b.schema != 1
  {
    var left := Survivors(f, kept);
    assert Mpk in left && Info in left && Schema !in left;
  }
}
