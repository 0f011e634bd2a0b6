/** The revisions of one model share a directory: what one revision's processes
    see of another's, each under its own lock. */
module SharedDirectory {
  import opened ArtifactLock
  import opened LockedSteps
  import opened LostDirectory
  import opened Mixing
  import opened StagedNames
  import opened Store
  import opened StoreOps
  import opened StoreSafety

  function NameOf(x: Suffix): string {
    match x
    case Mpk => FILE_SUFFIXES[0]
    case Info => FILE_SUFFIXES[1]
    case Emwp => FILE_SUFFIXES[2]
    case EmwpInfo => FILE_SUFFIXES[3]
    case Schema => FILE_SUFFIXES[4]
    case MpkTmp => FILE_SUFFIXES[6]
    case InfoTmp => FILE_SUFFIXES[7]
    case EmwpTmp => FILE_SUFFIXES[8]
    case EmwpInfoTmp => FILE_SUFFIXES[9]
    case EmwpVerifyTmp => FILE_SUFFIXES[10]
  }

  lemma NamesAreSuffixes(x: Suffix)
    ensures NameOf(x) in FILE_SUFFIXES
  {
  }

  /** The files in the directory, by name. */
  type Names = map<string, Doc>

  /** What the processes of a revision see of them. */
  function View(dir: Names, r: string): Files {
    map x: Suffix | r + NameOf(x) in dir :: dir[r + NameOf(x)]
  }

  /** Only files with names of the revision have changed. */
  ghost predicate OnlyNamesOf(dir: Names, dir': Names, r: string) {
    forall n: string | (forall x: Suffix :: n != r + NameOf(x)) ::
      (n in dir <==> n in dir') && (n in dir ==> dir'[n] == dir[n])
  }

  /** The frame between two revisions: unless one is the other followed by
      `.emwp`, nothing one does is seen by the other. */
  lemma OthersAreUnseen(dir: Names, dir': Names, r1: string, r2: string)
    requires OnlyNamesOf(dir, dir', r1) && r1 != r2 && r1 != r2 + ".emwp" && r2 != r1 + ".emwp"
    ensures View(dir', r2) == View(dir, r2)
  {
    forall x: Suffix, y: Suffix
      ensures r2 + NameOf(x) != r1 + NameOf(y)
    {
      SharedPaths(r1, r2);
      NamesAreSuffixes(x);
      NamesAreSuffixes(y);
    }
    forall x: Suffix
      ensures x in View(dir, r2) <==> x in View(dir', r2)
      ensures x in View(dir, r2) ==> View(dir', r2)[x] == View(dir, r2)[x]
    {
      var n := r2 + NameOf(x);
      assert forall y: Suffix :: n != r1 + NameOf(y);
    }
  }

  const SET_SUFFIXES: set<string> := {".mpk", ".info", ".emwp", ".emwp.info", ".schema"}

  /** Everything in the directory is an artifact or the sidecar of the revision. */
  predicate SetOf(dir: Names, r: string) {
    forall n | n in dir :: r <= n && n[|r|..] in SET_SUFFIXES
  }

  lemma ReachesInfo(r: string, x: Suffix)
    requires ".emwp" + NameOf(x) in SET_SUFFIXES
    ensures x == Info
  {
    assert (".emwp" + NameOf(x))[5..] == NameOf(x);
  }

  lemma InfoName(r: string)
    ensures r + ".emwp" + NameOf(Info) == r + ".emwp.info"
  {
  }

  /** The longer of two such revisions sees the encrypted reference of the
      shorter as its own plaintext reference, and nothing else of it. */
  lemma WhatTheLongerSees(dir: Names, r: string)
    requires SetOf(dir, r) && r + ".emwp.info" in dir
    ensures View(dir, r + ".emwp") == map[Info := dir[r + ".emwp.info"]]
  {
    hide NameOf, SET_SUFFIXES;
    var other := r + ".emwp";
    InfoName(r);
    forall x | x in View(dir, other)
      ensures x == Info
    {
      var n := other + NameOf(x);
      assert n[|r|..] == ".emwp" + NameOf(x);
      ReachesInfo(r, x);
    }
  }

  /** A complete encrypted set of a revision, alone in the directory. */
  function EncryptedSet(r: string, b: Build): Names {
    map[r + ".mpk" := Image(b), r + ".info" := RefOf(b), r + ".emwp" := Cipher(b),
        r + ".emwp.info" := CipherRef(b), r + ".schema" := SchemaId(b.schema)]
  }

  lemma EncryptedSetOf(r: string, b: Build)
    ensures SetOf(EncryptedSet(r, b), r) && r + ".emwp.info" in EncryptedSet(r, b)
  {
    assert (r + ".mpk")[|r|..] == ".mpk" && (r + ".info")[|r|..] == ".info" && (r + ".emwp")[|r|..] == ".emwp";
    assert (r + ".emwp.info")[|r|..] == ".emwp.info" && (r + ".schema")[|r|..] == ".schema";
  }

  /** A deleter that nobody is in the way of removes all files. */
  lemma DeleterAlone(f: Files) returns (steps: seq<Step>, s: State)
    ensures Runs(Untouched(f, true, [Proc(Delete, Waiting, 0, 0, 0)]), steps, s)
    ensures s.disk == EMPTY && |s.ps| == 1 && s.ps[0].phase == Closed(Deleted(true))
  {
    hide Runs, Works, WorkSteps;
    var s0 := Untouched(f, true, [Proc(Delete, Waiting, 0, 0, 0)]);
    var s1 := GetsIn(s0, 0);
    var acts := DeleteRemovesAll(f);
    var s2 := WorksIsRun(s1, 0, acts, EMPTY, Leave(true));
    var last;
    last, s := Departs(s2, 0, true, false);
    steps := Chained(s0, 0, s1, acts, s2, last, s);
  }

  /** What the longer revision sees gone, the shorter has lost. */
  lemma Reached(dir: Names, r: string)
    requires SetOf(dir, r) && r + ".emwp.info" in dir
    ensures var dir', other := dir - {r + ".emwp.info"}, r + ".emwp";
            && OnlyNamesOf(dir, dir', other) && View(dir', other) == map[]
            && EmwpInfo in View(dir, r) && EmwpInfo !in View(dir', r)
  {
    var dir', other := dir - {r + ".emwp.info"}, r + ".emwp";
    WhatTheLongerSees(dir, r);
    assert other + NameOf(Info) == r + ".emwp.info" == r + NameOf(EmwpInfo);
    forall x: Suffix
      ensures x !in View(dir', other)
    {
      assert x in View(dir', other) ==> x in View(dir, other);
    }
  }

  /** Deleting the longer revision, of which nothing was ever packed, succeeds and
      removes the encrypted reference of the shorter one. Its run is about its own
      lock file only, so it goes through whoever holds the other's. */
  lemma DeleteReachesOver(r: string, b: Build) returns (steps: seq<Step>, s: State)
    ensures var dir, other := EncryptedSet(r, b), r + ".emwp";
            var dir' := dir - {r + ".emwp.info"};
            && Runs(Untouched(View(dir, other), true, [Proc(Delete, Waiting, 0, 0, 0)]), steps, s)
            && |s.ps| == 1 && s.ps[0].phase == Closed(Deleted(true))
            && OnlyNamesOf(dir, dir', other) && View(dir', other) == s.disk.files
            && EmwpInfo in View(dir, r) && EmwpInfo !in View(dir', r)
    ensures r + ".lock" != r + ".emwp" + ".lock"
  {
    hide EncryptedSet, OnlyNamesOf, View, Runs;
    EncryptedSetOf(r, b);
    var dir := EncryptedSet(r, b);
    Reached(dir, r);
    steps, s := DeleterAlone(View(dir, r + ".emwp"));
  }
}
