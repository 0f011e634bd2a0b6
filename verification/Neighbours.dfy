/** Two identities side by side: when the files and the caches of the one are
    apart from those of the other. */
module Neighbours {
  import opened Reference
  import opened StagedNames

  // ---- Which paths an identity uses ----

  /** A path below the output or the cache directory, by its elements. */
  type Path = seq<string>

  function Elements(name: string): Path { Split(name, '/') }

  /** A file name that packing or deleting the revision uses. */
  predicate UsesLeaf(revision: string, leaf: string) {
    (exists s | s in FILE_SUFFIXES :: leaf == revision + s) || IsStagedLeftover(leaf, revision)
  }

  lemma TemporariesAreUsed(revision: string, suffix: string, random: string)
    requires suffix != "" && suffix[0] == '.'
    ensures UsesLeaf(revision, StagedName(revision, suffix, random))
  {
    assert suffix == "." + suffix[1..];
    assert StagedName(revision, suffix, random) == (revision + "..staged.") + (suffix[1..] + "." + random);
  }

  /** One path leads through the other, or they are the same. */
  predicate Meet(a: Path, b: Path) { a <= b || b <= a }

  /** No file of one identity is a file, or a directory on the way to a file, of
      the other; and neither's cache lies in the other's. */
  ghost predicate Apart(n1: string, r1: string, n2: string, r2: string) {
    && (forall l1, l2 | UsesLeaf(r1, l1) && UsesLeaf(r2, l2) :: !Meet(Elements(n1) + [l1], Elements(n2) + [l2]))
    && !Meet(Elements(n1) + [r1], Elements(n2) + [r2])
  }

  /** The name n2 leads through a file or through the cache of the first identity. */
  predicate LeadsThrough(n1: string, r1: string, n2: string) {
    var a, b := Elements(n1), Elements(n2);
    |a| < |b| && a <= b && (b[|a|] == r1 || UsesLeaf(r1, b[|a|]))
  }

  lemma ElementsTell(n1: string, n2: string)
    ensures Elements(n1) == Elements(n2) ==> n1 == n2
  {
    JoinSplit(n1, '/');
    JoinSplit(n2, '/');
  }

  /** Two revisions of one model use one file name exactly in the known case. */
  lemma SharedLeaves(r1: string, r2: string, leaf: string)
    requires RevisionOk(r1) && RevisionOk(r2) && r1 != r2 && UsesLeaf(r1, leaf) && UsesLeaf(r2, leaf)
    ensures r1 == r2 + ".emwp" || r2 == r1 + ".emwp"
  {
    if IsStagedLeftover(leaf, r1) && IsStagedLeftover(leaf, r2) {
      assert r1 + "..staged." == (r1 + ".." + ['s']) + "taged." && r2 + "..staged." == (r2 + ".." + ['s']) + "taged.";
      OneContinuation(leaf, r1, r2, 's', 's');
    } else if IsStagedLeftover(leaf, r1) {
      var s :| s in FILE_SUFFIXES && leaf == r2 + s;
      FilesAreNotLeftovers(r2, r1, s);
    } else if IsStagedLeftover(leaf, r2) {
      var s :| s in FILE_SUFFIXES && leaf == r1 + s;
      FilesAreNotLeftovers(r1, r2, s);
    } else {
      SharedPaths(r1, r2);
    }
  }

  predicate Leads(n1: string, n2: string, x: string) {
    |Elements(n1)| < |Elements(n2)| && Elements(n1) <= Elements(n2) && Elements(n2)[|Elements(n1)|] == x
  }

  /** Paths of two identities meet within one model at a common file name, and
      between models only where one name leads through a path of the other. */
  lemma MeetingPaths(n1: string, x: string, n2: string, y: string)
    requires Meet(Elements(n1) + [x], Elements(n2) + [y])
    ensures (n1 == n2 && x == y) || Leads(n1, n2, x) || Leads(n2, n1, y)
  {
    var a, b := Elements(n1), Elements(n2);
    ElementsTell(n1, n2);
    if |a| == |b| {
      assert (a + [x])[..|a|] == a && (b + [y])[..|b|] == b && (a + [x])[|a|] == x && (b + [y])[|b|] == y;
    } else if |a| < |b| {
      assert a + [x] <= b + [y];
      assert a == (a + [x])[..|a|] == (b + [y])[..|a|] == b[..|a|] && (a + [x])[|a|] == (b + [y])[|a|];
    } else {
      assert b + [y] <= a + [x];
      assert b == (b + [y])[..|b|] == (a + [x])[..|b|] == a[..|b|] && (b + [y])[|b|] == (a + [x])[|b|];
    }
  }

  lemma LeadingMeets(n1: string, x: string, n2: string, y: string)
    requires |Elements(n1)| < |Elements(n2)| && Elements(n1) <= Elements(n2) && Elements(n2)[|Elements(n1)|] == x
    ensures Meet(Elements(n1) + [x], Elements(n2) + [y])
  {
    var a, b := Elements(n1), Elements(n2);
    assert b[..|a| + 1] == a + [x];
    assert a + [x] <= b + [y];
  }

  lemma SomeLeaf(r: string)
    ensures UsesLeaf(r, r + ".mpk")
  {
    assert ".mpk" == FILE_SUFFIXES[0];
  }

  lemma LeadingIsNotApart(n1: string, r1: string, n2: string, r2: string)
    requires LeadsThrough(n1, r1, n2)
    ensures !Apart(n1, r1, n2, r2) && !Apart(n2, r2, n1, r1)
  {
    var x := Elements(n2)[|Elements(n1)|];
    SomeLeaf(r2);
    if x == r1 {
      LeadingMeets(n1, r1, n2, r2);
    } else {
      LeadingMeets(n1, x, n2, r2 + ".mpk");
    }
  }

  /** Two accepted identities have their paths apart exactly if they are not two
      revisions of one model of which one is the other followed by `.emwp`, and
      neither name leads through a file or the cache of the other. */
  lemma IdentitiesApart(n1: string, r1: string, n2: string, r2: string)
    requires ValidatePinnedModel(n1, r1) && ValidatePinnedModel(n2, r2) && (n1 != n2 || r1 != r2)
    ensures Apart(n1, r1, n2, r2) <==>
              && !(n1 == n2 && (r1 == r2 + ".emwp" || r2 == r1 + ".emwp"))
              && !LeadsThrough(n1, r1, n2) && !LeadsThrough(n2, r2, n1)
  {
    if LeadsThrough(n1, r1, n2) {
      LeadingIsNotApart(n1, r1, n2, r2);
    } else if LeadsThrough(n2, r2, n1) {
      LeadingIsNotApart(n2, r2, n1, r1);
    } else {
      NotLeading(n1, r1, n2, r2);
    }
  }

  lemma NotThrough(n1: string, r1: string, n2: string, leaf: string)
    requires !LeadsThrough(n1, r1, n2) && UsesLeaf(r1, leaf)
    ensures !Leads(n1, n2, leaf)
  {
    hide Elements, UsesLeaf;
  }

  lemma LeavesMeeting(n1: string, r1: string, n2: string, r2: string, l1: string, l2: string)
    requires RevisionOk(r1) && RevisionOk(r2) && (n1 != n2 || r1 != r2)
    requires !LeadsThrough(n1, r1, n2) && !LeadsThrough(n2, r2, n1)
    requires UsesLeaf(r1, l1) && UsesLeaf(r2, l2) && Meet(Elements(n1) + [l1], Elements(n2) + [l2])
    ensures n1 == n2 && (r1 == r2 + ".emwp" || r2 == r1 + ".emwp")
  {
    hide Elements, UsesLeaf, RevisionOk, LeadsThrough, Meet;
    MeetingPaths(n1, l1, n2, l2);
    NotThrough(n1, r1, n2, l1);
    NotThrough(n2, r2, n1, l2);
    SharedLeaves(r1, r2, l1);
  }

  lemma CachesMeeting(n1: string, r1: string, n2: string, r2: string)
    requires n1 != n2 || r1 != r2
    requires !LeadsThrough(n1, r1, n2) && !LeadsThrough(n2, r2, n1)
    ensures !Meet(Elements(n1) + [r1], Elements(n2) + [r2])
  {
    if Meet(Elements(n1) + [r1], Elements(n2) + [r2]) {
      MeetingPaths(n1, r1, n2, r2);
    }
  }

  /** A common file of two revisions of one model. */
  lemma CommonLeaf(n: string, r1: string, r2: string)
    requires r1 == r2 + ".emwp" || r2 == r1 + ".emwp"
    ensures !Apart(n, r1, n, r2)
  {
    assert |r1| != |r2|;
    SharedPaths(r1, r2);
    var s, t :| s in FILE_SUFFIXES && t in FILE_SUFFIXES && r1 + s == r2 + t;
    assert UsesLeaf(r1, r1 + s) && UsesLeaf(r2, r2 + t);
    assert Meet(Elements(n) + [r1 + s], Elements(n) + [r2 + t]);
  }

  lemma NotLeading(n1: string, r1: string, n2: string, r2: string)
    requires RevisionOk(r1) && RevisionOk(r2) && (n1 != n2 || r1 != r2)
    requires !LeadsThrough(n1, r1, n2) && !LeadsThrough(n2, r2, n1)
    ensures Apart(n1, r1, n2, r2) <==> !(n1 == n2 && (r1 == r2 + ".emwp" || r2 == r1 + ".emwp"))
  {
    hide Elements, UsesLeaf, RevisionOk, LeadsThrough, Meet;
    CachesMeeting(n1, r1, n2, r2);
    if n1 == n2 && (r1 == r2 + ".emwp" || r2 == r1 + ".emwp") {
      CommonLeaf(n1, r1, r2);
    } else {
      forall l1, l2 | UsesLeaf(r1, l1) && UsesLeaf(r2, l2)
        ensures !Meet(Elements(n1) + [l1], Elements(n2) + [l2])
      {
        if Meet(Elements(n1) + [l1], Elements(n2) + [l2]) {
          LeavesMeeting(n1, r1, n2, r2, l1, l2);
        }
      }
    }
  }

  /** The cache of an accepted identity can lie in that of another: deleting the
      other removes it, under another lock. */
  lemma CacheInCache()
    ensures ValidatePinnedModel("m", "x") && ValidatePinnedModel("m/x", "y") && LeadsThrough("m", "x", "m/x")
    ensures Elements("m") + ["x"] <= Elements("m/x") + ["y"]
  {
    SplitPart("m", '/');
    SplitPart("x", '/');
    assert "m" + ['/'] + "x" == "m/x";
    SplitHead("m", "x", '/');
    NoTwoDots("x");
    NoTwoDots("y");
    assert Elements("m/x") == ["m", "x"] && "m/x" + "y" == "m/xy" && "m" + "x" == "mx";
  }
}
