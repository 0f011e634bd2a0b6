/** Names of model revisions and of their files: which revisions are accepted,
    and when a file of one could be taken for a file of another. */
module StagedNames {
  import opened Reference
  import opened Wrappers

  predicate HasPrefix(s: string, prefix: string) { prefix <= s }

  predicate Contains(s: string, sub: string) {
    exists i | 0 <= i <= |s| :: sub <= s[i..]
  }

  predicate SegmentOk(segment: string) {
    segment != "" && segment != "." && segment != ".." && '\\' !in segment
  }

  predicate RevisionOk(revision: string) {
    && !Contains(revision, "..")
    && '/' !in revision && '\\' !in revision
    && revision != "." && revision != ""
  }

  /** The one gate for model identities, at packing and at deletion. */
  predicate ValidatePinnedModel(name: string, revision: string) {
    && (forall c | c in "*?[" :: c !in name + revision)
    && RevisionOk(revision)
    && (forall i | 0 <= i < |Split(name, '/')| :: SegmentOk(Split(name, '/')[i]))
  }

  /** What stands before and after the first separator, if there is one. */
  function Cut(s: string, sep: char): Option<(string, string)> {
    if s == "" then None
    else if s[0] == sep then Some(("", s[1..]))
    else
      match Cut(s[1..], sep)
      case None => None
      case Some((before, after)) => Some(([s[0]] + before, after))
  }

  function SplitPinnedModel(model: string): Result<(string, string)> {
    match Cut(model, '@')
    case None => Err
    case Some((name, revision)) =>
      if name == "" || revision == "" then Err
      else if !ValidatePinnedModel(name, revision) then Err
      else Ok((name, revision))
  }

  lemma {:induction false} CutAtFirst(s: string, sep: char, before: string, after: string)
    ensures Cut(s, sep) == Some((before, after)) <==> s == before + [sep] + after && sep !in before
    decreases |s|
  {
    if s == "" {
    } else if s[0] == sep {
      if s == before + [sep] + after && sep !in before {
        assert before == "";
      }
    } else {
      if before == "" {
        assert Cut(s, sep) != Some((before, after));
      } else {
        CutAtFirst(s[1..], sep, before[1..], after);
        if Cut(s, sep) == Some((before, after)) {
          var (b, a) := Cut(s[1..], sep).value;
          assert before[1..] == b;
          assert s == [s[0]] + s[1..];
        }
        if s == before + [sep] + after && sep !in before {
          assert s[1..] == before[1..] + [sep] + after;
          assert [s[0]] + before[1..] == before;
        }
      }
    }
  }

  /** Exactly the pinned, valid identities are accepted, and split back into
      what they were made of: a revision may itself contain the separator. */
  lemma SplitPinnedRoundTrip(model: string, name: string, revision: string)
    ensures SplitPinnedModel(model) == Ok((name, revision)) <==>
              model == name + "@" + revision && '@' !in name && name != "" && ValidatePinnedModel(name, revision)
  {
    CutAtFirst(model, '@', name, revision);
  }

  // ---- Staged names ----

  /** The name of a temporary for the file base+suffix; random is what the
      exclusive create puts for the asterisk. */
  function StagedName(revision: string, suffix: string, random: string): string {
    revision + "..staged" + suffix + "." + random
  }

  predicate IsStagedLeftover(name: string, revision: string) {
    var prefix := revision + "..staged.";
    HasPrefix(name, prefix) && |name| > |prefix|
  }

  /** A leftover is the revision, the token, and at least one more character. */
  lemma LeftoverExactly(name: string, revision: string)
    ensures IsStagedLeftover(name, revision) <==> exists rest :: rest != "" && name == revision + "..staged." + rest
  {
    var prefix := revision + "..staged.";
    assert prefix <= name ==> name == prefix + name[|prefix|..];
  }

  lemma TwoDots(s: string, i: nat)
    requires i + 1 < |s| && s[i] == '.' && s[i + 1] == '.'
    ensures Contains(s, "..")
  {
    assert ".." <= s[i..];
  }

  lemma NoTwoDots(s: string)
    requires forall i, j | 0 <= i < |s| && j == i + 1 < |s| :: s[i] != '.' || s[j] != '.'
    ensures !Contains(s, "..")
  {
    forall i | 0 <= i <= |s|
      ensures !(".." <= s[i..])
    {
      if i + 1 < |s| {
        assert s[i..][0] == s[i] && s[i..][1] == s[i + 1];
      }
    }
  }

  /** Where a name continues a revision with two dots and a letter, no other
      accepted revision is continued like that: this holds also for revisions
      that end in a dot, where the first two dots of the name are not the ones
      that end the revision. */
  lemma OneContinuation(name: string, r1: string, r2: string, c1: char, c2: char)
    requires RevisionOk(r1) && RevisionOk(r2) && c1 != '.' && c2 != '.'
    requires HasPrefix(name, r1 + ".." + [c1]) && HasPrefix(name, r2 + ".." + [c2])
    ensures r1 == r2
  {
    var p1, p2 := r1 + ".." + [c1], r2 + ".." + [c2];
    assert name[|r1|] == p1[|r1|] && name[|r1| + 1] == p1[|r1| + 1] && name[|r1| + 2] == p1[|r1| + 2];
    assert name[|r2|] == p2[|r2|] && name[|r2| + 1] == p2[|r2| + 1] && name[|r2| + 2] == p2[|r2| + 2];
    assert r1 == name[..|r1|] && r2 == name[..|r2|] by {
      assert p1[..|r1|] == r1 && p2[..|r2|] == r2;
    }
    if |r1| + 2 <= |r2| {
      TwoDots(r2, |r1|);
    } else if |r2| + 2 <= |r1| {
      TwoDots(r1, |r2|);
    }
  }

  /** A temporary of one accepted revision is a leftover of another exactly if
      they are the same revision. */
  lemma StagedIsolation(r1: string, r2: string, suffix: string, random: string)
    requires RevisionOk(r1) && RevisionOk(r2)
    requires suffix != "" && suffix[0] == '.' && random != ""
    ensures IsStagedLeftover(StagedName(r1, suffix, random), r2) <==> r1 == r2
  {
    var name := StagedName(r1, suffix, random);
    if IsStagedLeftover(name, r2) {
      assert name == (r1 + ".." + ['s']) + ("taged" + suffix + "." + random);
      assert r2 + "..staged." == (r2 + ".." + ['s']) + "taged.";
      assert HasPrefix(name, r2 + ".." + ['s']);
      OneContinuation(name, r1, r2, 's', 's');
    }
    if r1 == r2 {
      assert suffix == "." + suffix[1..];
      assert name == (r1 + "..staged.") + (suffix[1..] + "." + random);
    }
  }

  // ---- Published names ----

  const FILE_SUFFIXES: seq<string> :=
    [".mpk", ".info", ".emwp", ".emwp.info", ".schema", ".lock",
     ".mpk.tmp", ".info.tmp", ".emwp.tmp", ".emwp.info.tmp", ".emwp.verify.tmp"]

  /** No file of an accepted revision is ever taken for a leftover, of its own
      or any other accepted revision. */
  lemma FilesAreNotLeftovers(r1: string, r2: string, suffix: string)
    requires RevisionOk(r1) && RevisionOk(r2) && suffix in FILE_SUFFIXES
    ensures !IsStagedLeftover(r1 + suffix, r2)
  {
    var name, n := r1 + suffix, |r2|;
    if IsStagedLeftover(name, r2) {
      var p := r2 + "..staged.";
      assert name[n] == p[n] && name[n + 1] == p[n + 1] && name[n + 2] == p[n + 2] && name[n + 3] == p[n + 3];
      if n + 2 <= |r1| {
        TwoDots(r1, n);
      }
    }
  }

  /** b ends with a. */
  predicate EndsWith(b: string, a: string) {
    |a| <= |b| && b[|b| - |a|..] == a
  }

  /** The only suffixes of which one ends with another. */
  predicate Nested(a: string, b: string) {
    (a == ".info" && b == ".emwp.info") || (a == ".info.tmp" && b == ".emwp.info.tmp")
  }

  lemma NestedShort(a: string, b: string)
    requires a in FILE_SUFFIXES && b in [".mpk", ".info", ".emwp", ".schema", ".lock"] && a != b
    ensures !EndsWith(b, a)
  {
  }

  lemma NestedLong(a: string, b: string)
    requires a in FILE_SUFFIXES && a != b && b in [".emwp.info", ".emwp.tmp"]
    ensures EndsWith(b, a) <==> Nested(a, b)
  {
  }

  lemma NestedTmp(a: string, b: string)
    requires a in FILE_SUFFIXES && a != b && b in [".mpk.tmp", ".info.tmp"]
    ensures EndsWith(b, a) <==> Nested(a, b)
  {
  }

  lemma NestedLongest(a: string, b: string)
    requires a in FILE_SUFFIXES && a != b && b in [".emwp.info.tmp", ".emwp.verify.tmp"]
    ensures EndsWith(b, a) <==> Nested(a, b)
  {
  }

  lemma NestedSuffixes(a: string, b: string)
    requires a in FILE_SUFFIXES && b in FILE_SUFFIXES && a != b
    ensures EndsWith(b, a) <==> Nested(a, b)
  {
    if b in [".mpk", ".info", ".emwp", ".schema", ".lock"] {
      NestedShort(a, b);
    } else if b in [".emwp.info", ".emwp.tmp"] {
      NestedLong(a, b);
    } else if b in [".mpk.tmp", ".info.tmp"] {
      NestedTmp(a, b);
    } else {
      NestedLongest(a, b);
    }
  }

  lemma SharedPathOneWay(r1: string, r2: string, a: string, b: string)
    requires a in FILE_SUFFIXES && b in FILE_SUFFIXES && r1 + a == r2 + b && |a| < |b|
    ensures r1 == r2 + ".emwp" && Nested(a, b)
  {
    var path := r1 + a;
    assert path[|r1|..] == a && path[|r2|..] == b;
    assert b[|b| - |a|..] == a by { assert path[|r2|..][|b| - |a|..] == path[|r1|..]; }
    NestedSuffixes(a, b);
    assert b[..5] == ".emwp";
    assert r1 == path[..|r1|] && r2 == path[..|r2|];
    assert path[|r2|..][..5] == path[|r2|..|r1|];
  }

  lemma DifferentLengths(r1: string, r2: string, a: string, b: string)
    requires r1 != r2 && r1 + a == r2 + b
    ensures |a| != |b|
  {
    assert r1 == (r1 + a)[..|r1|] && r2 == (r2 + b)[..|r2|];
  }

  /** Two revisions share the path of some file exactly if one is the other
      followed by `.emwp`: the plaintext reference of the longer is then the
      encrypted reference of the shorter. */
  lemma SharedPaths(r1: string, r2: string)
    requires r1 != r2
    ensures (exists a, b | a in FILE_SUFFIXES && b in FILE_SUFFIXES :: r1 + a == r2 + b)
       <==> r1 == r2 + ".emwp" || r2 == r1 + ".emwp"
  {
    forall a, b | a in FILE_SUFFIXES && b in FILE_SUFFIXES && r1 + a == r2 + b
      ensures r1 == r2 + ".emwp" || r2 == r1 + ".emwp"
    {
      DifferentLengths(r1, r2, a, b);
      if |a| < |b| {
        SharedPathOneWay(r1, r2, a, b);
      } else {
        SharedPathOneWay(r2, r1, b, a);
      }
    }
    assert ".info" == FILE_SUFFIXES[1] && ".emwp.info" == FILE_SUFFIXES[3];
    if r1 == r2 + ".emwp" {
      assert r1 + ".info" == r2 + ".emwp.info";
    }
    if r2 == r1 + ".emwp" {
      assert r1 + ".emwp.info" == r2 + ".info";
    }
  }

  /** Both of two such revisions can be accepted, and their locks differ. What
      deleting one then does to the other is SharedDirectory.DeleteReachesOver. */
  lemma SharedPathsAreAccepted()
    ensures ValidatePinnedModel("m", "foo") && ValidatePinnedModel("m", "foo.emwp")
    ensures "foo" + ".emwp.info" == "foo.emwp" + ".info" && "foo" + ".lock" != "foo.emwp" + ".lock"
  {
    SplitPart("m", '/');
    NoTwoDots("foo");
    NoTwoDots("foo.emwp");
    assert "m" + "foo" == "mfoo" && "m" + "foo.emwp" == "mfoo.emwp";
  }

  /** Without the rule against two dots the grammar is ambiguous: a published
      file of such a revision passes for a leftover of another. */
  lemma TwoDotsWouldAlias()
    ensures !RevisionOk("x..staged") && IsStagedLeftover("x..staged" + ".mpk", "x")
  {
    TwoDots("x..staged", 1);
  }
}
