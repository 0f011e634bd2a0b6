/** Where the paths of a model identity lead: what the gate accepts stays below
    the directories it is joined to. */
module Resolution {
  import opened Neighbours
  import opened Reference
  import opened StagedNames

  import Prune

  /** The directory reached from `at` by one more element of a path: the empty
      element and the dot stay, two dots go up, and the root is its own parent. */
  function Follow(at: Path, element: string): Path {
    if element == "" || element == "." then at
    else if element == ".." then if at == [] then [] else at[..|at| - 1]
    else at + [element]
  }

  function Resolve(base: Path, path: Path): Path {
    if path == [] then base else Follow(Resolve(base, path[..|path| - 1]), path[|path| - 1])
  }

  /** From everywhere the path leads along exactly its own elements. */
  ghost predicate Stays(path: Path) {
    forall base: Path :: Resolve(base, path) == base + path
  }

  lemma {:induction false} ResolvesShorter(base: Path, path: Path)
    ensures |Resolve(base, path)| <= |base| + |path|
  {
    if path != [] { ResolvesShorter(base, path[..|path| - 1]); }
  }

  lemma {:induction false} ResolvesWithout(base: Path, path: Path, i: nat)
    requires i < |path| && path[i] in ["", ".", ".."]
    ensures |Resolve(base, path)| < |base| + |path|
  {
    var before := path[..|path| - 1];
    if i == |path| - 1 {
      ResolvesShorter(base, before);
    } else {
      assert before[i] == path[i];
      ResolvesWithout(base, before, i);
    }
  }

  lemma {:induction false} ResolvesToItself(base: Path, path: Path)
    requires forall i | 0 <= i < |path| :: path[i] != "" && path[i] != "." && path[i] != ".."
    ensures Resolve(base, path) == base + path
  {
    if path == [] {
      assert base + path == base;
    } else {
      var before, last := path[..|path| - 1], path[|path| - 1];
      ResolvesToItself(base, before);
      assert before + [last] == path;
      assert base + path == (base + before) + [last];
    }
  }

  /** Exactly the paths without an element that resolution drops stay. */
  lemma StaysExactly(path: Path)
    ensures Stays(path) <==> forall i | 0 <= i < |path| :: path[i] != "" && path[i] != "." && path[i] != ".."
  {
    if forall i | 0 <= i < |path| :: path[i] != "" && path[i] != "." && path[i] != ".." {
      forall base: Path ensures Resolve(base, path) == base + path { ResolvesToItself(base, path); }
    } else {
      var i :| 0 <= i < |path| && !(path[i] != "" && path[i] != "." && path[i] != "..");
      ResolvesWithout([], path, i);
      assert |Resolve([], path)| < |path|;
      assert Resolve([], path) != [] + path;
    }
  }

  lemma {:induction false} CharOfPart(s: string, sep: char, c: char)
    requires c != sep
    ensures c in s <==> exists i :: 0 <= i < |Split(s, sep)| && c in Split(s, sep)[i]
  {
    var parts := Split(s, sep);
    if s != "" {
      var rest := Split(s[1..], sep);
      CharOfPart(s[1..], sep, c);
      assert s == [s[0]] + s[1..];
      if s[0] == sep {
        assert forall i | 0 <= i < |rest| :: parts[i + 1] == rest[i];
        assert forall i | 0 < i < |parts| :: parts[i] == rest[i - 1];
      } else {
        assert forall i | 0 < i < |parts| :: parts[i] == rest[i];
        assert parts[0] == [s[0]] + rest[0];
        if c == s[0] { assert c in parts[0]; }
      }
    }
  }

  /** The characters that no identity may have. */
  predicate Plain(s: string) {
    forall c | c in s :: c != '*' && c != '?' && c != '[' && c != '\\'
  }

  predicate NoDoubleDot(s: string) {
    forall i, j | 0 <= i < |s| && j == i + 1 < |s| :: s[i] != '.' || s[j] != '.'
  }

  lemma DoubleDots(s: string)
    ensures Contains(s, "..") <==> !NoDoubleDot(s)
  {
    if NoDoubleDot(s) {
      NoTwoDots(s);
    } else {
      var i, j :| 0 <= i < |s| && j == i + 1 < |s| && !(s[i] != '.' || s[j] != '.');
      TwoDots(s, i);
    }
  }

  predicate NoPattern(s: string) { '*' !in s && '?' !in s && '[' !in s }

  lemma PatternCharacters(s: string)
    ensures (forall c | c in "*?[" :: c !in s) <==> NoPattern(s)
  {
    assert "*?["[0] == '*' && "*?["[1] == '?' && "*?["[2] == '[';
  }

  /** No pattern characters in either part, no backslash in any element. */
  lemma PlainParts(name: string, revision: string)
    ensures Plain(name + revision) <==>
              && (forall c | c in "*?[" :: c !in name + revision) && '\\' !in revision
              && forall i | 0 <= i < |Split(name, '/')| :: '\\' !in Split(name, '/')[i]
  {
    hide Split;
    CharOfPart(name, '/', '\\');
    PatternCharacters(name + revision);
    assert '\\' in name + revision <==> '\\' in name || '\\' in revision;
    assert Plain(name + revision) <==> NoPattern(name + revision) && '\\' !in name + revision;
  }

  /** The gate, exactly: an identity is accepted if it has none of the four
      forbidden characters, its revision is one element without two dots in a
      row, and the path of its cache leads along exactly its own elements
      wherever it is joined. */
  lemma AcceptedExactly(name: string, revision: string)
    ensures ValidatePinnedModel(name, revision) <==>
              && Plain(name + revision) && '/' !in revision && NoDoubleDot(revision)
              && Stays(Split(name, '/') + [revision])
  {
    hide Contains, NoDoubleDot, Plain, Stays, Split;
    PlainParts(name, revision);
    DoubleDots(revision);
    var path := Split(name, '/') + [revision];
    StaysExactly(path);
    assert path[|path| - 1] == revision;
    assert forall i | 0 <= i < |Split(name, '/')| :: path[i] == Split(name, '/')[i];
    if NoDoubleDot(revision) { NotDotDot(revision); }
  }

  lemma NotDotDot(s: string)
    requires NoDoubleDot(s)
    ensures s != ".."
  {
    var dots := "..";
    assert dots[0] == '.' && dots[1] == '.';
  }

  /** No file of an accepted identity, and not its cache, is reached outside the
      directory it is joined to; nor is the directory where pruning starts. */
  lemma AcceptedStaysBelow(name: string, revision: string, leaf: string, base: Path)
    requires ValidatePinnedModel(name, revision) && UsesLeaf(revision, leaf)
    ensures Resolve(base, Split(name, '/') + [leaf]) == base + Split(name, '/') + [leaf]
    ensures Resolve(base, Split(name, '/') + [revision]) == base + Split(name, '/') + [revision]
    ensures Resolve(base, Split(name, '/')) == base + Split(name, '/')
    ensures forall absolute :: Prune.Under(Prune.Path(absolute, base + Split(name, '/')), Prune.Path(absolute, base))
  {
    LeafIsNoDots(revision, leaf);
    var path := Split(name, '/');
    ResolvesToItself(base, path);
    ResolvesToItself(base, path + [leaf]);
    ResolvesToItself(base, path + [revision]);
    assert base + (path + [leaf]) == base + path + [leaf] && base + (path + [revision]) == base + path + [revision];
  }

  lemma LeafIsNoDots(revision: string, leaf: string)
    requires RevisionOk(revision) && UsesLeaf(revision, leaf)
    ensures |leaf| > 4 && revision != ".."
  {
    if s: string :| s in FILE_SUFFIXES && leaf == revision + s {
      assert |s| >= 4;
    }
    var dots := "..";
    assert ".." <= dots[0..];
  }
}
