/** Removing the directories that a deletion has left empty. */
module Prune {
  /** A cleaned path: absolute or not, and its elements; the root and the
      current directory have none. */
  datatype Path = Path(absolute: bool, elements: seq<string>)

  function Parent(p: Path): Path {
    if p.elements == [] then p else p.(elements := p.elements[..|p.elements| - 1])
  }

  /** The k-th directory up from p. */
  function Up(p: Path, k: nat): Path
    requires k <= |p.elements|
  {
    p.(elements := p.elements[..|p.elements| - k])
  }

  predicate Under(p: Path, top: Path) {
    p.absolute == top.absolute && top.elements <= p.elements && p != top
  }

  /** A path is in a directory if it has one element more. */
  lemma InDirectory(p: Path, dir: Path)
    ensures p.elements != [] && Parent(p) == dir <==>
              exists e :: p.elements == dir.elements + [e] && p.absolute == dir.absolute
  {
    if p.elements != [] {
      var last := |p.elements| - 1;
      assert p.elements == p.elements[..last] + [p.elements[last]];
    }
  }

  /** A path is under another if it has some elements more. */
  lemma UnderExactly(p: Path, top: Path)
    ensures Under(p, top) <==>
              exists more :: more != [] && p.elements == top.elements + more && p.absolute == top.absolute
  {
    if Under(p, top) {
      assert p.elements == top.elements + p.elements[|top.elements|..];
    }
  }

  /** A directory holds nothing. */
  predicate Empty(tree: set<Path>, dir: Path) {
    forall p | p in tree && p.elements != [] :: Parent(p) != dir
  }

  /** What is left of a tree without the n directories from dir upwards. */
  function Without(tree: set<Path>, dir: Path, n: nat): set<Path>
    requires n <= |dir.elements|
  {
    tree - set k | 0 <= k < n :: Up(dir, k)
  }

  /** n directories are gone, from start upwards: each was there and held at
      most the one below it, and none of them is stop, the root or the current
      directory, nor anything that is not below stop if start is. */
  ghost predicate Pruned(before: set<Path>, now: set<Path>, start: Path, stop: Path, n: nat) {
    && n <= |start.elements| && now == Without(before, start, n)
    && (forall k | 0 <= k < n :: Up(start, k) in before && Up(start, k) != stop && Up(start, k).elements != [])
    && (forall p, k | p in before && 0 <= k < n && p.elements != [] && Parent(p) == Up(start, k) ::
          k > 0 && p == Up(start, k - 1))
    && (Under(start, stop) ==>
          |stop.elements| <= |start.elements| - n && forall k | 0 <= k < n :: Under(Up(start, k), stop))
  }

  lemma NothingPruned(tree: set<Path>, start: Path, stop: Path)
    ensures Pruned(tree, tree, start, stop, 0)
  {
  }

  lemma PrunedFurther(before: set<Path>, now: set<Path>, start: Path, stop: Path, n: nat)
    requires Pruned(before, now, start, stop, n) && n < |start.elements|
    requires Up(start, n) != stop && Up(start, n) in now && Empty(now, Up(start, n))
    ensures Pruned(before, now - {Up(start, n)}, start, stop, n + 1)
  {
    var dir := Up(start, n);
    forall p | p in before && p.elements != [] && Parent(p) == dir
      ensures n > 0 && p == Up(start, n - 1)
    {
      assert p !in now;
      var k :| 0 <= k < n && p == Up(start, k);
      assert Parent(p) == Up(start, k + 1);
    }
    if Under(start, stop) {
      assert |stop.elements| < |dir.elements| by {
        assert |stop.elements| == |dir.elements| ==> dir == stop;
      }
      assert Under(dir, stop);
    }
  }

  class FileTree {
    /** No removal of a directory that is there and empty ever fails. */
    const reliable: bool
    var tree: set<Path>

    constructor (tree: set<Path>, reliable: bool)
      ensures this.tree == tree && this.reliable == reliable
    {
      this.tree, this.reliable := tree, reliable;
    }

    /** Removes a directory if it is there and empty; may fail besides. */
    method RemoveDir(dir: Path) returns (ok: bool)
      modifies this
      ensures ok ==> dir in old(tree) && Empty(old(tree), dir) && tree == old(tree) - {dir}
      ensures !ok ==> tree == old(tree)
      ensures reliable && dir in old(tree) && Empty(old(tree), dir) ==> ok
    {
      ok := *;
      if reliable { ok := true; }
      if dir !in tree || !(forall p | p in tree && p.elements != [] :: Parent(p) != dir) { ok := false; }
      if ok { tree := tree - {dir}; }
    }

    /** Goes up from start and removes directories until one cannot be removed
        or stop is reached. */
    method PruneEmptyParents(start: Path, stop: Path) returns (ghost n: nat)
      modifies this
      ensures Pruned(old(tree), tree, start, stop, n)
      ensures reliable ==>
                var dir := Up(start, n);
                dir == stop || dir.elements == [] || dir !in tree || !Empty(tree, dir)
    {
      hide Pruned;
      var dir := start;
      n := 0;
      NothingPruned(tree, start, stop);
      while dir != stop && dir.elements != []
        invariant n <= |start.elements| && dir == Up(start, n)
        invariant Pruned(old(tree), tree, start, stop, n)
        decreases |dir.elements|
      {
        ghost var now := tree;
        var ok := RemoveDir(dir);
        if !ok { return; }
        PrunedFurther(old(tree), now, start, stop, n);
        dir := Parent(dir);
        n := n + 1;
      }
    }
  }
}
