/** The sequential parts of seeding: verifying one linked file, and summing up. */
module SeedFiles {
  import opened Bytes
  import opened Seeding
  import opened Streams
  import opened Wrappers

  /** The checks on a freshly linked target: the inode it names, if that can be
      found, and its content as read, a piece at a time. */
  method SeedTargetValid(job: Job, t: nat, ino: Option<nat>, src: Reader, buf: array<byte>) returns (valid: bool)
    requires t < |job.files| && buf.Length > 0
    modifies src, buf
    ensures valid <==>
              && ino.Some? && job.nodes(ino.value).mode == job.mode
              && |job.nodes(ino.value).data| == job.files[t].size && src.fate == EOF
              && IsLowered(job.sha(old(src.rest)), job.files[t].sha256)
    ensures valid && old(src.rest) == job.nodes(ino.value).data ==> job.Wanted(t, ino.value)
  {
    LowerLowers(job.sha(src.rest), job.files[t].sha256);
    if ino.None? || !job.Plausible(t, ino.value) { return false; }
    ghost var content := src.rest;
    var h: seq<byte> := [];
    while true
      invariant content == h + src.rest
      decreases |src.rest| + src.patience
    {
      ghost var had := src.rest;
      var n, err := src.Read(buf, 0);
      assert had == buf[..n] + src.rest;
      h := h + buf[..n];
      if err == Some(EOF) { break; }
      if err != None { return false; }
    }
    assert h == content;
    return job.sha(h) == Lower(job.files[t].sha256);
  }

  // ---- Totals ----

  function Count(results: seq<Option<nat>>): nat {
    if results == [] then 0
    else Count(results[..|results| - 1]) + if results[|results| - 1].Some? then 1 else 0
  }

  function Size(job: Job, results: seq<Option<nat>>): int
    requires |results| <= |job.files|
  {
    if results == [] then 0
    else
      var last := |results| - 1;
      Size(job, results[..last]) + if results[last].Some? then job.files[last].size else 0
  }

  predicate Uses(names: seq<string>, results: seq<Option<nat>>, name: string) {
    exists t | 0 <= t < |results| :: results[t].Some? && results[t].value < |names| && names[results[t].value] == name
  }

  function UsedInOrder(names: seq<string>, results: seq<Option<nat>>, k: nat): seq<string>
    requires k <= |names|
  {
    if k == 0 then []
    else UsedInOrder(names, results, k - 1) + if Uses(names, results, names[k - 1]) then [names[k - 1]] else []
  }

  /** Adds up what the workers have left in results; the siblings used are
      listed in the order they were tried. */
  method Totals(job: Job, names: seq<string>, results: seq<Option<nat>>)
    returns (linked: nat, linkedBytes: int, sources: seq<string>)
    requires |results| == |job.files| && |names| == job.siblings
    requires forall t | 0 <= t < |results| && results[t].Some? :: results[t].value < job.siblings
    ensures linked == Count(results) && linkedBytes == Wrap64(Size(job, results))
    ensures linked == |set t | 0 <= t < |results| && results[t].Some?|
    ensures sources == UsedInOrder(names, results, |names|)
    ensures exists places :: InPlaces(names, results, sources, places, |names|)
  {
    hide InPlaces, Uses;
    CountIsCard(results);
    ghost var places := SourcesAreUsed(names, results, |names|);
    NothingUsed(names);
    linked, linkedBytes, sources := 0, 0, [];
    var used: set<string> := {};
    var t := 0;
    assert results[..0] == [];
    while t < |results|
      invariant 0 <= t <= |results|
      invariant linked == Count(results[..t]) && linkedBytes == Wrap64(Size(job, results[..t]))
      invariant forall name :: name in used <==> Uses(names, results[..t], name)
    {
      assert results[..t + 1][..t] == results[..t];
      if results[t].Some? {
        linked := linked + 1;
        WrapOfWrap(Size(job, results[..t]), job.files[t].size);
        linkedBytes := Wrap64(linkedBytes + job.files[t].size);
        used := used + {names[results[t].value]};
      }
      UsesOneMore(names, results, t);
      t := t + 1;
    }
    assert results[..t] == results;
    var k := 0;
    while k < |names|
      invariant 0 <= k <= |names| && sources == UsedInOrder(names, results, k)
    {
      if names[k] in used { sources := sources + [names[k]]; }
      k := k + 1;
    }
  }

  lemma {:induction false} CountIsCard(results: seq<Option<nat>>)
    ensures Count(results) == |set t | 0 <= t < |results| && results[t].Some?|
  {
    if results != [] {
      var last := |results| - 1;
      var shorter := results[..last];
      CountIsCard(shorter);
      var linked := set t | 0 <= t < |results| && results[t].Some?;
      var before := set t | 0 <= t < |shorter| && shorter[t].Some?;
      assert linked == if results[last].Some? then before + {last} else before;
    }
  }

  /** The total is the sum over exactly the linked files: it is nothing where
      nothing is linked, and each linked file adds its own size. */
  lemma {:induction false} SizeIsOfLinked(job: Job, results: seq<Option<nat>>, t: nat)
    requires |results| <= |job.files| && t < |results|
    ensures Size(job, results)
         == Size(job, results[t := None]) + if results[t].Some? then job.files[t].size else 0
    ensures (forall i | 0 <= i < |results| :: results[i].None?) ==> Size(job, results) == 0
  {
    var last := |results| - 1;
    if t == last {
      assert results[t := None][..last] == results[..last];
      if last > 0 { SizeIsOfLinked(job, results[..last], last - 1); }
    } else {
      assert results[t := None][..last] == results[..last][t := None];
      SizeIsOfLinked(job, results[..last], t);
    }
  }

  /** sources are the names at these places, in order, and the places are exactly
      those of the first k names that are in use. */
  predicate InPlaces(names: seq<string>, results: seq<Option<nat>>, sources: seq<string>, places: seq<nat>, k: nat)
    requires k <= |names|
  {
    && |sources| == |places| && (forall i, j | 0 <= i < j < |places| :: places[i] < places[j])
    && (forall i | 0 <= i < |places| :: places[i] < k && sources[i] == names[places[i]])
    && (forall p: nat | p < k :: p in places <==> Uses(names, results, names[p]))
  }

  lemma {:induction false} SourcesAreUsed(names: seq<string>, results: seq<Option<nat>>, k: nat)
    returns (places: seq<nat>)
    requires k <= |names|
    ensures InPlaces(names, results, UsedInOrder(names, results, k), places, k)
  {
    hide Uses, InPlaces;
    if k == 0 {
      places := [];
      NoPlaces(names, results);
    } else {
      var before := SourcesAreUsed(names, results, k - 1);
      var sources := UsedInOrder(names, results, k - 1);
      if Uses(names, results, names[k - 1]) {
        places := before + [k - 1];
        OneMorePlace(names, results, sources, before, k);
      } else {
        places := before;
        NoMorePlace(names, results, sources, before, k);
        assert sources + [] == sources;
      }
    }
  }

  lemma NoPlaces(names: seq<string>, results: seq<Option<nat>>)
    ensures InPlaces(names, results, [], [], 0)
  {
  }

  lemma OneMorePlace(names: seq<string>, results: seq<Option<nat>>, sources: seq<string>, places: seq<nat>, k: nat)
    requires 0 < k <= |names| && InPlaces(names, results, sources, places, k - 1)
    requires Uses(names, results, names[k - 1])
    ensures InPlaces(names, results, sources + [names[k - 1]], places + [k - 1], k)
  {
    hide Uses;
    var more, longer := sources + [names[k - 1]], places + [k - 1];
    forall i | 0 <= i < |longer|
      ensures longer[i] < k && more[i] == names[longer[i]] && (i < |places| ==> longer[i] < k - 1)
    {
      if i < |places| { assert longer[i] == places[i] && more[i] == sources[i]; }
    }
    forall p: nat | p < k
      ensures p in longer <==> Uses(names, results, names[p])
    {
      assert p in longer <==> p in places || p == k - 1;
    }
  }

  lemma NoMorePlace(names: seq<string>, results: seq<Option<nat>>, sources: seq<string>, places: seq<nat>, k: nat)
    requires 0 < k <= |names| && InPlaces(names, results, sources, places, k - 1)
    requires !Uses(names, results, names[k - 1])
    ensures InPlaces(names, results, sources, places, k)
  {
    hide Uses;
    forall p: nat | p < k
      ensures p in places <==> Uses(names, results, names[p])
    {
      assert k - 1 !in places;
    }
  }

  lemma NothingUsed(names: seq<string>)
    ensures forall name :: !Uses(names, [], name)
  {
  }

  lemma UsesOneMore(names: seq<string>, results: seq<Option<nat>>, t: nat)
    requires t < |results|
    ensures forall name :: Uses(names, results[..t + 1], name) <==>
              Uses(names, results[..t], name)
                  || (results[t].Some? && results[t].value < |names| && names[results[t].value] == name)
  {
    var shorter, longer := results[..t], results[..t + 1];
    forall name
      ensures Uses(names, longer, name) <==>
                Uses(names, shorter, name)
                    || (results[t].Some? && results[t].value < |names| && names[results[t].value] == name)
    {
      if Uses(names, shorter, name) {
        var i :| 0 <= i < t && shorter[i].Some? && shorter[i].value < |names| && names[shorter[i].value] == name;
        assert longer[i] == shorter[i];
      }
      if results[t].Some? && results[t].value < |names| && names[results[t].value] == name {
        assert longer[t] == results[t];
      }
      if Uses(names, longer, name) {
        var i :| 0 <= i < t + 1 && longer[i].Some? && longer[i].value < |names| && names[longer[i].value] == name;
        assert i < t ==> shorter[i] == longer[i];
      }
    }
  }
}
