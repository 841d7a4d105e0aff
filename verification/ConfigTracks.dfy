/** Tracks through the include graph, by the position of each include among all that a file expands to, and when the
    traversal succeeds in their terms. */
module ConfigTracks {
  import opened Prelude
  import opened ConfigFiles
  import opened ConfigTraversal

  /** Which include to follow at each file. */
  type Track = seq<nat>

  /** The file a track leads to. */
  function Follow(fs: Files, p: Path, r: Track): Option<Path>
    decreases |r|, 1
  {
    if r == [] then Some(p)
    else if DocAt(fs, p).None? then None
    else FollowList(fs, Kids(fs, DocAt(fs, p).value), r)
  }

  /** The file a track leads to from a list of includes. */
  function FollowList(fs: Files, cs: seq<Option<Path>>, r: Track): Option<Path>
    decreases |r|, 0
  {
    if r == [] || r[0] >= |cs| || cs[r[0]].None? then None
    else Follow(fs, cs[r[0]].value, r[1..])
  }

  /** Every file parses, its sections and include directives are valid, and what it includes are files. */
  ghost predicate TracksValid(fs: Files) {
    forall p :: p in fs && fs[p].File? ==>
      && DocAt(fs, p).Some?
      && SectionsOk(fs, fs[p].doc.value, false)
      && KidsValid(fs, Kids(fs, fs[p].doc.value))
  }

  predicate KidsValid(fs: Files, cs: seq<Option<Path>>) {
    forall i :: 0 <= i < |cs| ==> cs[i].Some? && DocAt(fs, cs[i].value).Some?
  }

  /** Two different tracks lead to the same path. */
  ghost predicate TrackedTwice(fs: Files, p: Path) {
    exists r1, r2 :: r1 != r2 && Follow(fs, p, r1).Some? && Follow(fs, p, r1) == Follow(fs, p, r2)
  }

  ghost predicate ListTrackedTwice(fs: Files, cs: seq<Option<Path>>) {
    exists r1, r2 :: r1 != r2 && FollowList(fs, cs, r1).Some? && FollowList(fs, cs, r1) == FollowList(fs, cs, r2)
  }

  ghost predicate Hits(fs: Files, p: Path, seen: set<Path>) {
    exists r :: Follow(fs, p, r).Some? && Follow(fs, p, r).value in seen
  }

  ghost predicate ListHits(fs: Files, cs: seq<Option<Path>>, seen: set<Path>) {
    exists r :: FollowList(fs, cs, r).Some? && FollowList(fs, cs, r).value in seen
  }

  /** `after` adds to `before` exactly the paths that tracks from `p` lead to. */
  ghost predicate Adds(fs: Files, p: Path, before: set<Path>, after: set<Path>) {
    && before <= after
    && (forall r :: Follow(fs, p, r).Some? ==> Follow(fs, p, r).value in after)
    && (forall q :: q in after && q !in before ==> exists r :: Follow(fs, p, r) == Some(q))
  }

  ghost predicate ListAdds(fs: Files, cs: seq<Option<Path>>, before: set<Path>, after: set<Path>) {
    && before <= after
    && (forall r :: FollowList(fs, cs, r).Some? ==> FollowList(fs, cs, r).value in after)
    && (forall q :: q in after && q !in before ==> exists r :: FollowList(fs, cs, r) == Some(q))
  }

  // ---- tracks from a file and from its includes -------------------------------------------------------------------

  lemma FollowRoot(fs: Files, p: Path, r: Track)
    requires DocAt(fs, p).Some?
    ensures Follow(fs, p, r) == if r == [] then Some(p) else FollowList(fs, Kids(fs, DocAt(fs, p).value), r)
  {
  }

  function Shift(r: Track): Track
    requires r != []
  {
    [r[0] + 1] + r[1..]
  }

  lemma FollowHead(fs: Files, cs: seq<Option<Path>>, r: Track)
    requires cs != [] && cs[0].Some?
    ensures FollowList(fs, cs, [0] + r) == Follow(fs, cs[0].value, r)
  {
    assert ([0] + r)[1..] == r;
  }

  lemma FollowTail(fs: Files, cs: seq<Option<Path>>, r: Track)
    requires cs != [] && r != []
    ensures FollowList(fs, cs, Shift(r)) == FollowList(fs, cs[1..], r)
  {
    assert Shift(r)[1..] == r[1..];
  }

  /** Every track into a list goes through its first element or the rest. */
  lemma Split(r: Track) returns (head: bool, r': Track)
    requires r != []
    ensures head <==> r[0] == 0
    ensures if head then r == [0] + r' else r' != [] && r == Shift(r')
  {
    head := r[0] == 0;
    r' := if head then r[1..] else [r[0] - 1] + r[1..];
    assert !head ==> r'[1..] == r[1..];
    assert r == [r[0]] + r[1..];
  }

  // ---- composing: head and tail of a list -------------------------------------------------------------------------

  lemma ConsAdds(fs: Files, cs: seq<Option<Path>>, s0: set<Path>, s1: set<Path>, s2: set<Path>)
    requires cs != [] && cs[0].Some? && Adds(fs, cs[0].value, s0, s1) && ListAdds(fs, cs[1..], s1, s2)
    ensures ListAdds(fs, cs, s0, s2)
  {
    forall r | FollowList(fs, cs, r).Some? ensures FollowList(fs, cs, r).value in s2 {
      var head, r' := Split(r);
      if head { FollowHead(fs, cs, r'); } else { FollowTail(fs, cs, r'); }
    }
    forall q | q in s2 && q !in s0 ensures exists r :: FollowList(fs, cs, r) == Some(q) {
      if q in s1 {
        var r :| Follow(fs, cs[0].value, r) == Some(q);
        FollowHead(fs, cs, r);
      } else {
        var r :| FollowList(fs, cs[1..], r) == Some(q);
        FollowTail(fs, cs, r);
      }
    }
  }

  lemma ConsOnce(fs: Files, cs: seq<Option<Path>>, s0: set<Path>, s1: set<Path>)
    requires cs != [] && cs[0].Some? && Adds(fs, cs[0].value, s0, s1)
    requires !TrackedTwice(fs, cs[0].value) && !ListTrackedTwice(fs, cs[1..]) && !ListHits(fs, cs[1..], s1)
    ensures !ListTrackedTwice(fs, cs)
  {
    forall r1, r2 | FollowList(fs, cs, r1).Some? && FollowList(fs, cs, r1) == FollowList(fs, cs, r2) ensures r1 == r2 {
      var h1, t1 := Split(r1);
      var h2, t2 := Split(r2);
      if h1 { FollowHead(fs, cs, t1); } else { FollowTail(fs, cs, t1); }
      if h2 { FollowHead(fs, cs, t2); } else { FollowTail(fs, cs, t2); }
    }
  }

  lemma ConsMisses(fs: Files, cs: seq<Option<Path>>, seen: set<Path>)
    requires cs != [] && cs[0].Some?
    ensures ListHits(fs, cs, seen) <==> Hits(fs, cs[0].value, seen) || ListHits(fs, cs[1..], seen)
  {
    if ListHits(fs, cs, seen) {
      var r :| FollowList(fs, cs, r).Some? && FollowList(fs, cs, r).value in seen;
      var head, r' := Split(r);
      if head { FollowHead(fs, cs, r'); } else { FollowTail(fs, cs, r'); }
    }
    if r :| Follow(fs, cs[0].value, r).Some? && Follow(fs, cs[0].value, r).value in seen {
      FollowHead(fs, cs, r);
      assert FollowList(fs, cs, [0] + r).Some?;
    }
    if r :| FollowList(fs, cs[1..], r).Some? && FollowList(fs, cs[1..], r).value in seen {
      FollowTail(fs, cs, r);
      assert FollowList(fs, cs, Shift(r)).Some?;
    }
  }

  lemma HeadTwice(fs: Files, cs: seq<Option<Path>>)
    requires cs != [] && cs[0].Some? && TrackedTwice(fs, cs[0].value)
    ensures ListTrackedTwice(fs, cs)
  {
    var p := cs[0].value;
    var r1, r2 :| r1 != r2 && Follow(fs, p, r1).Some? && Follow(fs, p, r1) == Follow(fs, p, r2);
    FollowHead(fs, cs, r1);
    FollowHead(fs, cs, r2);
    assert ([0] + r1)[1..] == r1 && ([0] + r2)[1..] == r2;
    assert FollowList(fs, cs, [0] + r1) == FollowList(fs, cs, [0] + r2);
  }

  lemma TailTwice(fs: Files, cs: seq<Option<Path>>)
    requires cs != [] && ListTrackedTwice(fs, cs[1..])
    ensures ListTrackedTwice(fs, cs)
  {
    var tail := cs[1..];
    var r1, r2 :| r1 != r2 && FollowList(fs, tail, r1).Some? && FollowList(fs, tail, r1) == FollowList(fs, tail, r2);
    FollowTail(fs, cs, r1);
    FollowTail(fs, cs, r2);
    ShiftDiffers(r1, r2);
    hide Follow;
    assert FollowList(fs, cs, Shift(r1)) == FollowList(fs, cs, Shift(r2));
  }

  lemma ShiftDiffers(r1: Track, r2: Track)
    requires r1 != [] && r2 != [] && r1 != r2
    ensures Shift(r1) != Shift(r2)
  {
    assert Shift(r1)[1..] == r1[1..] && Shift(r2)[1..] == r2[1..];
    assert r1 == [r1[0]] + r1[1..] && r2 == [r2[0]] + r2[1..];
  }

  /** A path reached through the head and again through the tail. */
  lemma TailMeetsHead(fs: Files, cs: seq<Option<Path>>, s0: set<Path>, s1: set<Path>)
    requires cs != [] && cs[0].Some? && Adds(fs, cs[0].value, s0, s1) && ListHits(fs, cs[1..], s1)
    ensures ListHits(fs, cs, s0) || ListTrackedTwice(fs, cs)
  {
    var r :| FollowList(fs, cs[1..], r).Some? && FollowList(fs, cs[1..], r).value in s1;
    FollowTail(fs, cs, r);
    var q := FollowList(fs, cs[1..], r).value;
    if q in s0 {
      assert FollowList(fs, cs, Shift(r)).value in s0;
    } else {
      var r0 :| Follow(fs, cs[0].value, r0) == Some(q);
      FollowHead(fs, cs, r0);
      assert ([0] + r0)[0] != Shift(r)[0];
      assert FollowList(fs, cs, [0] + r0) == FollowList(fs, cs, Shift(r));
    }
  }

  /** The same for a file and its includes. */
  lemma FileTracks(fs: Files, p: Path, s0: set<Path>, s2: set<Path>)
    requires DocAt(fs, p).Some?
    ensures var cs := Kids(fs, DocAt(fs, p).value);
      && (p !in s0 && ListAdds(fs, cs, s0 + {p}, s2) ==> Adds(fs, p, s0, s2))
      && (!ListTrackedTwice(fs, cs) && !ListHits(fs, cs, s0 + {p}) ==> !TrackedTwice(fs, p))
      && (p !in s0 && !ListHits(fs, cs, s0 + {p}) ==> !Hits(fs, p, s0))
      && (ListTrackedTwice(fs, cs) ==> TrackedTwice(fs, p))
      && (ListHits(fs, cs, s0 + {p}) ==> Hits(fs, p, s0) || TrackedTwice(fs, p))
      && (p in s0 ==> Hits(fs, p, s0))
  {
    var cs := Kids(fs, DocAt(fs, p).value);
    assert Follow(fs, p, []) == Some(p);
    forall r ensures Follow(fs, p, r) == if r == [] then Some(p) else FollowList(fs, cs, r) {
      FollowRoot(fs, p, r);
    }
    assert forall r :: FollowList(fs, cs, r).Some? ==> r != [];
  }

  // ---- the traversal ----------------------------------------------------------------------------------------------

  ghost predicate ReadRight(fs: Files, p: Path, s: Settings, r: (Settings, bool)) {
    if r.1 then Adds(fs, p, s.visited, r.0.visited) && !TrackedTwice(fs, p) && !Hits(fs, p, s.visited)
    else TrackedTwice(fs, p) || Hits(fs, p, s.visited)
  }

  ghost predicate ReadAllRight(fs: Files, cs: seq<Option<Path>>, s: Settings, r: (Settings, bool)) {
    if r.1 then ListAdds(fs, cs, s.visited, r.0.visited) && !ListTrackedTwice(fs, cs) && !ListHits(fs, cs, s.visited)
    else ListTrackedTwice(fs, cs) || ListHits(fs, cs, s.visited)
  }

  lemma {:induction false} ReadFollowsTracks(fs: Files, s: Settings, p: Path, isRoot: bool)
    requires TracksValid(fs) && DocAt(fs, p).Some? && SectionsOk(fs, DocAt(fs, p).value, isRoot)
    ensures ReadRight(fs, p, s, Read(fs, s, p, isRoot))
    decreases Unopened(fs, s), 0, 0
  {
    hide Follow, FollowList;
    if p !in s.visited {
      var s1 := s.(visited := s.visited + {p});
      var d := DocAt(fs, p).value;
      SectionsEffect(fs, s1, d, isRoot);
      var s2 := OwnEffect(s1, d);
      OpeningShrinks(fs, s, s2, p);
      ReadAllFollowsTracks(fs, s2, Kids(fs, d));
      FileTracks(fs, p, s.visited, ReadAll(fs, s2, Kids(fs, d)).0.visited);
    } else {
      FileTracks(fs, p, s.visited, {});
    }
  }

  lemma {:induction false} ReadAllFollowsTracks(fs: Files, s: Settings, cs: seq<Option<Path>>)
    requires TracksValid(fs) && KidsValid(fs, cs)
    ensures ReadAllRight(fs, cs, s, ReadAll(fs, s, cs))
    decreases Unopened(fs, s), 1, |cs|
  {
    if cs == [] {
      assert forall r :: FollowList(fs, [], r) == None;
    } else {
      hide Follow, FollowList, ReadRight, ReadAllRight;
      ReadFollowsTracks(fs, s, cs[0].value, false);
      var (s', ok) := Read(fs, s, cs[0].value, false);
      if ok {
        OpenedGrows(fs, s, s');
        ReadAllFollowsTracks(fs, s', cs[1..]);
        ListOutcome(fs, cs, s, s', ReadAll(fs, s', cs[1..]));
      } else {
        HeadFails(fs, cs, s, s');
      }
    }
  }

  lemma HeadFails(fs: Files, cs: seq<Option<Path>>, s: Settings, s': Settings)
    requires cs != [] && cs[0].Some? && ReadRight(fs, cs[0].value, s, (s', false))
    ensures ReadAllRight(fs, cs, s, (s', false))
  {
    hide Follow, FollowList, TrackedTwice, ListTrackedTwice, Hits, ListHits;
    ConsMisses(fs, cs, s.visited);
    if TrackedTwice(fs, cs[0].value) {
      HeadTwice(fs, cs);
    }
  }

  lemma ListOutcome(fs: Files, cs: seq<Option<Path>>, s: Settings, s': Settings, r: (Settings, bool))
    requires cs != [] && cs[0].Some?
    requires ReadRight(fs, cs[0].value, s, (s', true)) && ReadAllRight(fs, cs[1..], s', r)
    ensures ReadAllRight(fs, cs, s, r)
  {
    hide Follow, FollowList, TrackedTwice, ListTrackedTwice, Hits, ListHits;
    ConsMisses(fs, cs, s.visited);
    if r.1 {
      ConsAdds(fs, cs, s.visited, s'.visited, r.0.visited);
      ConsOnce(fs, cs, s.visited, s'.visited);
      FewerHits(fs, cs[1..], s.visited, s'.visited);
    } else if ListTrackedTwice(fs, cs[1..]) {
      TailTwice(fs, cs);
    } else {
      TailMeetsHead(fs, cs, s.visited, s'.visited);
    }
  }

  lemma FewerHits(fs: Files, cs: seq<Option<Path>>, a: set<Path>, b: set<Path>)
    requires a <= b && !ListHits(fs, cs, b)
    ensures !ListHits(fs, cs, a)
  {
  }

  /** With every file individually valid, start-up succeeds exactly when no path is reached twice: a cycle and
      a file included along two ways both make it fail, and nothing else does. */
  lemma SucceedsIffTrackedOnce(fs: Files, root: Path)
    requires TracksValid(fs) && DocAt(fs, root).Some? && SectionsOk(fs, DocAt(fs, root).value, true)
    ensures Read(fs, INITIAL, root, true).1 <==> !TrackedTwice(fs, root)
  {
    ReadFollowsTracks(fs, INITIAL, root, true);
  }

  ghost predicate TracksTo(fs: Files, p: Path, q: Path) {
    exists r :: Follow(fs, p, r) == Some(q)
  }

  lemma AddsMeans(fs: Files, p: Path, before: set<Path>, after: set<Path>)
    requires Adds(fs, p, before, after)
    ensures forall q :: q in after <==> q in before || TracksTo(fs, p, q)
  {
    forall q | TracksTo(fs, p, q) ensures q in after {
      var r :| Follow(fs, p, r) == Some(q);
      assert Follow(fs, p, r).Some?;
    }
  }

  /** What it has opened then is exactly what the includes lead to. */
  lemma OpensWhatIsTracked(fs: Files, root: Path, s: Settings)
    requires TracksValid(fs) && DocAt(fs, root).Some? && SectionsOk(fs, DocAt(fs, root).value, true)
    requires Read(fs, INITIAL, root, true) == (s, true)
    ensures forall q :: q in s.visited <==> TracksTo(fs, root, q)
  {
    ReadFollowsTracks(fs, INITIAL, root, true);
    AddsMeans(fs, root, INITIAL.visited, s.visited);
  }
}
