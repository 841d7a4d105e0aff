/** When valid files are read successfully: exactly when no two ways through the includes reach the same path. */
module ConfigRoutes {
  import opened Prelude
  import opened ConfigFiles
  import opened ConfigTraversal
  import opened ConfigIncludes
  import opened ConfigTracks

  /** A way through the include graph: at each file, the place of the include to follow. */
  type Route = seq<Place>

  /** The file a route leads to. */
  function At(fs: Files, p: Path, r: Route): Option<Path>
    decreases |r|
  {
    if r == [] then Some(p)
    else match IncludedAt(fs, p, r[0])
      case Some(q) => At(fs, q, r[1..])
      case None => None
  }

  /** The file included at a place of the document at `p`. */
  function IncludedAt(fs: Files, p: Path, w: Place): Option<Path> {
    if DocAt(fs, p).None? || !DocAt(fs, p).value.includes.Table? then None
    else FileAt(fs, DocAt(fs, p).value.includes.value, w)
  }

  /** Every file parses, its sections are valid, its include directives name what exists, and what it includes are
      files. */
  ghost predicate FilesValid(fs: Files) {
    forall p :: p in fs && fs[p].File? ==>
      && DocAt(fs, p).Some?
      && SectionsOk(fs, fs[p].doc.value, false)
      && !fs[p].doc.value.includes.WrongType?
      && (fs[p].doc.value.includes.Table? ==> DirectivesExist(fs, fs[p].doc.value.includes.value))
      && forall w: Place :: IncludedAt(fs, p, w).Some? ==> DocAt(fs, IncludedAt(fs, p, w).value).Some?
  }

  /** Two different routes lead to the same path. */
  ghost predicate ReachedTwice(fs: Files, p: Path) {
    exists r1, r2 :: r1 != r2 && At(fs, p, r1).Some? && At(fs, p, r1) == At(fs, p, r2)
  }

  ghost predicate LeadsTo(fs: Files, p: Path, q: Path) {
    exists r :: At(fs, p, r) == Some(q)
  }

  // ---- routes and tracks --------------------------------------------------------------------------------------------

  /** The places of a file's includes, in the order in which they are read. */
  function PlacesAt(fs: Files, p: Path): seq<Place>
    requires FilesValid(fs) && DocAt(fs, p).Some?
  {
    match DocAt(fs, p).value.includes case Table(ps) => Places(fs, ps, 0) case _ => []
  }

  lemma PlacesAtRight(fs: Files, p: Path)
    requires FilesValid(fs) && DocAt(fs, p).Some?
    ensures var at, cs := PlacesAt(fs, p), Kids(fs, DocAt(fs, p).value);
      && |at| == |cs| && Increasing(at)
      && (forall k :: 0 <= k < |at| ==> IncludedAt(fs, p, at[k]) == cs[k])
      && (forall w: Place :: IncludedAt(fs, p, w).Some? <==> w in at)
  {
    if DocAt(fs, p).value.includes.Table? {
      var ps := DocAt(fs, p).value.includes.value;
      PlacesRight(fs, ps, 0);
      assert ps[0..] == ps;
      var at := Places(fs, ps, 0);
      forall k | 0 <= k < |at| ensures IncludedAt(fs, p, at[k]) == Kids(fs, DocAt(fs, p).value)[k] {
        assert FilesAt(fs, ps, at)[k] == FileAt(fs, ps, at[k]);
      }
    }
  }

  lemma ValidFilesTrack(fs: Files)
    requires FilesValid(fs)
    ensures TracksValid(fs)
  {
    forall p | p in fs && fs[p].File? ensures KidsValid(fs, Kids(fs, fs[p].doc.value)) {
      PlacesAtRight(fs, p);
      var at, cs := PlacesAt(fs, p), Kids(fs, fs[p].doc.value);
      forall k | 0 <= k < |cs| ensures cs[k].Some? && DocAt(fs, cs[k].value).Some? {
        assert at[k] in at && IncludedAt(fs, p, at[k]).Some?;
      }
    }
  }

  /** The route along a track. */
  function Along(fs: Files, p: Path, t: Track): Route
    requires FilesValid(fs) && DocAt(fs, p).Some? && Follow(fs, p, t).Some?
    decreases |t|
  {
    if t == [] then []
    else
      PlacesAtRight(fs, p);
      ValidFilesTrack(fs);
      assert FollowList(fs, Kids(fs, DocAt(fs, p).value), t).Some?;
      var q := Kids(fs, DocAt(fs, p).value)[t[0]].value;
      [PlacesAt(fs, p)[t[0]]] + Along(fs, q, t[1..])
  }

  lemma {:induction false} AlongLeads(fs: Files, p: Path, t: Track)
    requires FilesValid(fs) && DocAt(fs, p).Some? && Follow(fs, p, t).Some?
    ensures At(fs, p, Along(fs, p, t)) == Follow(fs, p, t)
    decreases |t|
  {
    if t != [] {
      PlacesAtRight(fs, p);
      ValidFilesTrack(fs);
      var q := Kids(fs, DocAt(fs, p).value)[t[0]].value;
      AlongLeads(fs, q, t[1..]);
      assert Along(fs, p, t)[1..] == Along(fs, q, t[1..]);
    }
  }

  /** A route along a track: its first place, and the rest. */
  lemma AlongSteps(fs: Files, p: Path, t: Track)
    requires FilesValid(fs) && DocAt(fs, p).Some? && Follow(fs, p, t).Some? && t != []
    ensures var cs, at := Kids(fs, DocAt(fs, p).value), PlacesAt(fs, p);
      && t[0] < |cs| == |at| && cs[t[0]].Some? && DocAt(fs, cs[t[0]].value).Some?
      && Follow(fs, cs[t[0]].value, t[1..]) == Follow(fs, p, t)
      && Along(fs, p, t) == [at[t[0]]] + Along(fs, cs[t[0]].value, t[1..])
      && (forall k, l :: 0 <= k < l < |at| ==> at[k] != at[l])
  {
    PlacesAtRight(fs, p);
    ValidFilesTrack(fs);
    hide IncludedAt, PlacesAt;
    assert FollowList(fs, Kids(fs, DocAt(fs, p).value), t).Some?;
  }

  lemma {:induction false} AlongDiffers(fs: Files, p: Path, t1: Track, t2: Track)
    requires FilesValid(fs) && DocAt(fs, p).Some? && Follow(fs, p, t1).Some? && Follow(fs, p, t2).Some?
    requires Along(fs, p, t1) == Along(fs, p, t2)
    ensures t1 == t2
    decreases |t1|
  {
    hide Follow, Kids, PlacesAt, FilesValid;
    if t1 != [] && t2 != [] {
      AlongSteps(fs, p, t1);
      AlongSteps(fs, p, t2);
      hide Along;
      var r1, r2 := Along(fs, p, t1), Along(fs, p, t2);
      assert r1[0] == r2[0] && r1[1..] == r2[1..];
      AlongDiffers(fs, Kids(fs, DocAt(fs, p).value)[t1[0]].value, t1[1..], t2[1..]);
      assert t1 == [t1[0]] + t1[1..] && t2 == [t2[0]] + t2[1..];
    } else if t1 != [] {
      AlongSteps(fs, p, t1);
    } else if t2 != [] {
      AlongSteps(fs, p, t2);
    }
  }

  lemma {:induction false} TrackOf(fs: Files, p: Path, r: Route) returns (t: Track)
    requires FilesValid(fs) && DocAt(fs, p).Some? && At(fs, p, r).Some?
    ensures Follow(fs, p, t) == At(fs, p, r) && Along(fs, p, t) == r
    decreases |r|
  {
    t := [];
    if r != [] {
      hide IncludedAt, Increasing, PlacesAt, Along, Follow, FollowList;
      var k := IndexOf(fs, p, r[0]);
      var rest := TrackOf(fs, IncludedAt(fs, p, r[0]).value, r[1..]);
      t := [k] + rest;
      OneStep(fs, p, k, rest);
      assert r == [r[0]] + r[1..];
    } else {
      assert Along(fs, p, []) == [];
    }
  }

  /** Where an included file stands among the includes. */
  lemma IndexOf(fs: Files, p: Path, w: Place) returns (k: nat)
    requires FilesValid(fs) && DocAt(fs, p).Some? && IncludedAt(fs, p, w).Some?
    ensures k < |Kids(fs, DocAt(fs, p).value)| && Kids(fs, DocAt(fs, p).value)[k] == IncludedAt(fs, p, w)
    ensures k < |PlacesAt(fs, p)| && PlacesAt(fs, p)[k] == w && DocAt(fs, IncludedAt(fs, p, w).value).Some?
  {
    PlacesAtRight(fs, p);
    ValidFilesTrack(fs);
    assert w in PlacesAt(fs, p);
    k :| 0 <= k < |PlacesAt(fs, p)| && PlacesAt(fs, p)[k] == w;
  }

  lemma OneStep(fs: Files, p: Path, k: nat, rest: Track)
    requires FilesValid(fs) && DocAt(fs, p).Some?
    requires var cs := Kids(fs, DocAt(fs, p).value); k < |cs| && cs[k].Some? && DocAt(fs, cs[k].value).Some?
                                                     && Follow(fs, cs[k].value, rest).Some?
    ensures k < |PlacesAt(fs, p)|
    ensures var q := Kids(fs, DocAt(fs, p).value)[k].value;
      && Follow(fs, p, [k] + rest) == Follow(fs, q, rest)
      && Along(fs, p, [k] + rest) == [PlacesAt(fs, p)[k]] + Along(fs, q, rest)
  {
    PlacesAtRight(fs, p);
    assert ([k] + rest)[1..] == rest;
    hide IncludedAt, Increasing, PlacesAt;
  }

  lemma ReachedIsTracked(fs: Files, p: Path)
    requires FilesValid(fs) && DocAt(fs, p).Some?
    ensures ReachedTwice(fs, p) <==> TrackedTwice(fs, p)
    ensures forall q :: LeadsTo(fs, p, q) <==> TracksTo(fs, p, q)
  {
    hide At, Follow, Along;
    if ReachedTwice(fs, p) {
      var r1, r2 :| r1 != r2 && At(fs, p, r1).Some? && At(fs, p, r1) == At(fs, p, r2);
      var t1 := TrackOf(fs, p, r1);
      var t2 := TrackOf(fs, p, r2);
    }
    if TrackedTwice(fs, p) {
      var t1, t2 :| t1 != t2 && Follow(fs, p, t1).Some? && Follow(fs, p, t1) == Follow(fs, p, t2);
      AlongLeads(fs, p, t1);
      AlongLeads(fs, p, t2);
      if Along(fs, p, t1) == Along(fs, p, t2) {
        AlongDiffers(fs, p, t1, t2);
      }
    }
    forall q ensures LeadsTo(fs, p, q) <==> TracksTo(fs, p, q) {
      if r :| At(fs, p, r) == Some(q) {
        var t := TrackOf(fs, p, r);
      }
      if t :| Follow(fs, p, t) == Some(q) {
        AlongLeads(fs, p, t);
      }
    }
  }

  // ---- the traversal ------------------------------------------------------------------------------------------------

  /** With every file individually valid, start-up succeeds exactly when no path is reached twice: a cycle and
      a file included along two ways both make it fail, and nothing else does. */
  lemma SucceedsIffReachedOnce(fs: Files, root: Path)
    requires FilesValid(fs) && DocAt(fs, root).Some? && SectionsOk(fs, DocAt(fs, root).value, true)
    ensures Read(fs, INITIAL, root, true).1 <==> !ReachedTwice(fs, root)
  {
    ValidFilesTrack(fs);
    ReachedIsTracked(fs, root);
    SucceedsIffTrackedOnce(fs, root);
  }

  /** What it has opened then is exactly what the includes lead to: at each file the files its directives name, and the
      configuration files of the directories they name. */
  lemma OpensWhatIsReached(fs: Files, root: Path, s: Settings)
    requires FilesValid(fs) && DocAt(fs, root).Some? && SectionsOk(fs, DocAt(fs, root).value, true)
    requires Read(fs, INITIAL, root, true) == (s, true)
    ensures forall q :: q in s.visited <==> LeadsTo(fs, root, q)
  {
    ValidFilesTrack(fs);
    ReachedIsTracked(fs, root);
    OpensWhatIsTracked(fs, root, s);
  }

  /** For every document that a successful start-up has read: each of its directives names something that exists; a
      file that is named has been opened; of a directory that is named, each regular file with the extension has. */
  lemma DirectivesFollowed(fs: Files, root: Path, s: Settings, p: Path, i: nat)
    requires FilesValid(fs) && DocAt(fs, root).Some? && SectionsOk(fs, DocAt(fs, root).value, true)
    requires Read(fs, INITIAL, root, true) == (s, true) && p in s.visited
    requires DocAt(fs, p).Some? && DocAt(fs, p).value.includes.Table? && i < |DocAt(fs, p).value.includes.value|
    ensures var path := DocAt(fs, p).value.includes.value[i];
      && path != "" && path in fs
      && (fs[path].File? ==> path in s.visited)
      && (fs[path].Directory? ==> forall e :: e in fs[path].entries && e.regular && e.extension == ".toml" ==>
                                     e.path in s.visited)
  {
    OpensWhatIsReached(fs, root, s);
    var ps := DocAt(fs, p).value.includes.value;
    var r :| At(fs, root, r) == Some(p);
    forall w: Place | FileAt(fs, ps, w).Some? ensures FileAt(fs, ps, w).value in s.visited {
      OneFurther(fs, root, r, w);
    }
    if fs[ps[i]].File? {
      assert FileAt(fs, ps, (i, 0)) == Some(ps[i]);
    } else {
      var es := fs[ps[i]].entries;
      forall e | e in es && e.regular && e.extension == ".toml" ensures e.path in s.visited {
        var j: nat :| j < |es| && es[j] == e;
        assert FileAt(fs, ps, (i, j)) == Some(e.path);
      }
    }
  }

  lemma {:induction false} OneFurther(fs: Files, p: Path, r: Route, w: Place)
    requires At(fs, p, r).Some?
    ensures At(fs, p, r + [w]) == IncludedAt(fs, At(fs, p, r).value, w)
    decreases |r|
  {
    if r == [] {
      assert [w][1..] == [];
    } else {
      assert (r + [w])[1..] == r[1..] + [w];
      OneFurther(fs, IncludedAt(fs, p, r[0]).value, r[1..], w);
    }
  }
}
