/** What the include directives of a document ask for, read off the file system itself: a file asks for that file, a
    directory for its configuration files in the order it lists them. */
module ConfigIncludes {
  import opened Prelude
  import opened ConfigFiles

  /** A place in a document's includes: which directive, and which entry of the directory it names (0 if it names
      a file). */
  type Place = (nat, nat)

  /** The file at a place. Of a directory only regular files with extension `.toml` count. */
  function FileAt(fs: Files, ps: seq<Path>, w: Place): Option<Path> {
    if w.0 >= |ps| || ps[w.0] !in fs then None
    else match fs[ps[w.0]]
      case File(_) => if w.1 == 0 then Some(ps[w.0]) else None
      case Directory(es) =>
        if w.1 < |es| && es[w.1].regular && es[w.1].extension == ".toml" then Some(es[w.1].path) else None
  }

  predicate Before(a: Place, b: Place) {
    a.0 < b.0 || (a.0 == b.0 && a.1 < b.1)
  }

  predicate Increasing(at: seq<Place>) {
    forall k, l :: 0 <= k < l < |at| ==> Before(at[k], at[l])
  }

  /** `files` are the files at all places, one after the other; `at` are the places. */
  ghost predicate Listing(fs: Files, ps: seq<Path>, files: seq<Path>, at: seq<Place>) {
    && |at| == |files| && Increasing(at)
    && (forall k :: 0 <= k < |at| ==> FileAt(fs, ps, at[k]) == Some(files[k]))
    && (forall w: Place :: FileAt(fs, ps, w).Some? ==> w in at)
  }

  /** No directive is empty, and what each names exists. */
  predicate DirectivesExist(fs: Files, ps: seq<Path>) {
    forall i :: 0 <= i < |ps| ==> ps[i] != "" && ps[i] in fs
  }

  /** The document's directives are valid and ask for these files. */
  ghost predicate Includes(fs: Files, d: Doc, files: seq<Path>) {
    match d.includes
    case Absent => files == []
    case WrongType => false
    case Table(ps) => DirectivesExist(fs, ps) && exists at :: Listing(fs, ps, files, at)
  }

  // ---- the loops find exactly that --------------------------------------------------------------------------------

  /** The places of the configuration files of directive `i` from entry `j` on. */
  function EntryPlaces(es: seq<DirEntry>, i: nat, j: nat): seq<Place>
    requires j <= |es|
    decreases |es| - j
  {
    if j == |es| then []
    else (if es[j].regular && es[j].extension == ".toml" then [(i, j)] else []) + EntryPlaces(es, i, j + 1)
  }

  function PlacesOf(fs: Files, ps: seq<Path>, i: nat): seq<Place>
    requires DirectivesExist(fs, ps) && i < |ps|
  {
    match fs[ps[i]] case File(_) => [(i, 0)] case Directory(es) => EntryPlaces(es, i, 0)
  }

  /** All places from directive `i` on. */
  function Places(fs: Files, ps: seq<Path>, i: nat): seq<Place>
    requires DirectivesExist(fs, ps) && i <= |ps|
    decreases |ps| - i
  {
    if i == |ps| then [] else PlacesOf(fs, ps, i) + Places(fs, ps, i + 1)
  }

  function FilesAt(fs: Files, ps: seq<Path>, at: seq<Place>): seq<Option<Path>> {
    seq(|at|, k requires 0 <= k < |at| => FileAt(fs, ps, at[k]))
  }

  lemma {:induction false} EntryPlacesRight(fs: Files, ps: seq<Path>, i: nat, es: seq<DirEntry>, j: nat)
    requires i < |ps| && ps[i] in fs && fs[ps[i]] == Directory(es) && j <= |es|
    ensures var at := EntryPlaces(es, i, j);
      && Increasing(at) && FilesAt(fs, ps, at) == ConfigEntries(es[j..])
      && (forall w: Place :: w in at <==> w.0 == i && j <= w.1 && FileAt(fs, ps, w).Some?)
    decreases |es| - j
  {
    if j < |es| {
      EntryPlacesRight(fs, ps, i, es, j + 1);
      assert es[j..][1..] == es[j + 1..];
      var rest := EntryPlaces(es, i, j + 1);
      assert FileAt(fs, ps, (i, j)) == if es[j].regular && es[j].extension == ".toml" then Some(es[j].path) else None;
      hide FileAt;
      if es[j].regular && es[j].extension == ".toml" {
        assert FilesAt(fs, ps, [(i, j)] + rest) == [Some(es[j].path)] + FilesAt(fs, ps, rest);
      } else {
        assert [] + rest == rest && [] + ConfigEntries(es[j + 1..]) == ConfigEntries(es[j + 1..]);
      }
    }
  }

  lemma PlacesOfRight(fs: Files, ps: seq<Path>, i: nat)
    requires DirectivesExist(fs, ps) && i < |ps|
    ensures var at := PlacesOf(fs, ps, i);
      && Increasing(at) && FilesAt(fs, ps, at) == Expand(fs, ps[i])
      && (forall w: Place :: w in at <==> w.0 == i && FileAt(fs, ps, w).Some?)
  {
    match fs[ps[i]]
    case File(_) =>
    case Directory(es) =>
      EntryPlacesRight(fs, ps, i, es, 0);
      assert es[0..] == es;
  }

  lemma {:induction false} PlacesRight(fs: Files, ps: seq<Path>, i: nat)
    requires DirectivesExist(fs, ps) && i <= |ps|
    ensures var at := Places(fs, ps, i);
      && Increasing(at) && FilesAt(fs, ps, at) == ExpandAll(fs, ps[i..])
      && (forall w: Place :: w in at <==> i <= w.0 && FileAt(fs, ps, w).Some?)
    decreases |ps| - i
  {
    if i < |ps| {
      PlacesOfRight(fs, ps, i);
      PlacesRight(fs, ps, i + 1);
      hide FileAt, Expand, PlacesOf, FilesAt, Increasing;
      var a, b := PlacesOf(fs, ps, i), Places(fs, ps, i + 1);
      assert ps[i..][0] == ps[i] && ps[i..][1..] == ps[i + 1..];
      Appended(fs, ps, a, b);
      forall w: Place ensures w in a + b <==> i <= w.0 && FileAt(fs, ps, w).Some? {
        assert w in a + b <==> w in a || w in b;
      }
    }
  }

  lemma Appended(fs: Files, ps: seq<Path>, a: seq<Place>, b: seq<Place>)
    requires Increasing(a) && Increasing(b) && forall v, w :: v in a && w in b ==> Before(v, w)
    ensures Increasing(a + b) && FilesAt(fs, ps, a + b) == FilesAt(fs, ps, a) + FilesAt(fs, ps, b)
  {
    hide FileAt;
    forall k, l | 0 <= k < l < |a + b| ensures Before((a + b)[k], (a + b)[l]) {
      if k < |a| <= l {
        assert a[k] in a && b[l - |a|] in b;
      }
    }
  }

  /** There is only one way to list a set of places in order. */
  lemma {:induction false} OneOrder(a: seq<Place>, b: seq<Place>)
    requires Increasing(a) && Increasing(b) && forall w: Place :: w in a <==> w in b
    ensures a == b
  {
    if a != [] {
      assert a[0] in a;
      var k :| 0 <= k < |b| && b[k] == a[0];
      assert b[0] in b;
      var l :| 0 <= l < |a| && a[l] == b[0];
      assert k == 0 && l == 0;
      forall w: Place ensures w in a[1..] <==> w in b[1..] {
        assert w in a <==> w == a[0] || w in a[1..];
        assert w in b <==> w == b[0] || w in b[1..];
        assert a[0] !in a[1..] && b[0] !in b[1..];
      }
      OneOrder(a[1..], b[1..]);
      assert a == [a[0]] + a[1..] && b == [b[0]] + b[1..];
    }
  }

  function AllSome(files: seq<Path>): seq<Option<Path>> {
    seq(|files|, k requires 0 <= k < |files| => Some(files[k]))
  }

  lemma ListingIsPlaces(fs: Files, ps: seq<Path>, files: seq<Path>, at: seq<Place>)
    requires DirectivesExist(fs, ps) && Listing(fs, ps, files, at)
    ensures at == Places(fs, ps, 0) && ExpandAll(fs, ps) == AllSome(files)
  {
    PlacesRight(fs, ps, 0);
    assert ps[0..] == ps;
    hide FileAt, ExpandAll, Places;
    forall w: Place ensures w in at <==> w in Places(fs, ps, 0) {
    }
    OneOrder(at, Places(fs, ps, 0));
    assert FilesAt(fs, ps, at) == AllSome(files);
  }

  lemma PlacesAreListing(fs: Files, ps: seq<Path>, files: seq<Path>)
    requires DirectivesExist(fs, ps) && ExpandAll(fs, ps) == AllSome(files)
    ensures Listing(fs, ps, files, Places(fs, ps, 0))
  {
    PlacesRight(fs, ps, 0);
    assert ps[0..] == ps;
    var at := Places(fs, ps, 0);
    hide FileAt, ExpandAll, Places;
    assert FilesAt(fs, ps, at) == AllSome(files);
    forall k | 0 <= k < |at| ensures FileAt(fs, ps, at[k]) == Some(files[k]) {
      assert FilesAt(fs, ps, at)[k] == AllSome(files)[k];
    }
  }

  /** A directive that is empty or names nothing makes reading fail. */
  lemma {:induction false} ExpandsOnlyWhatExists(fs: Files, ps: seq<Path>)
    requires None !in ExpandAll(fs, ps)
    ensures DirectivesExist(fs, ps)
  {
    if ps != [] {
      forall c | c in ExpandAll(fs, ps[1..]) || c in Expand(fs, ps[0]) ensures c in ExpandAll(fs, ps) {
      }
      ExpandsOnlyWhatExists(fs, ps[1..]);
      var missing: seq<Option<Path>> := [None];
      assert missing[0] in missing;
      forall i | 0 <= i < |ps| ensures ps[i] != "" && ps[i] in fs {
        assert i > 0 ==> ps[i] == ps[1..][i - 1];
      }
    }
  }

  /** The include loops ask for exactly these files, in this order. */
  lemma KidsAreIncludes(fs: Files, d: Doc, files: seq<Path>)
    ensures Includes(fs, d, files) <==> Kids(fs, d) == AllSome(files)
  {
    if d.includes.Table? {
      var ps := d.includes.value;
      if Includes(fs, d, files) {
        var at :| Listing(fs, ps, files, at);
        ListingIsPlaces(fs, ps, files, at);
      }
      if ExpandAll(fs, ps) == AllSome(files) {
        assert None !in AllSome(files);
        ExpandsOnlyWhatExists(fs, ps);
        PlacesAreListing(fs, ps, files);
      }
    } else if d.includes.WrongType? {
      assert Kids(fs, d)[0] == None;
    }
  }

  /** Joining a directory and a name: an absolute name replaces the directory, otherwise the two stand one after the
      other with a slash between them, which is added if the directory does not end in one. */
  lemma Joins(dir: string, name: string)
    ensures var p := JoinPath(dir, name);
      if "/" <= name then p == name
      else if dir == "" then p == name
      else if dir[|dir| - 1] == '/' then p == dir + name
      else |p| == |dir| + 1 + |name| && dir <= p && p[|dir|] == '/' && p[|dir| + 1..] == name
  {
    assert "/" <= name <==> name != "" && name[0] == '/';
  }
}
