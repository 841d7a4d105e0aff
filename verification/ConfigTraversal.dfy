/** What the include traversal computes: it succeeds exactly on finite include trees without repeats, and
    leaves the settings of their files in preorder. */
module ConfigTraversal {
  import opened Prelude
  import opened ConfigFiles
  import opened ConfigIncludes

  // ---- the effect of one document ---------------------------------------------------------------------------------

  predicate EntriesOk(es: seq<Option<Access>>) {
    forall i :: 0 <= i < |es| ==> es[i].Some?
  }

  function EntryValues(es: seq<Option<Access>>): seq<Access>
    requires EntriesOk(es)
  {
    seq(|es|, i requires 0 <= i < |es| => es[i].value)
  }

  /** Every section of the document is individually valid. */
  predicate SectionsOk(fs: Files, d: Doc, isRoot: bool) {
    && !d.rpc.WrongType? && (d.rpc.Absent? ==> !isRoot) && (d.rpc.Table? ==> d.rpc.value.listen != "")
    && !d.storage.WrongType? && (d.storage.Absent? ==> !isRoot)
    && (d.storage.Table? ==> IsDirectory(fs, d.storage.value.dir) && d.storage.value.db != "")
    && !d.access.WrongType?
    && (d.access.Table? ==> !d.access.value.WrongType? && (d.access.value.Table? ==> EntriesOk(d.access.value.value)))
  }

  /** The allow-list entries a valid document contributes. */
  function AllowOf(d: Doc): seq<Access> {
    if d.access.Table? && d.access.value.Table? && EntriesOk(d.access.value.value) then
      EntryValues(d.access.value.value)
    else []
  }

  function RpcEffect(s: Settings, d: Doc): Settings {
    if d.rpc.Table? then
      s.(socketPath := d.rpc.value.listen,
         socketMode := if d.rpc.value.umode >= 0 then d.rpc.value.umode % 0x200 else s.socketMode)
    else s
  }

  function StorageEffect(s: Settings, d: Doc): Settings {
    if d.storage.Table? then s.(storagePath := JoinPath(d.storage.value.dir, d.storage.value.db)) else s
  }

  /** The settings after a valid document. */
  function OwnEffect(s: Settings, d: Doc): Settings {
    var s' := StorageEffect(RpcEffect(s, d), d);
    s'.(allowList := s'.allowList + AllowOf(d))
  }

  lemma {:induction false} AllowEffect(s: Settings, es: seq<Option<Access>>)
    ensures ReadAllow(s, es).1 <==> EntriesOk(es)
    ensures EntriesOk(es) ==> ReadAllow(s, es).0 == s.(allowList := s.allowList + EntryValues(es))
    decreases |es|
  {
    if es == [] {
      assert s.allowList + [] == s.allowList;
    } else if es[0].Some? {
      var s' := s.(allowList := s.allowList + [es[0].value]);
      AllowEffect(s', es[1..]);
      if EntriesOk(es) {
        assert EntryValues(es) == [es[0].value] + EntryValues(es[1..]);
        assert s.allowList + EntryValues(es) == s'.allowList + EntryValues(es[1..]);
      } else {
        var i :| 0 <= i < |es| && es[i].None?;
        assert es[1..][i - 1].None?;
      }
    }
  }

  lemma AccessEffect(s: Settings, d: Doc)
    requires d.access.Table?
    ensures ReadAccess(s, d.access.value).1
            <==> !d.access.value.WrongType? && (d.access.value.Table? ==> EntriesOk(d.access.value.value))
    ensures ReadAccess(s, d.access.value).1 ==>
            ReadAccess(s, d.access.value).0 == s.(allowList := s.allowList + AllowOf(d))
  {
    assert s.allowList + [] == s.allowList;
    if d.access.value.Table? {
      AllowEffect(s, d.access.value.value);
    }
  }

  lemma SectionsEffect(fs: Files, s: Settings, d: Doc, isRoot: bool)
    ensures ReadSections(fs, s, d, isRoot).1 <==> SectionsOk(fs, d, isRoot)
    ensures SectionsOk(fs, d, isRoot) ==> ReadSections(fs, s, d, isRoot).0 == OwnEffect(s, d)
  {
    var s' := StorageEffect(RpcEffect(s, d), d);
    assert s'.allowList + [] == s'.allowList;
    if d.access.Table? {
      AccessEffect(s', d);
    }
  }

  /** What the settings are when a section of a document throws: the sections before it have taken effect; of the
      storage section the directory has, and of the allow list the entries before the first that does not parse. */
  lemma FailedSections(fs: Files, s: Settings, d: Doc, isRoot: bool)
    requires !SectionsOk(fs, d, isRoot)
    ensures var s' := ReadSections(fs, s, d, isRoot).0;
      var rpcOk := !d.rpc.WrongType? && (d.rpc.Absent? ==> !isRoot) && (d.rpc.Table? ==> d.rpc.value.listen != "");
      var storageOk := !d.storage.WrongType? && (d.storage.Absent? ==> !isRoot)
                       && (d.storage.Table? ==> IsDirectory(fs, d.storage.value.dir) && d.storage.value.db != "");
      var s1 := RpcEffect(s, d);
      if !rpcOk then s' == s
      else if !storageOk then s' == if d.storage.Table? then s1.(storagePath := d.storage.value.dir) else s1
      else exists n :: IsFirstBad(d, n) && s' == StorageEffect(s1, d).(allowList := s1.allowList + FirstEntries(d, n))
  {
    var s2 := StorageEffect(RpcEffect(s, d), d);
    if d.access.Table? && d.access.value.Table? {
      var es := d.access.value.value;
      AllowStops(s2, es);
      var n: nat :| n <= |es| && EntriesOk(es[..n]) && (n < |es| ==> es[n].None?)
                    && ReadAllow(s2, es).0 == s2.(allowList := s2.allowList + EntryValues(es[..n]));
      assert IsFirstBad(d, n) && FirstEntries(d, n) == EntryValues(es[..n]);
    } else {
      assert IsFirstBad(d, 0) && s2.allowList + FirstEntries(d, 0) == s2.allowList;
    }
  }

  function EntriesOf(d: Doc): seq<Option<Access>> {
    if d.access.Table? && d.access.value.Table? then d.access.value.value else []
  }

  /** The first `n` entries of the allow list parse, and the next does not, if there is one. */
  predicate IsFirstBad(d: Doc, n: nat) {
    var es := EntriesOf(d);
    n <= |es| && EntriesOk(es[..n]) && (n < |es| ==> es[n].None?)
  }

  function FirstEntries(d: Doc, n: nat): seq<Access>
    requires IsFirstBad(d, n)
  {
    EntryValues(EntriesOf(d)[..n])
  }

  lemma {:induction false} AllowStops(s: Settings, es: seq<Option<Access>>)
    ensures exists n :: 0 <= n <= |es| && EntriesOk(es[..n]) && (n < |es| ==> es[n].None?)
                        && ReadAllow(s, es).0 == s.(allowList := s.allowList + EntryValues(es[..n]))
    decreases |es|
  {
    if es == [] || es[0].None? {
      assert EntriesOk(es[..0]) && s.allowList + EntryValues(es[..0]) == s.allowList;
    } else {
      var s' := s.(allowList := s.allowList + [es[0].value]);
      AllowStops(s', es[1..]);
      var n :| 0 <= n <= |es[1..]| && EntriesOk(es[1..][..n]) && (n < |es[1..]| ==> es[1..][n].None?)
               && ReadAllow(s', es[1..]).0 == s'.(allowList := s'.allowList + EntryValues(es[1..][..n]));
      assert es[..n + 1] == [es[0]] + es[1..][..n];
      assert EntryValues(es[..n + 1]) == [es[0].value] + EntryValues(es[1..][..n]);
      assert s.allowList + EntryValues(es[..n + 1]) == s'.allowList + EntryValues(es[1..][..n]);
      assert EntriesOk(es[..n + 1]);
    }
  }

  // ---- include trees ----------------------------------------------------------------------------------------------

  /** The include graph from one file on, written out as a finite tree. */
  datatype Tree = Tree(path: Path, kids: seq<Tree>)

  function Roots(ts: seq<Tree>): seq<Path> {
    seq(|ts|, i requires 0 <= i < |ts| => ts[i].path)
  }

  function Paths(ts: seq<Tree>): seq<Option<Path>> {
    AllSome(Roots(ts))
  }

  /** A tree whose every file is valid and has the files it includes below it, in order. */

  ghost predicate Unfolds(fs: Files, t: Tree, isRoot: bool) {
    && DocAt(fs, t.path).Some?
    && SectionsOk(fs, DocAt(fs, t.path).value, isRoot)
    && Includes(fs, DocAt(fs, t.path).value, Roots(t.kids))
    && forall k | k in t.kids :: Unfolds(fs, k, false)
  }

  ghost predicate AllUnfold(fs: Files, ts: seq<Tree>) {
    forall k | k in ts :: Unfolds(fs, k, false)
  }

  /** The files of a tree in preorder. */
  function Preorder(t: Tree): seq<Path> {
    [t.path] + PreorderAll(t.kids)
  }

  function PreorderAll(ts: seq<Tree>): seq<Path> {
    if ts == [] then [] else Preorder(ts[0]) + PreorderAll(ts[1..])
  }

  predicate NoRepeats(ps: seq<Path>) {
    forall i, j :: 0 <= i < j < |ps| ==> ps[i] != ps[j]
  }

  function Members(ps: seq<Path>): set<Path> {
    set p | p in ps
  }

  predicate Unseen(ps: seq<Path>, seen: set<Path>) {
    NoRepeats(ps) && Members(ps) !! seen
  }

  /** Settings after the documents at these paths, one after the other. */
  function Visit(fs: Files, s: Settings, ps: seq<Path>): Settings
    decreases |ps|
  {
    if ps == [] then s
    else
      var s1 := s.(visited := s.visited + {ps[0]});
      Visit(fs, match DocAt(fs, ps[0]) case Some(d) => OwnEffect(s1, d) case None => s1, ps[1..])
  }

  lemma {:induction false} VisitAppend(fs: Files, s: Settings, a: seq<Path>, b: seq<Path>)
    ensures Visit(fs, s, a + b) == Visit(fs, Visit(fs, s, a), b)
    decreases |a|
  {
    if a == [] {
      assert a + b == b;
    } else {
      assert (a + b)[1..] == a[1..] + b;
      var s1 := s.(visited := s.visited + {a[0]});
      VisitAppend(fs, match DocAt(fs, a[0]) case Some(d) => OwnEffect(s1, d) case None => s1, a[1..], b);
    }
  }

  lemma {:induction false} VisitedAfter(fs: Files, s: Settings, ps: seq<Path>)
    ensures Visit(fs, s, ps).visited == s.visited + Members(ps)
    decreases |ps|
  {
    if ps != [] {
      var s1 := s.(visited := s.visited + {ps[0]});
      VisitedAfter(fs, match DocAt(fs, ps[0]) case Some(d) => OwnEffect(s1, d) case None => s1, ps[1..]);
      assert Members(ps) == {ps[0]} + Members(ps[1..]);
    }
  }

  lemma UnseenAppend(a: seq<Path>, b: seq<Path>, seen: set<Path>)
    ensures Unseen(a + b, seen) <==> Unseen(a, seen) && Unseen(b, seen + Members(a))
  {
    assert Members(a + b) == Members(a) + Members(b);
    if Unseen(a + b, seen) {
      forall i, j | 0 <= i < j < |a| ensures a[i] != a[j] {
        assert (a + b)[i] != (a + b)[j];
      }
      forall i, j | 0 <= i < j < |b| ensures b[i] != b[j] {
        assert (a + b)[|a| + i] != (a + b)[|a| + j];
      }
      forall p | p in Members(a) ensures p !in Members(b) {
        var i :| 0 <= i < |a| && a[i] == p;
        forall j | 0 <= j < |b| ensures b[j] != p {
          assert (a + b)[i] != (a + b)[|a| + j];
        }
      }
    }
    if Unseen(a, seen) && Unseen(b, seen + Members(a)) {
      forall i, j | 0 <= i < j < |a + b| ensures (a + b)[i] != (a + b)[j] {
        if i < |a| <= j {
          assert a[i] in Members(a) && b[j - |a|] in Members(b);
        }
      }
    }
  }

  /** A successful read has walked a finite tree without repeats, and done what visiting it does. */
  lemma {:induction false} ReadGivesTree(fs: Files, s: Settings, p: Path, isRoot: bool) returns (t: Tree)
    requires Read(fs, s, p, isRoot).1
    ensures t.path == p && Unfolds(fs, t, isRoot) && Unseen(Preorder(t), s.visited)
    ensures Read(fs, s, p, isRoot).0 == Visit(fs, s, Preorder(t))
    decreases Unopened(fs, s), 0, 0
  {
    var s1 := s.(visited := s.visited + {p});
    var d := DocAt(fs, p).value;
    SectionsEffect(fs, s1, d, isRoot);
    var s2 := OwnEffect(s1, d);
    OpeningShrinks(fs, s, s2, p);
    var ts := ReadAllGivesTrees(fs, s2, Kids(fs, d));
    t := Tree(p, ts);
    KidsAreIncludes(fs, d, Roots(ts));
    UnseenAppend([p], PreorderAll(ts), s.visited);
    assert Members([p]) == {p};
    assert Preorder(t)[1..] == PreorderAll(ts);
  }

  /** Visiting one unseen list after another. */
  lemma VisitBoth(fs: Files, s: Settings, a: seq<Path>, b: seq<Path>)
    requires Unseen(a, s.visited) && Unseen(b, Visit(fs, s, a).visited)
    ensures Unseen(a + b, s.visited) && Visit(fs, s, a + b) == Visit(fs, Visit(fs, s, a), b)
  {
    VisitedAfter(fs, s, a);
    UnseenAppend(a, b, s.visited);
    VisitAppend(fs, s, a, b);
  }

  lemma ConsTrees(fs: Files, t: Tree, rest: seq<Tree>)
    requires Unfolds(fs, t, false) && AllUnfold(fs, rest)
    ensures AllUnfold(fs, [t] + rest)
    ensures Paths([t] + rest) == [Some(t.path)] + Paths(rest)
    ensures PreorderAll([t] + rest) == Preorder(t) + PreorderAll(rest)
  {
    assert ([t] + rest)[1..] == rest;
  }

  lemma {:induction false} ReadAllGivesTrees(fs: Files, s: Settings, cs: seq<Option<Path>>) returns (ts: seq<Tree>)
    requires ReadAll(fs, s, cs).1
    ensures Paths(ts) == cs && AllUnfold(fs, ts) && Unseen(PreorderAll(ts), s.visited)
    ensures ReadAll(fs, s, cs).0 == Visit(fs, s, PreorderAll(ts))
    decreases Unopened(fs, s), 1, |cs|
  {
    hide Visit, Unseen, Unfolds, AllUnfold, PreorderAll;
    if cs == [] {
      ts := [];
      EmptyTrees(fs, s);
    } else {
      var t := ReadGivesTree(fs, s, cs[0].value, false);
      var s' := Read(fs, s, cs[0].value, false).0;
      OpenedGrows(fs, s, s');
      var rest := ReadAllGivesTrees(fs, s', cs[1..]);
      ts := [t] + rest;
      ConsTrees(fs, t, rest);
      VisitBoth(fs, s, Preorder(t), PreorderAll(rest));
    }
  }

  lemma EmptyTrees(fs: Files, s: Settings)
    ensures AllUnfold(fs, []) && Unseen(PreorderAll([]), s.visited) && Visit(fs, s, PreorderAll([])) == s
  {
  }

  /** Conversely every such tree is read, to the end. */
  lemma {:induction false} TreeIsRead(fs: Files, s: Settings, t: Tree, isRoot: bool)
    requires Unfolds(fs, t, isRoot) && Unseen(Preorder(t), s.visited)
    ensures Read(fs, s, t.path, isRoot) == (Visit(fs, s, Preorder(t)), true)
    decreases t, 0
  {
    var s1 := s.(visited := s.visited + {t.path});
    var d := DocAt(fs, t.path).value;
    SectionsEffect(fs, s1, d, isRoot);
    KidsAreIncludes(fs, d, Roots(t.kids));
    UnseenAppend([t.path], PreorderAll(t.kids), s.visited);
    assert Members([t.path]) == {t.path} && t.path in [t.path];
    assert Preorder(t)[1..] == PreorderAll(t.kids);
    TreesAreRead(fs, OwnEffect(s1, d), t.kids);
  }

  lemma {:induction false} TreesAreRead(fs: Files, s: Settings, ts: seq<Tree>)
    requires AllUnfold(fs, ts) && Unseen(PreorderAll(ts), s.visited)
    ensures ReadAll(fs, s, Paths(ts)) == (Visit(fs, s, PreorderAll(ts)), true)
    decreases ts, 1
  {
    hide Unfolds, Unseen, Preorder, Visit;
    if ts == [] {
      EmptyTrees(fs, s);
    } else {
      UnseenAppend(Preorder(ts[0]), PreorderAll(ts[1..]), s.visited);
      TreeIsRead(fs, s, ts[0], false);
      VisitedAfter(fs, s, Preorder(ts[0]));
      VisitAppend(fs, s, Preorder(ts[0]), PreorderAll(ts[1..]));
      assert Paths(ts)[1..] == Paths(ts[1..]);
      TreesAreRead(fs, Visit(fs, s, Preorder(ts[0])), ts[1..]);
    }
  }

  /** Reading succeeds exactly when the include graph unfolds into a finite tree of valid files in which no
      path occurs twice; cycles have no finite tree, and a file included twice repeats in it. */
  lemma ReadSucceedsIff(fs: Files, root: Path)
    ensures Read(fs, INITIAL, root, true).1
            <==> exists t: Tree :: t.path == root && Unfolds(fs, t, true) && NoRepeats(Preorder(t))
  {
    if Read(fs, INITIAL, root, true).1 {
      var t := ReadGivesTree(fs, INITIAL, root, true);
    }
    if t: Tree :| t.path == root && Unfolds(fs, t, true) && NoRepeats(Preorder(t)) {
      TreeIsRead(fs, INITIAL, t, true);
    }
  }

  // ---- the settings -----------------------------------------------------------------------------------------------

  /** Allow-list entries of these files, file after file. */
  function AllowLists(fs: Files, ps: seq<Path>): seq<Access>
    decreases |ps|
  {
    if ps == [] then []
    else (match DocAt(fs, ps[0]) case Some(d) => AllowOf(d) case None => []) + AllowLists(fs, ps[1..])
  }

  predicate SetsSocket(fs: Files, p: Path) {
    DocAt(fs, p).Some? && DocAt(fs, p).value.rpc.Table?
  }

  predicate SetsMode(fs: Files, p: Path) {
    SetsSocket(fs, p) && DocAt(fs, p).value.rpc.value.umode >= 0
  }

  predicate SetsStorage(fs: Files, p: Path) {
    DocAt(fs, p).Some? && DocAt(fs, p).value.storage.Table?
  }

  /** The socket path set by the last of these files that sets one. */
  function LastSocket(fs: Files, ps: seq<Path>, otherwise: string): string {
    if ps == [] then otherwise
    else if SetsSocket(fs, ps[|ps| - 1]) then DocAt(fs, ps[|ps| - 1]).value.rpc.value.listen
    else LastSocket(fs, ps[..|ps| - 1], otherwise)
  }

  function LastMode(fs: Files, ps: seq<Path>, otherwise: nat): nat {
    if ps == [] then otherwise
    else if SetsMode(fs, ps[|ps| - 1]) then DocAt(fs, ps[|ps| - 1]).value.rpc.value.umode % 0x200
    else LastMode(fs, ps[..|ps| - 1], otherwise)
  }

  function LastStorage(fs: Files, ps: seq<Path>, otherwise: string): string {
    if ps == [] then otherwise
    else if SetsStorage(fs, ps[|ps| - 1]) then
      var st := DocAt(fs, ps[|ps| - 1]).value.storage.value;
      JoinPath(st.dir, st.db)
    else LastStorage(fs, ps[..|ps| - 1], otherwise)
  }

  lemma {:induction false} VisitAllowList(fs: Files, s: Settings, ps: seq<Path>)
    ensures Visit(fs, s, ps).allowList == s.allowList + AllowLists(fs, ps)
    decreases |ps|
  {
    if ps == [] {
      assert s.allowList + [] == s.allowList;
    } else {
      hide Visit, AllowLists, JoinPath;
      OneSettings(fs, s, ps[0]);
      AllowListsStep(fs, ps);
      assert ps == [ps[0]] + ps[1..];
      VisitAppend(fs, s, [ps[0]], ps[1..]);
      VisitAllowList(fs, Visit(fs, s, [ps[0]]), ps[1..]);
    }
  }

  lemma AllowListsStep(fs: Files, ps: seq<Path>)
    requires ps != []
    ensures AllowLists(fs, ps) == AllowLists(fs, [ps[0]]) + AllowLists(fs, ps[1..])
  {
    assert [ps[0]][1..] == [];
  }

  lemma {:induction false} VisitScalars(fs: Files, s: Settings, ps: seq<Path>)
    ensures Visit(fs, s, ps).socketPath == LastSocket(fs, ps, s.socketPath)
    ensures Visit(fs, s, ps).socketMode == LastMode(fs, ps, s.socketMode)
    ensures Visit(fs, s, ps).storagePath == LastStorage(fs, ps, s.storagePath)
    decreases |ps|
  {
    if ps != [] {
      hide Visit, JoinPath;
      var n := |ps| - 1;
      VisitScalars(fs, s, ps[..n]);
      assert ps == ps[..n] + [ps[n]];
      VisitAppend(fs, s, ps[..n], [ps[n]]);
      OneSettings(fs, Visit(fs, s, ps[..n]), ps[n]);
    }
  }

  lemma OneSettings(fs: Files, s: Settings, p: Path)
    ensures var s' := Visit(fs, s, [p]);
      && s'.allowList == s.allowList + AllowLists(fs, [p])
      && s'.socketPath == (if SetsSocket(fs, p) then DocAt(fs, p).value.rpc.value.listen else s.socketPath)
      && s'.socketMode == (if SetsMode(fs, p) then DocAt(fs, p).value.rpc.value.umode % 0x200 else s.socketMode)
      && s'.storagePath == (if SetsStorage(fs, p) then
                              var st := DocAt(fs, p).value.storage.value;
                              JoinPath(st.dir, st.db)
                            else s.storagePath)
  {
    VisitOne(fs, s, p);
    hide Visit, AllowLists, AllowOf, JoinPath;
    assert s.allowList + [] == s.allowList;
  }

  lemma VisitOne(fs: Files, s: Settings, p: Path)
    ensures Visit(fs, s, [p])
            == var s1 := s.(visited := s.visited + {p});
               match DocAt(fs, p) case Some(d) => OwnEffect(s1, d) case None => s1
    ensures AllowLists(fs, [p]) == match DocAt(fs, p) case Some(d) => AllowOf(d) case None => []
  {
    assert [p][1..] == [];
    assert forall s' :: Visit(fs, s', []) == s';
  }

  /** What a successful start-up has read: every file of the include tree once, the allow lists in preorder,
      and each scalar from the last file in preorder that sets it. */
  lemma ReadSettings(fs: Files, root: Path, t: Tree)
    requires t.path == root && Unfolds(fs, t, true) && NoRepeats(Preorder(t))
    ensures var s := Read(fs, INITIAL, root, true).0;
      && s.visited == Members(Preorder(t)) && |s.visited| == |Preorder(t)|
      && s.allowList == AllowLists(fs, Preorder(t))
      && s.socketPath == LastSocket(fs, Preorder(t), "")
      && s.socketMode == LastMode(fs, Preorder(t), 0x1FF)
      && s.storagePath == LastStorage(fs, Preorder(t), "")
  {
    TreeIsRead(fs, INITIAL, t, true);
    VisitedAfter(fs, INITIAL, Preorder(t));
    VisitAllowList(fs, INITIAL, Preorder(t));
    VisitScalars(fs, INITIAL, Preorder(t));
    DistinctCount(Preorder(t));
  }

  lemma {:induction false} DistinctCount(ps: seq<Path>)
    requires NoRepeats(ps)
    ensures |Members(ps)| == |ps|
    decreases |ps|
  {
    if ps != [] {
      DistinctCount(ps[1..]);
      assert Members(ps) == {ps[0]} + Members(ps[1..]);
    }
  }
}
