/** The configuration reader as it runs: recursion over files and directories that updates the daemon's
    static settings, including what is left behind when something throws (result `false`). */
module ConfigReader {
  import opened Prelude
  import opened ConfigFiles
  import opened ConfigTraversal
  import ConfigRoutes

  lemma {:induction false} ReadAllAppend(fs: Files, s: Settings, a: seq<Option<Path>>, b: seq<Option<Path>>)
    ensures ReadAll(fs, s, a + b)
            == if ReadAll(fs, s, a).1 then ReadAll(fs, ReadAll(fs, s, a).0, b) else ReadAll(fs, s, a)
    decreases |a|
  {
    if a == [] {
      assert a + b == b;
    } else {
      assert (a + b)[1..] == a[1..] + b && (a + b)[0] == a[0];
      if a[0].Some? {
        ReadAllAppend(fs, Read(fs, s, a[0].value, false).0, a[1..], b);
      }
    }
  }

  lemma ReadOne(fs: Files, s: Settings, p: Path)
    ensures ReadAll(fs, s, [Some(p)]) == Read(fs, s, p, false)
  {
    assert [Some(p)][1..] == [];
    var r := Read(fs, s, p, false);
    assert ReadAll(fs, r.0, []) == (r.0, true);
  }

  predicate IsConfigEntry(e: DirEntry) {
    e.regular && e.extension == ".toml"
  }

  lemma EntryStep(fs: Files, s: Settings, es: seq<DirEntry>)
    requires es != []
    ensures ReadAll(fs, s, ConfigEntries(es))
            == if !IsConfigEntry(es[0]) then ReadAll(fs, s, ConfigEntries(es[1..]))
               else
                 var r := Read(fs, s, es[0].path, false);
                 if r.1 then ReadAll(fs, r.0, ConfigEntries(es[1..])) else r
  {
    if IsConfigEntry(es[0]) {
      ReadAllAppend(fs, s, [Some(es[0].path)], ConfigEntries(es[1..]));
      ReadOne(fs, s, es[0].path);
    } else {
      assert [] + ConfigEntries(es[1..]) == ConfigEntries(es[1..]);
    }
  }

  class Config {
    var visited: set<Path>
    var socketPath: string
    var socketMode: nat
    var storagePath: string
    var allowList: seq<Access>

    function State(): Settings
      reads this
    {
      Settings(visited, socketPath, socketMode, storagePath, allowList)
    }

    constructor ()
      ensures State() == INITIAL
    {
      visited, socketPath, socketMode, storagePath, allowList := {}, "", 0x1FF, "", [];
    }

    method ReadRpcSection(r: Rpc) returns (ok: bool)
      modifies this
      ensures (State(), ok) == ReadRpc(old(State()), r)
    {
      if r.listen == "" {
        return false;
      }
      socketPath := r.listen;
      if r.umode >= 0 {
        socketMode := r.umode % 0x200;
      }
      return true;
    }

    method ReadStorageSection(fs: Files, st: Storage) returns (ok: bool)
      modifies this
      ensures (State(), ok) == ReadStorage(fs, old(State()), st)
    {
      storagePath := st.dir;
      if !IsDirectory(fs, storagePath) {
        return false;
      }
      if st.db == "" {
        return false;
      }
      storagePath := JoinPath(storagePath, st.db);
      return true;
    }

    method ReadAccessSection(a: Section<seq<Option<Access>>>) returns (ok: bool)
      modifies this
      ensures (State(), ok) == ReadAccess(old(State()), a)
    {
      match a {
        case Absent => return true;
        case WrongType => return false;
        case Table(es) =>
          for i := 0 to |es|
            invariant ReadAllow(old(State()), es) == ReadAllow(State(), es[i..])
          {
            if es[i].None? {
              return false;
            }
            allowList := allowList + [es[i].value];
          }
          return true;
      }
    }

    method ReadFile(fs: Files, path: Path, isRoot: bool) returns (ok: bool)
      modifies this
      ensures (State(), ok) == Read(fs, old(State()), path, isRoot)
      decreases Unopened(fs, State()), 1
    {
      if path in visited {
        return false;
      }
      visited := visited + {path};
      var doc := DocAt(fs, path);
      if doc.None? {
        return false;
      }
      var d := doc.value;
      SectionsKeepOpened(fs, State(), d, isRoot);
      ok := ReadOwnSections(fs, d, isRoot);
      if !ok {
        return;
      }
      ghost var s2 := State();
      OpeningShrinks(fs, old(State()), s2, path);
      match d.includes {
        case Absent => return true;
        case WrongType => return false;
        case Table(ps) =>
          for i := 0 to |ps|
            invariant ReadAll(fs, s2, ExpandAll(fs, ps)) == ReadAll(fs, State(), ExpandAll(fs, ps[i..]))
            invariant s2.visited <= visited
          {
            OpenedGrows(fs, s2, State());
            ReadAllAppend(fs, State(), Expand(fs, ps[i]), ExpandAll(fs, ps[i + 1..]));
            assert ExpandAll(fs, ps[i..]) == Expand(fs, ps[i]) + ExpandAll(fs, ps[i + 1..]);
            ok := ReadInclude(fs, ps[i]);
            if !ok {
              return;
            }
          }
          return true;
      }
    }

    method ReadOwnSections(fs: Files, d: Doc, isRoot: bool) returns (ok: bool)
      modifies this
      ensures (State(), ok) == ReadSections(fs, old(State()), d, isRoot)
    {
      match d.rpc {
        case WrongType => return false;
        case Absent =>
          if isRoot {
            return false;
          }
        case Table(r) =>
          ok := ReadRpcSection(r);
          if !ok {
            return;
          }
      }
      match d.storage {
        case WrongType => return false;
        case Absent =>
          if isRoot {
            return false;
          }
        case Table(st) =>
          ok := ReadStorageSection(fs, st);
          if !ok {
            return;
          }
      }
      match d.access {
        case WrongType => return false;
        case Absent =>
        case Table(a) =>
          ok := ReadAccessSection(a);
          if !ok {
            return;
          }
      }
      return true;
    }

    method ReadInclude(fs: Files, path: Path) returns (ok: bool)
      modifies this
      ensures (State(), ok) == ReadAll(fs, old(State()), Expand(fs, path))
      decreases Unopened(fs, State()), 3
    {
      if path == "" {
        return false;
      }
      if path !in fs {
        return false;
      }
      match fs[path] {
        case Directory(entries) =>
          ok := ProcessIncludeDirectory(fs, entries);
        case File(_) =>
          ReadOne(fs, State(), path);
          ok := ReadFile(fs, path, false);
      }
    }

    method ProcessIncludeDirectory(fs: Files, entries: seq<DirEntry>) returns (ok: bool)
      modifies this
      ensures (State(), ok) == ReadAll(fs, old(State()), ConfigEntries(entries))
      decreases Unopened(fs, State()), 2
    {
      for i := 0 to |entries|
        invariant ReadAll(fs, old(State()), ConfigEntries(entries)) == ReadAll(fs, State(), ConfigEntries(entries[i..]))
        invariant old(visited) <= visited
      {
        OpenedGrows(fs, old(State()), State());
        EntryStep(fs, State(), entries[i..]);
        assert entries[i..][1..] == entries[i + 1..];
        var entry := entries[i];
        if !entry.regular {
          continue;
        }
        if entry.extension != ".toml" {
          continue;
        }
        ok := ReadFile(fs, entry.path, false);
        if !ok {
          return;
        }
      }
      return true;
    }

    /** Start-up: read the root file into fresh settings. */
    method ReadRoot(fs: Files, root: Path) returns (ok: bool)
      requires State() == INITIAL
      modifies this
      ensures ok <==> exists t: Tree :: t.path == root && Unfolds(fs, t, true) && NoRepeats(Preorder(t))
      ensures forall t: Tree :: t.path == root && Unfolds(fs, t, true) && NoRepeats(Preorder(t)) ==>
              visited == Members(Preorder(t)) && allowList == AllowLists(fs, Preorder(t))
      ensures ConfigRoutes.FilesValid(fs) && DocAt(fs, root).Some? && SectionsOk(fs, DocAt(fs, root).value, true) ==>
              (ok <==> !ConfigRoutes.ReachedTwice(fs, root))
    {
      ok := ReadFile(fs, root, true);
      ReadSucceedsIff(fs, root);
      forall t: Tree | t.path == root && Unfolds(fs, t, true) && NoRepeats(Preorder(t))
        ensures visited == Members(Preorder(t)) && allowList == AllowLists(fs, Preorder(t))
      {
        ReadSettings(fs, root, t);
      }
      if ConfigRoutes.FilesValid(fs) && DocAt(fs, root).Some? && SectionsOk(fs, DocAt(fs, root).value, true) {
        ConfigRoutes.SucceedsIffReachedOnce(fs, root);
      }
    }
  }
}
