/** Configuration files as already-parsed documents, and what reading one does to the daemon's settings. */
module ConfigFiles {
  import opened Prelude

  type Path = string

  /** A key of a document: missing, of the wrong type, or there. */
  datatype Section<+T> = Absent | WrongType | Table(value: T)

  /** Missing strings read as "", a missing mode as -1. */
  datatype Rpc = Rpc(listen: string, umode: int)
  datatype Storage = Storage(dir: string, db: string)
  datatype Access = Access(user: Option<nat>, group: Option<nat>, allowed: set<string>)

  /** `access` holds the entries of the allow list, in order; an entry that does not parse is `None`.
      `includes` holds the path of each include directive. */
  datatype Doc = Doc(
    rpc: Section<Rpc>,
    storage: Section<Storage>,
    access: Section<Section<seq<Option<Access>>>>,
    includes: Section<seq<Path>>)

  datatype DirEntry = DirEntry(path: Path, regular: bool, extension: string)

  /** A file that does not parse has no document. */
  datatype Node = File(doc: Option<Doc>) | Directory(entries: seq<DirEntry>)

  type Files = map<Path, Node>

  datatype Settings = Settings(
    visited: set<Path>,
    socketPath: string, socketMode: nat, storagePath: string, allowList: seq<Access>)

  const INITIAL: Settings := Settings({}, "", 0x1FF, "", [])

  // ---- one document -----------------------------------------------------------------------------------------------

  /** `path /= name`. */
  function JoinPath(dir: string, name: string): string {
    if name != "" && name[0] == '/' then name
    else if dir == "" || dir[|dir| - 1] == '/' then dir + name
    else dir + "/" + name
  }

  function IsDirectory(fs: Files, p: Path): bool {
    p in fs && fs[p].Directory?
  }

  function ReadRpc(s: Settings, r: Rpc): (Settings, bool) {
    if r.listen == "" then (s, false)
    else (s.(socketPath := r.listen, socketMode := if r.umode >= 0 then r.umode % 0x200 else s.socketMode), true)
  }

  /** The directory is stored before it is checked. */
  function ReadStorage(fs: Files, s: Settings, st: Storage): (Settings, bool) {
    if !IsDirectory(fs, st.dir) || st.db == "" then (s.(storagePath := st.dir), false)
    else (s.(storagePath := JoinPath(st.dir, st.db)), true)
  }

  /** Entries before one that does not parse are kept. */
  function ReadAllow(s: Settings, es: seq<Option<Access>>): (Settings, bool)
    decreases |es|
  {
    if es == [] then (s, true)
    else if es[0].None? then (s, false)
    else ReadAllow(s.(allowList := s.allowList + [es[0].value]), es[1..])
  }

  function ReadAccess(s: Settings, a: Section<seq<Option<Access>>>): (Settings, bool) {
    match a
    case Absent => (s, true)
    case WrongType => (s, false)
    case Table(es) => ReadAllow(s, es)
  }

  /** The sections of a document, in order; the first failure stops. */
  function ReadSections(fs: Files, s: Settings, d: Doc, isRoot: bool): (Settings, bool) {
    var r := match d.rpc case Table(rpc) => ReadRpc(s, rpc) case WrongType => (s, false) case Absent => (s, !isRoot);
    if !r.1 then r
    else
      var st := match d.storage
                case Table(x) => ReadStorage(fs, r.0, x)
                case WrongType => (r.0, false)
                case Absent => (r.0, !isRoot);
      if !st.1 then st
      else match d.access case Table(a) => ReadAccess(st.0, a) case WrongType => (st.0, false) case Absent => st
  }

  // ---- includes ---------------------------------------------------------------------------------------------------

  /** The files a directory contributes, in the order it lists them. */
  function ConfigEntries(es: seq<DirEntry>): seq<Option<Path>>
    decreases |es|
  {
    if es == [] then []
    else (if es[0].regular && es[0].extension == ".toml" then [Some(es[0].path)] else []) + ConfigEntries(es[1..])
  }

  /** What one include directive asks to read; `None` is a directive that throws. */
  function Expand(fs: Files, p: Path): seq<Option<Path>> {
    if p == "" || p !in fs then [None]
    else match fs[p]
      case Directory(es) => ConfigEntries(es)
      case File(_) => [Some(p)]
  }

  function ExpandAll(fs: Files, ps: seq<Path>): seq<Option<Path>>
    decreases |ps|
  {
    if ps == [] then [] else Expand(fs, ps[0]) + ExpandAll(fs, ps[1..])
  }

  /** Everything a document includes. */
  function Kids(fs: Files, d: Doc): seq<Option<Path>> {
    match d.includes
    case Absent => []
    case WrongType => [None]
    case Table(ps) => ExpandAll(fs, ps)
  }

  function DocAt(fs: Files, p: Path): Option<Doc> {
    if p in fs && fs[p].File? then fs[p].doc else None
  }

  // ---- the traversal ----------------------------------------------------------------------------------------------

  /** Paths that have not been opened: what makes the traversal stop. */
  function Unopened(fs: Files, s: Settings): nat {
    |fs.Keys - s.visited|
  }

  lemma OpeningShrinks(fs: Files, s: Settings, t: Settings, p: Path)
    requires p in fs && p !in s.visited && s.visited + {p} <= t.visited
    ensures Unopened(fs, t) < Unopened(fs, s)
  {
    assert fs.Keys - t.visited <= fs.Keys - s.visited - {p};
    SubsetSize(fs.Keys - t.visited, fs.Keys - s.visited - {p});
    assert |fs.Keys - s.visited - {p}| == |fs.Keys - s.visited| - 1;
  }

  lemma {:induction false} SubsetSize<T>(a: set<T>, b: set<T>)
    requires a <= b
    ensures |a| <= |b|
  {
    if a != {} {
      var x :| x in a;
      SubsetSize(a - {x}, b - {x});
    }
  }

  lemma OpenedGrows(fs: Files, s: Settings, t: Settings)
    requires s.visited <= t.visited
    ensures Unopened(fs, t) <= Unopened(fs, s)
  {
    SubsetSize(fs.Keys - t.visited, fs.Keys - s.visited);
  }

  lemma {:induction false} AllowKeepsOpened(s: Settings, es: seq<Option<Access>>)
    ensures ReadAllow(s, es).0.visited == s.visited
    decreases |es|
  {
    if es != [] && es[0].Some? {
      AllowKeepsOpened(s.(allowList := s.allowList + [es[0].value]), es[1..]);
    }
  }

  lemma SectionsKeepOpened(fs: Files, s: Settings, d: Doc, isRoot: bool)
    ensures ReadSections(fs, s, d, isRoot).0.visited == s.visited
  {
    if d.access.Table? && d.access.value.Table? {
      forall t: Settings ensures ReadAllow(t, d.access.value.value).0.visited == t.visited {
        AllowKeepsOpened(t, d.access.value.value);
      }
    }
  }

  /** Read one file and everything it includes. */
  function Read(fs: Files, s: Settings, p: Path, isRoot: bool): (r: (Settings, bool))
    ensures s.visited <= r.0.visited
    decreases Unopened(fs, s), 0, 0
  {
    if p in s.visited then (s, false)
    else
      var s1 := s.(visited := s.visited + {p});
      var doc := DocAt(fs, p);
      if doc.None? then (s1, false)
      else
        var (s2, ok) := ReadSections(fs, s1, doc.value, isRoot);
        SectionsKeepOpened(fs, s1, doc.value, isRoot);
        if !ok then (s2, false)
        else
          OpeningShrinks(fs, s, s2, p);
          ReadAll(fs, s2, Kids(fs, doc.value))
  }

  /** Read a list of files; the first failure stops. */
  function ReadAll(fs: Files, s: Settings, cs: seq<Option<Path>>): (r: (Settings, bool))
    ensures s.visited <= r.0.visited
    decreases Unopened(fs, s), 1, |cs|
  {
    if cs == [] then (s, true)
    else if cs[0].None? then (s, false)
    else
      var (s', ok) := Read(fs, s, cs[0].value, false);
      if !ok then (s', false)
      else
        OpenedGrows(fs, s, s');
        ReadAll(fs, s', cs[1..])
  }
}
