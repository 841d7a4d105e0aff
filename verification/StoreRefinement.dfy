/** The five tables behave as one map from key names to values. */
module StoreRefinement {
  import opened Prelude
  import opened StoreTables
  import opened StoreOperations

  /** The plain map the store stands for. `Null` is a key that exists without a value. */
  type Store = map<string, PropertyValue>

  /** What is read back for a value that was written. */
  function Normalise(v: PropertyValue): PropertyValue {
    match v
    case Bool(b) => UInt(if b then 1 else 0)
    case Monostate => Null
    case _ => v
  }

  // ---- what every reachable state looks like ----------------------------------------------------------------------

  /** Key names are unique, ids have been handed out by the counter. */
  ghost predicate KeysOk(t: Tables) {
    && (forall i, j :: i in t.keys && j in t.keys && t.keys[i].key == t.keys[j].key ==> i == j)
    && (forall i :: i in t.keys ==> 1 <= i <= t.lastId && t.keys[i].key != "" && t.keys[i].valueType <= TYPE_REAL)
  }

  /** A key of type T owns exactly one row, in T's table; a `Null` key owns none. */
  ghost predicate RowsOk(t: Tables) {
    forall i: nat, ty: Word32 :: HasRow(t, ty, i) <==> i in t.keys && t.keys[i].valueType == ty && HasTable(ty)
  }

  ghost predicate Valid(t: Tables) {
    KeysOk(t) && RowsOk(t)
  }

  // ---- abstraction ------------------------------------------------------------------------------------------------

  ghost function Names(t: Tables): set<string> {
    set i | i in t.keys :: t.keys[i].key
  }

  ghost function ValueAt(t: Tables, i: nat): PropertyValue
    requires i in t.keys
  {
    if HasRow(t, t.keys[i].valueType, i) then ReadRow(t, t.keys[i].valueType, i) else Null
  }

  ghost function Contents(t: Tables): Store {
    map n | n in Names(t) :: ValueAt(t, Find(t, n).value)
  }

  lemma FindIs(t: Tables, i: nat)
    requires KeysOk(t) && i in t.keys
    ensures Find(t, t.keys[i].key) == Some(i)
    ensures t.keys[i].key in Contents(t) && Contents(t)[t.keys[i].key] == ValueAt(t, i)
  {
    assert NameTaken(t, t.keys[i].key);
    assert t.keys[i].key in Names(t);
  }

  lemma NamesFound(t: Tables, n: string)
    ensures n in Contents(t) <==> Find(t, n).Some?
    ensures n in Contents(t) <==> NameTaken(t, n)
  {
    if NameTaken(t, n) {
      var i :| i in t.keys && t.keys[i].key == n;
      assert n in Names(t);
    }
  }

  lemma TypeOfContents(t: Tables, i: nat)
    requires Valid(t) && i in t.keys
    ensures TypeForValue(ValueAt(t, i)) == t.keys[i].valueType
    ensures ValueAt(t, i) == Normalise(ValueAt(t, i))
  {
    assert HasRow(t, t.keys[i].valueType, i) <==> HasTable(t.keys[i].valueType);
  }

  /** Two table states whose key rows agree name by name stand for maps that differ where values do. */
  lemma SameContents(t: Tables, m: Store)
    requires KeysOk(t)
    requires forall i :: i in t.keys ==> t.keys[i].key in m && m[t.keys[i].key] == ValueAt(t, i)
    requires forall n :: n in m ==> NameTaken(t, n)
    ensures Contents(t) == m
  {
    forall n ensures n in Contents(t) <==> n in m {
      NamesFound(t, n);
    }
    forall n | n in m ensures Contents(t)[n] == m[n] {
      var i :| i in t.keys && t.keys[i].key == n;
      FindIs(t, i);
    }
  }

  // ---- the reference store ----------------------------------------------------------------------------------------

  /** May the value of an existing key be replaced by `v` with `updateKey`? */
  predicate MayUpdate(held: PropertyValue, v: PropertyValue) {
    held != Null || TypeForValue(v) == TYPE_NULL
  }

  /** May `setKey` write `v` to `name`? */
  predicate MaySet(m: Store, name: string, v: PropertyValue) {
    if name !in m then name != "" && v != Monostate
    else if m[name] == Null then TypeForValue(v) == TYPE_NULL
    else v == Null || TypeForValue(v) == TypeForValue(m[name])
  }

  /** Statements that insert a key of this type. */
  function InsertStatements(newType: Word32): set<Statement> {
    {InsertKeyRow, CommitTransaction} + (if newType != TYPE_NULL then {InsertValueRow} else {})
  }

  /** Statements that replace a value of one type by one of another. */
  function UpdateStatements(oldType: Word32, newType: Word32): set<Statement> {
    {TouchTimestamp, CommitTransaction}
    + (if oldType != newType then {UpdateTypeColumn, DeleteOldValue} else {})
    + (if newType != TYPE_NULL then {UpsertValue} else {})
  }

  /** Statements an accepted write runs. */
  function WriteStatements(m: Store, name: string, v: PropertyValue): set<Statement> {
    if name !in m then InsertStatements(TypeForValue(v))
    else UpdateStatements(TypeForValue(m[name]), TypeForValue(v))
  }

  /** Names that survive `deleteSubkeys`. */
  function WithoutSubkeys(m: Store, prefix: string): Store {
    map n | n in m && !Like(SubkeyPattern(prefix), n) :: m[n]
  }

  // ---- each operation ---------------------------------------------------------------------------------------------

  lemma PutRowRows(t: Tables, id: nat, v: PropertyValue, ty: Word32, i: nat)
    ensures HasRow(PutRow(t, id, v), ty, i) <==>
            HasRow(t, ty, i) || (i == id && ty == TypeForValue(v) && HasTable(ty))
    ensures HasRow(PutRow(t, id, v), ty, i) ==>
            ReadRow(PutRow(t, id, v), ty, i)
            == if i == id && ty == TypeForValue(v) then Normalise(v) else ReadRow(t, ty, i)
    ensures PutRow(t, id, v).keys == t.keys && PutRow(t, id, v).lastId == t.lastId
  {
  }

  lemma DropRowsRows(t: Tables, dropped: Word32, ids: set<nat>, ty: Word32, i: nat)
    ensures HasRow(DropRows(t, dropped, ids), ty, i) <==> HasRow(t, ty, i) && !(ty == dropped && i in ids)
    ensures HasRow(DropRows(t, dropped, ids), ty, i) ==> ReadRow(DropRows(t, dropped, ids), ty, i) == ReadRow(t, ty, i)
    ensures DropRows(t, dropped, ids).keys == t.keys && DropRows(t, dropped, ids).lastId == t.lastId
  {
  }

  /** The value tables of `t'` hold what those of `t` hold, except that the row of `id` is now that of `v`. */
  ghost predicate OneRowWritten(t: Tables, t': Tables, id: nat, v: PropertyValue) {
    forall i: nat, ty: Word32 ::
      && (HasRow(t', ty, i) <==> if i == id then ty == TypeForValue(v) && HasTable(ty) else HasRow(t, ty, i))
      && (HasRow(t', ty, i) ==> ReadRow(t', ty, i) == if i == id then Normalise(v) else ReadRow(t, ty, i))
  }

  lemma OneKeyRows(t: Tables, t': Tables, id: nat, name: string, v: PropertyValue)
    requires RowsOk(t) && OneRowWritten(t, t', id, v)
    requires t'.keys == t.keys[id := KeyRow(name, TypeForValue(v))]
    ensures RowsOk(t')
    ensures ValueAt(t', id) == Normalise(v)
    ensures forall i :: i in t.keys && i != id ==> ValueAt(t', i) == ValueAt(t, i)
  {
    forall i: nat, ty: Word32
      ensures HasRow(t', ty, i) <==> i in t'.keys && t'.keys[i].valueType == ty && HasTable(ty)
    {
      assert HasRow(t, ty, i) <==> i in t.keys && t.keys[i].valueType == ty && HasTable(ty);
    }
  }

  lemma OneKeyContents(t: Tables, t': Tables, id: nat, name: string, value: PropertyValue)
    requires KeysOk(t) && KeysOk(t')
    requires t'.keys.Keys == t.keys.Keys + {id} && t'.keys[id].key == name
    requires forall i :: i in t.keys ==> t'.keys[i].key == t.keys[i].key
    requires ValueAt(t', id) == value
    requires forall i :: i in t.keys && i != id ==> ValueAt(t', i) == ValueAt(t, i)
    ensures Contents(t') == Contents(t)[name := value]
  {
    var m := Contents(t)[name := value];
    forall i | i in t'.keys ensures t'.keys[i].key in m && m[t'.keys[i].key] == ValueAt(t', i) {
      if i != id {
        FindIs(t, i);
      }
    }
    forall n | n in m ensures NameTaken(t', n) {
      if n == name {
        assert id in t'.keys;
      } else {
        NamesFound(t, n);
        var i :| i in t.keys && t.keys[i].key == n;
        assert i in t'.keys;
      }
    }
    SameContents(t', m);
  }

  lemma OneKeyWritten(t: Tables, t': Tables, id: nat, name: string, v: PropertyValue)
    requires Valid(t) && 1 <= id <= t'.lastId && t.lastId <= t'.lastId && name != ""
    requires t'.keys == t.keys[id := KeyRow(name, TypeForValue(v))]
    requires if id in t.keys then t.keys[id].key == name else !NameTaken(t, name)
    requires OneRowWritten(t, t', id, v)
    ensures Valid(t') && Contents(t') == Contents(t)[name := Normalise(v)]
  {
    OneKeyRows(t, t', id, name, v);
    OneKeyContents(t, t', id, name, Normalise(v));
  }

  lemma InsertWrites(t: Tables, name: string, v: PropertyValue, fails: set<Statement>)
    requires Valid(t) && Insert(t, name, v, fails).1.Ok?
    ensures OneRowWritten(t, Insert(t, name, v, fails).0, t.lastId + 1, v)
    ensures Insert(t, name, v, fails).0.keys == t.keys[t.lastId + 1 := KeyRow(name, TypeForValue(v))]
    ensures Insert(t, name, v, fails).0.lastId == t.lastId + 1
  {
    var t' := Insert(t, name, v, fails).0;
    var id := t.lastId + 1;
    var withKey := t.(keys := t.keys[id := KeyRow(name, TypeForValue(v))], lastId := id);
    PutRowRows(withKey, id, v, 0, 0);
    forall i: nat, ty: Word32
      ensures HasRow(t', ty, i) <==> if i == id then ty == TypeForValue(v) && HasTable(ty) else HasRow(t, ty, i)
      ensures HasRow(t', ty, i) ==> ReadRow(t', ty, i) == if i == id then Normalise(v) else ReadRow(t, ty, i)
    {
      PutRowRows(withKey, id, v, ty, i);
      assert HasRow(t, ty, id) ==> id in t.keys;
    }
  }

  lemma InsertRefines(t: Tables, name: string, v: PropertyValue, fails: set<Statement>)
    requires Valid(t)
    ensures Valid(Insert(t, name, v, fails).0)
    ensures Insert(t, name, v, fails).1.Ok? <==>
            name !in Contents(t) && MaySet(Contents(t), name, v) && t.lastId < MAX_ROWID
            && fails !! WriteStatements(Contents(t), name, v)
    ensures Contents(Insert(t, name, v, fails).0)
            == if Insert(t, name, v, fails).1.Ok? then Contents(t)[name := Normalise(v)] else Contents(t)
    ensures Insert(t, name, v, fails).1.Err? ==> Insert(t, name, v, fails).0 == t
  {
    NamesFound(t, name);
    if Insert(t, name, v, fails).1.Ok? {
      InsertWrites(t, name, v, fails);
      OneKeyWritten(t, Insert(t, name, v, fails).0, t.lastId + 1, name, v);
    }
  }

  lemma UpdateWrites(t: Tables, id: Word32, v: PropertyValue, fails: set<Statement>)
    requires Valid(t) && id in t.keys && Update(t, id, t.keys[id].valueType, v, fails).1.Ok?
    ensures OneRowWritten(t, Update(t, id, t.keys[id].valueType, v, fails).0, id, v)
    ensures Update(t, id, t.keys[id].valueType, v, fails).0.keys
            == t.keys[id := KeyRow(t.keys[id].key, TypeForValue(v))]
    ensures Update(t, id, t.keys[id].valueType, v, fails).0.lastId == t.lastId
  {
    var oldType := t.keys[id].valueType;
    var t' := Update(t, id, oldType, v, fails).0;
    var rekeyed := t.(keys := t.keys[id := KeyRow(t.keys[id].key, TypeForValue(v))]);
    var retyped := if oldType == TypeForValue(v) then t else DropRows(rekeyed, oldType, {id});
    PutRowRows(retyped, id, v, 0, 0);
    DropRowsRows(rekeyed, oldType, {id}, 0, 0);
    forall i: nat, ty: Word32
      ensures HasRow(t', ty, i) <==> if i == id then ty == TypeForValue(v) && HasTable(ty) else HasRow(t, ty, i)
      ensures HasRow(t', ty, i) ==> ReadRow(t', ty, i) == if i == id then Normalise(v) else ReadRow(t, ty, i)
    {
      PutRowRows(retyped, id, v, ty, i);
      DropRowsRows(rekeyed, oldType, {id}, ty, i);
      assert HasRow(t, ty, id) <==> ty == oldType && HasTable(ty);
    }
  }

  lemma UpdateSucceeds(t: Tables, id: Word32, oldType: Word32, v: PropertyValue, fails: set<Statement>)
    ensures Update(t, id, oldType, v, fails).1.Ok? <==>
            id in t.keys && (oldType == TypeForValue(v) || HasTable(oldType))
            && fails !! UpdateStatements(oldType, TypeForValue(v))
    ensures Update(t, id, oldType, v, fails).1.Err? ==> Update(t, id, oldType, v, fails).0 == t
  {
  }

  lemma UpdateRefines(t: Tables, id: Word32, claimed: Word32, v: PropertyValue, fails: set<Statement>)
    requires Valid(t)
    ensures Valid(Update(t, id, StoredType(t, id, claimed), v, fails).0)
    ensures Update(t, id, StoredType(t, id, claimed), v, fails).1.Ok? <==>
            id in t.keys && MayUpdate(ValueAt(t, id), v) && fails !! WriteStatements(Contents(t), t.keys[id].key, v)
    ensures Contents(Update(t, id, StoredType(t, id, claimed), v, fails).0)
            == if Update(t, id, StoredType(t, id, claimed), v, fails).1.Ok?
               then Contents(t)[t.keys[id].key := Normalise(v)] else Contents(t)
    ensures Update(t, id, StoredType(t, id, claimed), v, fails).1.Err? ==>
            Update(t, id, StoredType(t, id, claimed), v, fails).0 == t
  {
    hide RowsOk, Update, PutRow, DropRows;
    var oldType := StoredType(t, id, claimed);
    UpdateSucceeds(t, id, oldType, v, fails);
    if id in t.keys {
      FindIs(t, id);
      TypeOfContents(t, id);
      assert WriteStatements(Contents(t), t.keys[id].key, v) == UpdateStatements(oldType, TypeForValue(v));
      if Update(t, id, oldType, v, fails).1.Ok? {
        UpdateWrites(t, id, v, fails);
        OneKeyWritten(t, Update(t, id, oldType, v, fails).0, id, t.keys[id].key, v);
      }
    }
  }

  /** `setKey` on an existing key is `updateKey`, or a refusal. */
  lemma SetExisting(t: Tables, id: nat, v: PropertyValue, fails: set<Statement>)
    requires KeysOk(t) && id in t.keys && id < TWO_32
    ensures Set(t, t.keys[id].key, v, fails)
            == if SelectKey in fails then (t, Err(Sql))
               else if t.keys[id].valueType == TYPE_NULL || v == Null || t.keys[id].valueType == TypeForValue(v) then
                 Update(t, id, t.keys[id].valueType, v, fails)
               else (t, Err(TypeChange))
  {
    FindIs(t, id);
    assert ToWord32(id) == id;
  }

  lemma SetRefines(t: Tables, name: string, v: PropertyValue, fails: set<Statement>)
    requires Valid(t) && t.lastId < TWO_32
    ensures Valid(Set(t, name, v, fails).0)
    ensures Set(t, name, v, fails).1.Ok? <==>
            MaySet(Contents(t), name, v) && SelectKey !in fails && fails !! WriteStatements(Contents(t), name, v)
    ensures Contents(Set(t, name, v, fails).0)
            == if Set(t, name, v, fails).1.Ok? then Contents(t)[name := Normalise(v)] else Contents(t)
    ensures Set(t, name, v, fails).1.Err? ==> Set(t, name, v, fails).0 == t
  {
    NamesFound(t, name);
    if NameTaken(t, name) {
      var id := Find(t, name).value;
      FindIs(t, id);
      TypeOfContents(t, id);
      SetExisting(t, id, v, fails);
      UpdateRefines(t, id, 0, v, fails);
    } else {
      InsertRefines(t, name, v, fails);
    }
  }

  /** Which exception a refused `setKey` throws. */
  lemma SetErrors(t: Tables, name: string, v: PropertyValue, fails: set<Statement>)
    requires Valid(t) && t.lastId < TWO_32
    ensures var m := Contents(t); var r := Set(t, name, v, fails).1;
      && (r == Err(InvalidName) <==> SelectKey !in fails && name !in m && name == "")
      && (r == Err(InvalidValue) <==> SelectKey !in fails && name !in m && name != "" && v == Monostate)
      && (r == Err(TypeChange) <==> SelectKey !in fails && name in m && m[name] != Null && v != Null
                                    && TypeForValue(v) != TypeForValue(m[name]))
      && (r.Err? ==> r.error == InvalidName || r.error == InvalidValue || r.error == TypeChange || r.error == Sql)
      && (r.Ok? ==> r.value == 1)
  {
    NamesFound(t, name);
    if NameTaken(t, name) {
      var id := Find(t, name).value;
      FindIs(t, id);
      TypeOfContents(t, id);
      SetExisting(t, id, v, fails);
      UpdateSucceeds(t, id, t.keys[id].valueType, v, fails);
      UpdateErrors(t, id, t.keys[id].valueType, v, fails);
      NullType(t, name);
      hide RowsOk, Set, Update, Insert;
    } else {
      InsertErrors(t, name, v, fails);
      hide RowsOk, Insert;
    }
  }

  lemma UpdateErrors(t: Tables, id: Word32, oldType: Word32, v: PropertyValue, fails: set<Statement>)
    ensures Update(t, id, oldType, v, fails).1 == if Update(t, id, oldType, v, fails).1.Ok? then Ok(1) else Err(Sql)
  {
    hide PutRow, DropRows;
  }

  lemma InsertErrors(t: Tables, name: string, v: PropertyValue, fails: set<Statement>)
    ensures var r := Insert(t, name, v, fails).1;
      && (r == Err(InvalidName) <==> name == "")
      && (r == Err(InvalidValue) <==> name != "" && v == Monostate)
      && (r.Err? ==> r.error == InvalidName || r.error == InvalidValue || r.error == Sql)
      && (r.Ok? ==> r.value == 1)
  {
    hide PutRow;
  }

  lemma DeleteContents(t: Tables, prefix: string)
    requires Valid(t)
    ensures var t' := DeleteKeyRows(t, Selected(t, SubkeyPattern(prefix)));
      Valid(t') && Contents(t') == WithoutSubkeys(Contents(t), prefix)
  {
    var ids := Selected(t, SubkeyPattern(prefix));
    var t' := DeleteKeyRows(t, ids);
    forall i: nat, ty: Word32
      ensures HasRow(t', ty, i) <==> HasRow(t, ty, i) && i !in ids
      ensures HasRow(t', ty, i) ==> ReadRow(t', ty, i) == ReadRow(t, ty, i)
    {
    }
    assert RowsOk(t') && KeysOk(t');
    var m := WithoutSubkeys(Contents(t), prefix);
    forall i | i in t'.keys ensures t'.keys[i].key in m && m[t'.keys[i].key] == ValueAt(t', i) {
      FindIs(t, i);
    }
    forall n | n in m ensures NameTaken(t', n) {
      NamesFound(t, n);
      var i :| i in t.keys && t.keys[i].key == n;
      assert i in t'.keys && t'.keys[i].key == n;
    }
    SameContents(t', m);
  }

  /** The row count `deleteSubkeys` reports is the number of names that disappeared. */
  lemma DeleteCount(t: Tables, prefix: string)
    requires Valid(t)
    ensures |Selected(t, SubkeyPattern(prefix))|
            == |Contents(t).Keys - WithoutSubkeys(Contents(t), prefix).Keys|
  {
    var ids := Selected(t, SubkeyPattern(prefix));
    var gone := Contents(t).Keys - WithoutSubkeys(Contents(t), prefix).Keys;
    forall i | i in ids ensures t.keys[i].key in gone {
      FindIs(t, i);
    }
    forall n | n in gone ensures exists i :: i in ids && t.keys[i].key == n {
      NamesFound(t, n);
      var i :| i in t.keys && t.keys[i].key == n;
      assert i in ids;
    }
    SameSize(ids, gone, map i | i in ids :: t.keys[i].key);
  }

  /** `deleteSubkeys` removes exactly the names its pattern selects, with their rows. */
  lemma DeleteRefines(t: Tables, prefix: string, fails: set<Statement>)
    requires Valid(t)
    ensures var (t', r) := DeleteSubkeys(t, prefix, fails);
      && Valid(t')
      && (r.Ok? <==> DeleteKeys !in fails)
      && Contents(t') == (if r.Ok? then WithoutSubkeys(Contents(t), prefix) else Contents(t))
      && (r.Ok? ==> r.value == |Contents(t).Keys - Contents(t').Keys|)
      && (r.Err? ==> t' == t)
  {
    DeleteContents(t, prefix);
    DeleteCount(t, prefix);
  }

  /** A bijection between finite sets: they have the same size. */
  lemma {:induction false} SameSize(a: set<nat>, b: set<string>, f: map<nat, string>)
    requires f.Keys == a
    requires forall i :: i in a ==> f[i] in b
    requires forall i, j :: i in a && j in a && f[i] == f[j] ==> i == j
    requires forall n :: n in b ==> exists i :: i in a && f[i] == n
    ensures |a| == |b|
  {
    if a == {} {
      assert b == {};
    } else {
      var i :| i in a;
      forall n | n in b - {f[i]} ensures exists j :: j in a - {i} && (f - {i})[j] == n {
        var j :| j in a && f[j] == n;
        assert j in a - {i};
      }
      SameSize(a - {i}, b - {f[i]}, f - {i});
    }
  }

  // ---- reading ----------------------------------------------------------------------------------------------------

  /** A read never hits a consistency error and returns the value the map holds. */
  lemma GetRefines(t: Tables, name: string, fails: set<Statement>)
    requires Valid(t) && t.lastId < TWO_32
    ensures var r := Get(t, name, fails);
      && (r.Ok? ==> r.value == if name in Contents(t) then Contents(t)[name] else Monostate)
      && (r.Err? ==> r.error == Sql && fails != {})
  {
    NamesFound(t, name);
    if NameTaken(t, name) {
      var id := Find(t, name).value;
      FindIs(t, id);
      assert ToWord32(id) == id;
      assert HasRow(t, t.keys[id].valueType, id) <==> HasTable(t.keys[id].valueType);
    }
  }

  /** Once ids outgrow 32 bits reads go wrong: a typed key with such an id reads back its own value
      exactly when another key of the same type happens to sit at the truncated id with that value. */
  lemma TruncatedIds(t: Tables, id: nat)
    requires Valid(t) && id in t.keys && t.keys[id].valueType != TYPE_NULL && TWO_32 <= id
    ensures var alias := ToWord32(id);
      Get(t, t.keys[id].key, {}) == Ok(ValueAt(t, id)) <==>
      alias in t.keys && t.keys[alias].valueType == t.keys[id].valueType && ValueAt(t, alias) == ValueAt(t, id)
  {
    FindIs(t, id);
    var alias := ToWord32(id);
    assert HasRow(t, t.keys[id].valueType, alias)
        <==> alias in t.keys && t.keys[alias].valueType == t.keys[id].valueType;
    assert HasRow(t, t.keys[id].valueType, id);
  }

  /** The key inserted into an empty store whose counter has reached 2^32 cannot be read. */
  lemma TruncatedIdExample()
    ensures var t := Insert(EMPTY.(lastId := TWO_32 - 1), "a", UInt(7), {}).0;
      Valid(t) && Contents(t) == map["a" := UInt(7)] && Get(t, "a", {}) == Err(NoValue)
  {
    var t0 := EMPTY.(lastId := TWO_32 - 1);
    InsertRefines(t0, "a", UInt(7), {});
    assert Contents(t0) == map[];
    var t := Insert(t0, "a", UInt(7), {}).0;
    assert t.keys[TWO_32].key == "a";
    FindIs(t, TWO_32);
  }

  // ---- whole runs -------------------------------------------------------------------------------------------------

  /** The effect of a committed call on the plain map. */
  ghost function RefStep(m: Store, t: Tables, op: StoreOp): Store {
    match op
    case SetOp(n, v) => m[n := Normalise(v)]
    case InsertOp(n, v) => m[n := Normalise(v)]
    case UpdateOp(k, _, v) => if k in t.keys then m[t.keys[k].key := Normalise(v)] else m
    case DeleteOp(p) => WithoutSubkeys(m, p)
  }

  /** The plain map after a run: committed calls act, all others leave it alone. */
  ghost function RefRun(t: Tables, calls: seq<Call>): Store {
    if calls == [] then Contents(t)
    else
      var before := Run(t, calls[..|calls| - 1]);
      var last := calls[|calls| - 1];
      var m := RefRun(t, calls[..|calls| - 1]);
      if Apply(before, last).1.Ok? then RefStep(m, before, last.op) else m
  }

  lemma ApplyRefines(t: Tables, c: Call)
    requires Valid(t) && t.lastId < TWO_32
    ensures Valid(Apply(t, c).0)
    ensures Contents(Apply(t, c).0)
            == if Apply(t, c).1.Ok? then RefStep(Contents(t), t, c.op) else Contents(t)
    ensures Apply(t, c).1.Err? ==> Apply(t, c).0 == t
  {
    match c.op
    case SetOp(n, v) => SetRefines(t, n, v, c.fails);
    case InsertOp(n, v) => InsertRefines(t, n, v, c.fails);
    case UpdateOp(k, claimed, v) => UpdateRefines(t, k, claimed, v, c.fails);
    case DeleteOp(p) => DeleteRefines(t, p, c.fails);
  }

  lemma {:induction false} CounterGrows(t: Tables, calls: seq<Call>, k: nat)
    requires k <= |calls|
    ensures Run(t, calls[..k]).lastId <= Run(t, calls).lastId
  {
    if k < |calls| {
      var n := |calls| - 1;
      assert calls[..n][..k] == calls[..k];
      CounterGrows(t, calls[..n], k);
      ApplyCounter(Run(t, calls[..n]), calls[n]);
    } else {
      assert calls[..k] == calls;
    }
  }

  lemma UpdateCounter(t: Tables, keyId: Word32, oldType: Word32, v: PropertyValue, fails: set<Statement>)
    ensures Update(t, keyId, oldType, v, fails).0.lastId == t.lastId
  {
    if keyId in t.keys {
      var rekeyed := t.(keys := t.keys[keyId := KeyRow(t.keys[keyId].key, TypeForValue(v))]);
      DropRowsRows(rekeyed, oldType, {keyId}, 0, 0);
      PutRowRows(t, keyId, v, 0, 0);
      PutRowRows(DropRows(rekeyed, oldType, {keyId}), keyId, v, 0, 0);
    }
  }

  lemma InsertCounter(t: Tables, name: string, v: PropertyValue, fails: set<Statement>)
    ensures t.lastId <= Insert(t, name, v, fails).0.lastId <= t.lastId + 1
  {
    var id := t.lastId + 1;
    PutRowRows(t.(keys := t.keys[id := KeyRow(name, TypeForValue(v))], lastId := id), id, v, 0, 0);
  }

  lemma ApplyCounter(t: Tables, c: Call)
    ensures t.lastId <= Apply(t, c).0.lastId <= t.lastId + 1
  {
    match c.op
    case SetOp(n, v) =>
      InsertCounter(t, n, v, c.fails);
      if NameTaken(t, n) {
        var id := Find(t, n).value;
        UpdateCounter(t, ToWord32(id), t.keys[id].valueType, v, c.fails);
      }
    case InsertOp(n, v) => InsertCounter(t, n, v, c.fails);
    case UpdateOp(k, claimed, v) => UpdateCounter(t, k, StoredType(t, k, claimed), v, c.fails);
    case DeleteOp(p) =>
  }

  /** In every state reached from an empty database by any sequence of calls, failing or not, the
      tables are consistent and stand for the map built by the committed calls alone. */
  lemma {:induction false} EveryRun(calls: seq<Call>)
    requires Run(EMPTY, calls).lastId < TWO_32
    ensures Valid(Run(EMPTY, calls))
    ensures Contents(Run(EMPTY, calls)) == RefRun(EMPTY, calls)
    ensures forall name, fails ::
      Get(Run(EMPTY, calls), name, fails).Ok? ==>
      Get(Run(EMPTY, calls), name, fails).value
      == (if name in RefRun(EMPTY, calls) then RefRun(EMPTY, calls)[name] else Monostate)
    ensures forall name, fails ::
      Get(Run(EMPTY, calls), name, fails).Err? ==> Get(Run(EMPTY, calls), name, fails).error == Sql && fails != {}
  {
    if calls != [] {
      var n := |calls| - 1;
      CounterGrows(EMPTY, calls, n);
      EveryRun(calls[..n]);
      ApplyRefines(Run(EMPTY, calls[..n]), calls[n]);
    }
    forall name, fails
      ensures var r := Get(Run(EMPTY, calls), name, fails);
        && (r.Ok? ==> r.value == if name in RefRun(EMPTY, calls) then RefRun(EMPTY, calls)[name] else Monostate)
        && (r.Err? ==> r.error == Sql && fails != {})
    {
      GetRefines(Run(EMPTY, calls), name, fails);
    }
  }

  // ---- type discipline --------------------------------------------------------------------------------------------

  /** Calls a client of the store can make: `updateKey` is reached through `setKey` only. */
  predicate Public(calls: seq<Call>) {
    forall i :: 0 <= i < |calls| ==> !calls[i].op.UpdateOp?
  }

  ghost function ContentsAfter(calls: seq<Call>, k: nat): Store
    requires k <= |calls|
  {
    Contents(Run(EMPTY, calls[..k]))
  }

  lemma StepAfter(calls: seq<Call>, k: nat)
    requires k < |calls|
    ensures Run(EMPTY, calls[..k + 1]) == Apply(Run(EMPTY, calls[..k]), calls[k]).0
  {
    assert calls[..k + 1][..k] == calls[..k];
  }

  /** From `m` to `m'` the type of `name` is the same, or has become `Null`; `Null` stays. */
  predicate KeepsType(m: Store, m': Store, name: string) {
    name in m && name in m' &&
    (TypeForValue(m'[name]) == TypeForValue(m[name]) || m'[name] == Null) && (m[name] == Null ==> m'[name] == Null)
  }

  lemma WriteKeepsType(m: Store, name: string, v: PropertyValue)
    requires name in m && MaySet(m, name, v)
    requires TypeForValue(m[name]) == TYPE_NULL ==> m[name] == Null
    ensures KeepsType(m, m[name := Normalise(v)], name)
  {
  }

  lemma SetKeepsType(t: Tables, n: string, v: PropertyValue, fails: set<Statement>, name: string)
    requires Valid(t) && t.lastId < TWO_32 && name in Contents(t)
    ensures KeepsType(Contents(t), Contents(Set(t, n, v, fails).0), name)
  {
    SetRefines(t, n, v, fails);
    NullType(t, name);
    if Set(t, n, v, fails).1.Ok? && n == name {
      WriteKeepsType(Contents(t), name, v);
    }
  }

  lemma OneCallKeepsType(t: Tables, c: Call, name: string)
    requires Valid(t) && t.lastId < TWO_32 && !c.op.UpdateOp?
    requires name in Contents(t) && name in Contents(Apply(t, c).0)
    ensures KeepsType(Contents(t), Contents(Apply(t, c).0), name)
  {
    hide Valid, Set, Insert, DeleteKeyRows;
    match c.op {
      case SetOp(n, v) => SetKeepsType(t, n, v, c.fails, name);
      case InsertOp(n, v) => InsertRefines(t, n, v, c.fails);
      case DeleteOp(p) => DeleteRefines(t, p, c.fails);
    }
  }

  lemma RunStep(calls: seq<Call>, k: nat, name: string)
    requires Public(calls) && k < |calls| && Run(EMPTY, calls).lastId < TWO_32
    requires name in ContentsAfter(calls, k) && name in ContentsAfter(calls, k + 1)
    ensures KeepsType(ContentsAfter(calls, k), ContentsAfter(calls, k + 1), name)
  {
    CounterGrows(EMPTY, calls, k);
    EveryRun(calls[..k]);
    StepAfter(calls, k);
    OneCallKeepsType(Run(EMPTY, calls[..k]), calls[k], name);
  }

  /** A key that is never deleted between two points of a run keeps its stored type, unless it
      has become `Null`; and `Null` is for good: only deletion gives the name a new type. */
  lemma {:induction false} TypesAreKept(calls: seq<Call>, name: string, i: nat, j: nat)
    requires Public(calls) && i <= j <= |calls| && Run(EMPTY, calls).lastId < TWO_32
    requires forall k :: i <= k <= j ==> name in ContentsAfter(calls, k)
    ensures KeepsType(ContentsAfter(calls, i), ContentsAfter(calls, j), name)
  {
    if i < j {
      TypesAreKept(calls, name, i, j - 1);
      RunStep(calls, j - 1, name);
    }
  }

  lemma NullType(t: Tables, name: string)
    requires Valid(t) && name in Contents(t)
    ensures TypeForValue(Contents(t)[name]) == TYPE_NULL <==> Contents(t)[name] == Null
  {
    NamesFound(t, name);
    TypeOfContents(t, Find(t, name).value);
  }

  /** The comments on `setKey` promise that a `Null` key accepts any type; it accepts none. */
  lemma NullAcceptsNothing(t: Tables, name: string, v: PropertyValue)
    requires Valid(t) && t.lastId < TWO_32 && name in Contents(t) && Contents(t)[name] == Null
    ensures Set(t, name, v, {}).1.Ok? <==> v == Null || v == Monostate
    ensures Set(t, name, v, {}).0 == t
  {
    SetRefines(t, name, v, {});
    NamesFound(t, name);
    var id := Find(t, name).value;
    FindIs(t, id);
    TypeOfContents(t, id);
    SetExisting(t, id, v, {});
    if v == Null || v == Monostate {
      UpdateWrites(t, id, v, {});
    }
  }
}
