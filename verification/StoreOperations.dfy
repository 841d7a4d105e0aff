/** What each store operation does to the tables, as one transaction: the new tables and the
    outcome. `fails` is the set of SQL statements that throw during the call. */
module StoreOperations {
  import opened Prelude
  import opened StoreTables

  datatype Statement =
    | SelectKey | SelectValue
    | InsertKeyRow | InsertValueRow
    | UpdateTypeColumn | DeleteOldValue | UpsertValue | TouchTimestamp
    | CommitTransaction
    | DeleteKeys

  type Outcome = Result<nat, StoreError>

  ghost function Get(t: Tables, name: string, fails: set<Statement>): Result<PropertyValue, StoreError> {
    if SelectKey in fails then Err(Sql)
    else match Find(t, name)
      case None => Ok(Monostate)
      case Some(id) =>
        var ty := t.keys[id].valueType;
        if ty == TYPE_NULL then Ok(Null)
        else if !HasTable(ty) then Err(UnknownTable)
        else if SelectValue in fails then Err(Sql)
        else if !HasRow(t, ty, ToWord32(id)) then Err(NoValue)
        else Ok(ReadRow(t, ty, ToWord32(id)))
  }

  function Insert(t: Tables, name: string, value: PropertyValue, fails: set<Statement>): (Tables, Outcome) {
    if name == "" then (t, Err(InvalidName))
    else if value == Monostate then (t, Err(InvalidValue))
    else if InsertKeyRow in fails || NameTaken(t, name) || t.lastId >= MAX_ROWID then (t, Err(Sql))
    else if TypeForValue(value) != TYPE_NULL && InsertValueRow in fails then (t, Err(Sql))
    else if CommitTransaction in fails then (t, Err(Sql))
    else
      var id := t.lastId + 1;
      var withKey := t.(keys := t.keys[id := KeyRow(name, TypeForValue(value))], lastId := id);
      (PutRow(withKey, id, value), Ok(1))
  }

  function Update(t: Tables, keyId: Word32, oldType: Word32, value: PropertyValue, fails: set<Statement>)
    : (Tables, Outcome)
  {
    var newType := TypeForValue(value);
    if keyId !in t.keys then (t, Err(Sql))
    else if oldType != newType && (UpdateTypeColumn in fails || !HasTable(oldType) || DeleteOldValue in fails) then
      (t, Err(Sql))
    else if newType != TYPE_NULL && UpsertValue in fails then (t, Err(Sql))
    else if TouchTimestamp in fails || CommitTransaction in fails then (t, Err(Sql))
    else
      var retyped := if oldType == newType then t
                     else DropRows(t.(keys := t.keys[keyId := KeyRow(t.keys[keyId].key, newType)]), oldType, {keyId});
      (PutRow(retyped, keyId, value), Ok(1))
  }

  ghost function Set(t: Tables, name: string, value: PropertyValue, fails: set<Statement>): (Tables, Outcome) {
    if SelectKey in fails then (t, Err(Sql))
    else match Find(t, name)
      case None => Insert(t, name, value, fails)
      case Some(id) =>
        var oldType := t.keys[id].valueType;
        if oldType == TYPE_NULL || value == Null || oldType == TypeForValue(value) then
          Update(t, ToWord32(id), oldType, value, fails)
        else (t, Err(TypeChange))
  }

  /** The key rows a `DELETE ... WHERE key LIKE` selects. */
  function Selected(t: Tables, pattern: string): set<nat> {
    set id | id in t.keys && Like(pattern, t.keys[id].key)
  }

  /** Deleting key rows cascades into the value tables. */
  function DeleteKeyRows(t: Tables, ids: set<nat>): Tables {
    t.(keys := t.keys - ids, texts := t.texts - ids, blobs := t.blobs - ids,
       integers := t.integers - ids, reals := t.reals - ids)
  }

  function DeleteSubkeys(t: Tables, prefix: string, fails: set<Statement>): (Tables, Outcome) {
    if DeleteKeys in fails then (t, Err(Sql))
    else
      var ids := Selected(t, SubkeyPattern(prefix));
      (DeleteKeyRows(t, ids), Ok(|ids|))
  }

  // ---- any sequence of calls --------------------------------------------------------------------------------------

  /** `UpdateOp` is `updateKey` called as its callers do: on a key id, with the type stored for it.
      `claimed` is the type passed when no such key exists. */
  datatype StoreOp =
    | SetOp(name: string, value: PropertyValue)
    | InsertOp(name: string, value: PropertyValue)
    | UpdateOp(keyId: Word32, claimed: Word32, value: PropertyValue)
    | DeleteOp(prefix: string)

  datatype Call = Call(op: StoreOp, fails: set<Statement>)

  function StoredType(t: Tables, keyId: nat, claimed: Word32): Word32 {
    if keyId in t.keys then t.keys[keyId].valueType else claimed
  }

  ghost function Apply(t: Tables, c: Call): (Tables, Outcome) {
    match c.op
    case SetOp(n, v) => Set(t, n, v, c.fails)
    case InsertOp(n, v) => Insert(t, n, v, c.fails)
    case UpdateOp(k, claimed, v) => Update(t, k, StoredType(t, k, claimed), v, c.fails)
    case DeleteOp(p) => DeleteSubkeys(t, p, c.fails)
  }

  /** The tables after the first `|calls|` calls. */
  ghost function Run(t: Tables, calls: seq<Call>): Tables {
    if calls == [] then t else Apply(Run(t, calls[..|calls| - 1]), calls[|calls| - 1]).0
  }
}
