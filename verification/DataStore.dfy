/** The data store as the daemon runs it: statements change the tables one by one inside a
    transaction, and anything thrown before the commit rolls all of them back. */
module DataStores {
  import opened Prelude
  import opened StoreTables
  import opened StoreOperations
  import opened StoreRefinement

  class DataStore {
    var keys: map<nat, KeyRow>
    var lastId: nat
    var texts: map<nat, CText>
    var blobs: map<nat, Bytes>
    var integers: map<nat, Int64>
    var reals: map<nat, Real64>

    function Db(): Tables
      reads this
    {
      Tables(keys, lastId, texts, blobs, integers, reals)
    }

    /** The map from names to values this store stands for. */
    ghost function Map(): Store
      reads this
    {
      Contents(Db())
    }

    constructor ()
      ensures Db() == EMPTY && Valid(Db()) && Map() == map[]
    {
      keys, lastId, texts, blobs, integers, reals := map[], 0, map[], map[], map[], map[];
    }

    method Rollback(saved: Tables)
      modifies this
      ensures Db() == saved
    {
      keys, lastId := saved.keys, saved.lastId;
      texts, blobs, integers, reals := saved.texts, saved.blobs, saved.integers, saved.reals;
    }

    /** Write the value row of `id` into the table of the value's type. */
    method WriteValueRow(id: nat, value: PropertyValue)
      modifies this
      ensures Db() == PutRow(old(Db()), id, value)
    {
      match value {
        case Text(s) => texts := texts[id := s];
        case Blob(b) => blobs := blobs[id := b];
        case UInt(n) => integers := integers[id := ToSigned(n)];
        case Bool(b) => integers := integers[id := if b then 1 else 0];
        case Real(r) => reals := reals[id := r];
        case Null =>
        case Monostate =>
      }
    }

    method DeleteValueRow(id: nat, ty: Word32)
      modifies this
      ensures Db() == DropRows(old(Db()), ty, {id})
    {
      if ty == TYPE_STRING {
        texts := texts - {id};
      } else if ty == TYPE_BLOB {
        blobs := blobs - {id};
      } else if ty == TYPE_INTEGER {
        integers := integers - {id};
      } else if ty == TYPE_REAL {
        reals := reals - {id};
      }
    }

    method LookUp(name: string) returns (r: Option<nat>)
      requires Valid(Db())
      ensures r == Find(Db(), name)
    {
      if id :| id in keys && keys[id].key == name {
        FindIs(Db(), id);
        return Some(id);
      }
      return None;
    }

    method GetKey(name: string, fails: set<Statement>) returns (r: Result<PropertyValue, StoreError>)
      requires Valid(Db())
      ensures r == Get(Db(), name, fails)
      ensures lastId < TWO_32 && r.Ok? ==> r.value == if name in Map() then Map()[name] else Monostate
      ensures lastId < TWO_32 && r.Err? ==> r.error == Sql && fails != {}
    {
      if lastId < TWO_32 {
        GetRefines(Db(), name, fails);
      }
      if SelectKey in fails {
        return Err(Sql);
      }
      var found := LookUp(name);
      if found.None? {
        return Ok(Monostate);
      }
      var keyId := ToWord32(found.value);
      var valueType := keys[found.value].valueType;
      if valueType == TYPE_NULL {
        return Ok(Null);
      }
      if !HasTable(valueType) {
        return Err(UnknownTable);
      }
      if SelectValue in fails {
        return Err(Sql);
      }
      if !HasRow(Db(), valueType, keyId) {
        return Err(NoValue);
      }
      if valueType == TYPE_STRING {
        return Ok(Text(texts[keyId]));
      } else if valueType == TYPE_BLOB {
        return Ok(Blob(blobs[keyId]));
      } else if valueType == TYPE_INTEGER {
        return Ok(UInt(ToUnsigned(integers[keyId])));
      } else if valueType == TYPE_REAL {
        return Ok(Real(reals[keyId]));
      }
      return Err(UnsupportedType);
    }

    method SetKey(name: string, value: PropertyValue, fails: set<Statement>) returns (r: Outcome)
      requires Valid(Db()) && lastId < TWO_32
      modifies this
      ensures Valid(Db()) && (Db(), r) == Set(old(Db()), name, value, fails)
      ensures r.Ok? ==> MaySet(old(Map()), name, value)
      ensures Map() == if r.Ok? then old(Map())[name := Normalise(value)] else old(Map())
      ensures r.Err? ==> Db() == old(Db())
    {
      ghost var before := Db();
      if SelectKey in fails {
        r := Err(Sql);
      } else {
        var found := LookUp(name);
        if found.None? {
          r := InsertKey(name, value, fails);
        } else {
          SetExisting(Db(), found.value, value, fails);
          var keyId := ToWord32(found.value);
          var oldValueType := keys[found.value].valueType;
          if oldValueType == TYPE_NULL {
            r := UpdateKey(keyId, oldValueType, value, fails);
          } else if value == Null {
            r := UpdateKey(keyId, oldValueType, value, fails);
          } else if oldValueType == TypeForValue(value) {
            r := UpdateKey(keyId, oldValueType, value, fails);
          } else {
            r := Err(TypeChange);
          }
        }
      }
      assert (Db(), r) == Set(before, name, value, fails);
      SetRefines(before, name, value, fails);
    }

    method InsertKey(name: string, value: PropertyValue, fails: set<Statement>) returns (r: Outcome)
      modifies this
      ensures (Db(), r) == Insert(old(Db()), name, value, fails)
    {
      if name == "" {
        return Err(InvalidName);
      } else if value == Monostate {
        return Err(InvalidValue);
      }
      var saved := Db();
      var ty := TypeForValue(value);
      if InsertKeyRow in fails || NameTaken(Db(), name) || lastId >= MAX_ROWID {
        Rollback(saved);
        return Err(Sql);
      }
      lastId := lastId + 1;
      keys := keys[lastId := KeyRow(name, ty)];
      var keyId := lastId;
      if ty != TYPE_NULL {
        if InsertValueRow in fails {
          Rollback(saved);
          return Err(Sql);
        }
        WriteValueRow(keyId, value);
      }
      if CommitTransaction in fails {
        Rollback(saved);
        return Err(Sql);
      }
      return Ok(1);
    }

    method UpdateKey(keyId: Word32, oldValueType: Word32, value: PropertyValue, fails: set<Statement>)
      returns (r: Outcome)
      requires keyId in keys ==> oldValueType == keys[keyId].valueType
      modifies this
      ensures (Db(), r) == Update(old(Db()), keyId, oldValueType, value, fails)
    {
      var newValueType := TypeForValue(value);
      var saved := Db();
      if oldValueType != newValueType {
        if UpdateTypeColumn in fails || keyId !in keys {
          Rollback(saved);
          return Err(Sql);
        }
        keys := keys[keyId := KeyRow(keys[keyId].key, newValueType)];
        // The DELETE names the table of the old type; there is none for a null key.
        if !HasTable(oldValueType) || DeleteOldValue in fails {
          Rollback(saved);
          return Err(Sql);
        }
        DeleteValueRow(keyId, oldValueType);
      }
      if newValueType != TYPE_NULL {
        // The upsert needs the parent key row.
        if UpsertValue in fails || keyId !in keys {
          Rollback(saved);
          return Err(Sql);
        }
        WriteValueRow(keyId, value);
      }
      if TouchTimestamp in fails || keyId !in keys || CommitTransaction in fails {
        Rollback(saved);
        return Err(Sql);
      }
      return Ok(1);
    }

    method RemoveSubkeys(prefix: string, fails: set<Statement>) returns (r: Outcome)
      requires Valid(Db())
      modifies this
      ensures Valid(Db()) && (Db(), r) == DeleteSubkeys(old(Db()), prefix, fails)
      ensures r.Ok? ==> Map() == WithoutSubkeys(old(Map()), prefix)
      ensures r.Ok? ==> r.value == |old(Map()).Keys - Map().Keys|
      ensures NoWildcard(prefix) && r.Ok? ==>
              forall n :: n in Map() <==> n in old(Map()) && !BeginsWith(n, prefix + ".")
      ensures r.Err? ==> Db() == old(Db())
    {
      DeleteRefines(Db(), prefix, fails);
      SubkeyPatternMeaning(prefix);
      if DeleteKeys in fails {
        return Err(Sql);
      }
      var ids := Selected(Db(), SubkeyPattern(prefix));
      keys := keys - ids;
      texts, blobs, integers, reals := texts - ids, blobs - ids, integers - ids, reals - ids;
      return Ok(|ids|);
    }
  }
}
