/** The five SQL tables of the configuration store and the statements the daemon runs on them.
    A table is a map from the column its unique index is on; the statements enforce the schema. */
module StoreTables {
  import opened Prelude

  /** The variant that travels between the RPC layer and the store. */
  datatype PropertyValue =
    | Monostate
    | Null
    | Text(text: CText)
    | Blob(bytes: Bytes)
    | UInt(n: Word64)
    | Real(bits: Real64)
    | Bool(b: bool)

  // Values of the `valueType` column.
  const TYPE_NULL: Word32 := 0
  const TYPE_STRING: Word32 := 1
  const TYPE_BLOB: Word32 := 2
  const TYPE_INTEGER: Word32 := 3
  const TYPE_REAL: Word32 := 4

  /** Largest rowid SQLite hands out; an AUTOINCREMENT table that used it is full. */
  const MAX_ROWID: int := TWO_63 - 1

  datatype KeyRow = KeyRow(key: string, valueType: Word32)

  /** `keys` is indexed by primary key; the value tables by their unique `propertyId` index.
      `lastId` is the AUTOINCREMENT counter of the key table. */
  datatype Tables = Tables(
    keys: map<nat, KeyRow>,
    lastId: nat,
    texts: map<nat, CText>,
    blobs: map<nat, Bytes>,
    integers: map<nat, Int64>,
    reals: map<nat, Real64>)

  const EMPTY: Tables := Tables(map[], 0, map[], map[], map[], map[])

  datatype StoreError =
    | InvalidName | InvalidValue | TypeChange
    | UnknownTable | NoValue | UnsupportedType
    | Sql

  /** The type column written for a value. */
  function TypeForValue(v: PropertyValue): Word32 {
    match v
    case Null => TYPE_NULL
    case Text(_) => TYPE_STRING
    case Blob(_) => TYPE_BLOB
    case UInt(_) => TYPE_INTEGER
    case Real(_) => TYPE_REAL
    case Bool(_) => TYPE_INTEGER
    case Monostate => TYPE_NULL
  }

  /** Is there a value table for this type? The table name is empty otherwise. */
  predicate HasTable(ty: Word32) {
    TYPE_STRING <= ty <= TYPE_REAL
  }

  predicate HasRow(t: Tables, ty: Word32, id: nat) {
    if ty == TYPE_STRING then id in t.texts
    else if ty == TYPE_BLOB then id in t.blobs
    else if ty == TYPE_INTEGER then id in t.integers
    else if ty == TYPE_REAL then id in t.reals
    else false
  }

  /** What `getKey` makes of the `value` column of a row. */
  function ReadRow(t: Tables, ty: Word32, id: nat): PropertyValue
    requires HasRow(t, ty, id)
  {
    if ty == TYPE_STRING then Text(t.texts[id])
    else if ty == TYPE_BLOB then Blob(t.blobs[id])
    else if ty == TYPE_INTEGER then UInt(ToUnsigned(t.integers[id]))
    else Real(t.reals[id])
  }

  /** The column value bound for an integer-typed property. */
  function BoundInteger(v: PropertyValue): Int64
    requires v.UInt? || v.Bool?
  {
    match v
    case UInt(n) => ToSigned(n)
    case Bool(b) => if b then 1 else 0
  }

  /** Store the row of `id` in the table of the value's own type. */
  function PutRow(t: Tables, id: nat, v: PropertyValue): Tables {
    match v
    case Text(s) => t.(texts := t.texts[id := s])
    case Blob(b) => t.(blobs := t.blobs[id := b])
    case UInt(_) => t.(integers := t.integers[id := BoundInteger(v)])
    case Bool(_) => t.(integers := t.integers[id := BoundInteger(v)])
    case Real(r) => t.(reals := t.reals[id := r])
    case Null => t
    case Monostate => t
  }

  /** `DELETE FROM <table of ty> WHERE propertyId IN ids`. */
  function DropRows(t: Tables, ty: Word32, ids: set<nat>): Tables {
    if ty == TYPE_STRING then t.(texts := t.texts - ids)
    else if ty == TYPE_BLOB then t.(blobs := t.blobs - ids)
    else if ty == TYPE_INTEGER then t.(integers := t.integers - ids)
    else if ty == TYPE_REAL then t.(reals := t.reals - ids)
    else t
  }

  predicate NameTaken(t: Tables, name: string) {
    exists id :: id in t.keys && t.keys[id].key == name
  }

  /** `SELECT id ... WHERE key = :keyName`. */
  ghost function Find(t: Tables, name: string): (r: Option<nat>)
    ensures r.None? <==> !NameTaken(t, name)
    ensures r.Some? ==> r.value in t.keys && t.keys[r.value].key == name
  {
    if NameTaken(t, name) then
      var id :| id in t.keys && t.keys[id].key == name;
      Some(id)
    else None
  }

  // ---- LIKE -------------------------------------------------------------------------------------------------------

  function LowerAscii(c: char): char {
    if 'A' <= c <= 'Z' then c + 32 as char else c
  }

  /** SQLite's `LIKE` without an escape character. */
  predicate Like(pattern: string, s: string)
    decreases |pattern|, |s|
  {
    if pattern == "" then s == ""
    else if pattern[0] == '%' then
      Like(pattern[1..], s) || (s != "" && Like(pattern, s[1..]))
    else
      s != ""
      && (pattern[0] == '_' || LowerAscii(pattern[0]) == LowerAscii(s[0]))
      && Like(pattern[1..], s[1..])
  }

  /** The pattern `deleteSubkeys` builds. */
  function SubkeyPattern(prefix: string): string {
    prefix + ".%"
  }

  predicate NoWildcard(p: string) {
    '%' !in p && '_' !in p
  }

  /** The same character, or the small and the capital form of one of the 26 letters. */
  predicate SameLetter(a: char, b: char) {
    a == b || ('A' <= a <= 'Z' && b as int == a as int + 32) || ('A' <= b <= 'Z' && a as int == b as int + 32)
  }

  /** Same text up to ASCII case. */
  predicate SameLetters(a: string, b: string) {
    |a| == |b| && forall i :: 0 <= i < |a| ==> SameLetter(a[i], b[i])
  }

  /** Does `s` begin with `p`, ignoring ASCII case? */
  predicate BeginsWith(s: string, p: string) {
    |p| <= |s| && SameLetters(s[..|p|], p)
  }

  lemma {:induction false} LikePlainPrefix(p: string, rest: string, s: string)
    requires NoWildcard(p)
    ensures Like(p + rest, s) <==> BeginsWith(s, p) && Like(rest, s[|p|..])
  {
    if p == "" {
      assert p + rest == rest && s[0..] == s;
    } else {
      assert (p + rest)[1..] == p[1..] + rest && (p + rest)[0] == p[0];
      assert p[0] in p;
      if s != "" {
        LikePlainPrefix(p[1..], rest, s[1..]);
        if |p| <= |s| {
          assert s[1..][..|p| - 1] == s[..|p|][1..];
          assert s[1..][|p| - 1..] == s[|p|..];
          assert SameLetter(s[0], p[0]) <==> LowerAscii(s[0]) == LowerAscii(p[0]);
          BeginsStep(s, p);
        }
      }
    }
  }

  lemma BeginsStep(s: string, p: string)
    requires 0 < |p| <= |s|
    ensures BeginsWith(s, p) <==> SameLetter(s[0], p[0]) && BeginsWith(s[1..], p[1..])
  {
    var a := s[..|p|];
    assert s[1..][..|p| - 1] == a[1..];
    if SameLetter(s[0], p[0]) && BeginsWith(s[1..], p[1..]) {
      forall i | 0 <= i < |p| ensures SameLetter(a[i], p[i]) {
        assert i > 0 ==> a[i] == a[1..][i - 1] && p[i] == p[1..][i - 1];
      }
    }
    if BeginsWith(s, p) {
      assert SameLetter(a[0], p[0]);
      forall i | 0 <= i < |p| - 1 ensures SameLetter(a[1..][i], p[1..][i]) {
        assert a[1..][i] == a[i + 1] && p[1..][i] == p[i + 1];
      }
    }
  }

  lemma {:induction false} PercentMatchesAll(s: string)
    ensures Like("%", s)
  {
    if s == "" {
      assert Like("%"[1..], s);
    } else {
      PercentMatchesAll(s[1..]);
    }
  }

  /** Every text matches itself read as a pattern, and one character under a wildcard is free. */
  lemma {:induction false} LikeItselfButOne(p: string, i: nat, c: char, rest: string, tail: string)
    requires i < |p| && (p[i] == '%' || p[i] == '_')
    requires Like(rest, tail)
    ensures Like(p + rest, p[i := c] + tail)
  {
    var s := p[i := c] + tail;
    assert (p + rest)[1..] == p[1..] + rest && (p + rest)[0] == p[0];
    if i == 0 {
      assert s[1..] == p[1..] + tail;
      LikeItself(p[1..], rest, tail);
      assert Like((p + rest)[1..], s[1..]);
    } else {
      assert s[1..] == p[1..][i - 1 := c] + tail;
      LikeItselfButOne(p[1..], i - 1, c, rest, tail);
      assert Like((p + rest)[1..], s[1..]);
    }
    if p[0] == '%' {
      PercentSkips(p + rest, s);
    }
  }

  lemma {:induction false} LikeItself(p: string, rest: string, tail: string)
    requires Like(rest, tail)
    ensures Like(p + rest, p + tail)
  {
    if p == "" {
      assert p + rest == rest && p + tail == tail;
    } else {
      assert (p + rest)[1..] == p[1..] + rest && (p + tail)[1..] == p[1..] + tail;
      LikeItself(p[1..], rest, tail);
      if p[0] == '%' {
        PercentSkips(p + rest, p + tail);
      }
    }
  }

  lemma PercentSkips(pattern: string, s: string)
    requires pattern != "" && pattern[0] == '%' && s != ""
    requires Like(pattern[1..], s[1..])
    ensures Like(pattern, s)
  {
    assert Like(pattern, s[1..]);
  }

  /** The pattern selects exactly the names below the prefix, for every name, exactly when the
      prefix contains neither wildcard character. */
  lemma SubkeyPatternMeaning(prefix: string)
    ensures (forall s :: Like(SubkeyPattern(prefix), s) <==> BeginsWith(s, prefix + "."))
            <==> NoWildcard(prefix)
  {
    if NoWildcard(prefix) {
      forall s ensures Like(SubkeyPattern(prefix), s) <==> BeginsWith(s, prefix + ".") {
        assert SubkeyPattern(prefix) == (prefix + ".") + "%";
        LikePlainPrefix(prefix + ".", "%", s);
        if BeginsWith(s, prefix + ".") {
          PercentMatchesAll(s[|prefix| + 1..]);
        }
      }
    } else {
      var i :| 0 <= i < |prefix| && (prefix[i] == '%' || prefix[i] == '_');
      assert Like(".%", ".") by {
        PercentMatchesAll("");
        assert ".%"[1..] == "%" && "."[1..] == "";
      }
      LikeItselfButOne(prefix, i, 'x', ".%", ".");
      var s := prefix[i := 'x'] + ".";
      assert Like(SubkeyPattern(prefix), s);
      assert s[..|prefix| + 1][i] == 'x' && (prefix + ".")[i] == prefix[i];
      assert !SameLetter(s[..|prefix| + 1][i], (prefix + ".")[i]);
      assert !BeginsWith(s, prefix + ".");
    }
  }
}
