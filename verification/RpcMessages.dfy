/** The requests the client library builds, the replies the daemon builds, and what each side reads
    out of the other's map. */
module RpcMessages {
  import opened Prelude
  import opened StoreTables
  import opened Cbor

  // ---- C strings --------------------------------------------------------------------------------------------------

  /** The part of a buffer before its first NUL: what a `char *` conversion keeps. */
  function CString(s: CText): (r: CText)
    ensures IsPrefix(r, s)
  {
    if s == "" || s[0] == '\0' then "" else [s[0]] + CString(s[1..])
  }

  lemma {:induction false} CStringPlain(s: CText)
    requires '\0' !in s
    ensures CString(s) == s
  {
    if s != "" {
      assert s[0] in s;
      CStringPlain(s[1..]);
    }
  }

  lemma {:induction false} CStringHasNoNul(s: CText)
    ensures '\0' !in CString(s)
  {
    if s != "" && s[0] != '\0' {
      CStringHasNoNul(s[1..]);
    }
  }

  /** It is all of the buffer, or stops right before its first NUL. */
  lemma {:induction false} CStringIs(s: CText)
    ensures var r := CString(s); IsPrefix(r, s) && '\0' !in r && (r == s || s[|r|] == '\0')
  {
    if s != "" && s[0] != '\0' {
      CStringIs(s[1..]);
    }
  }

  lemma CStringTwice(s: CText)
    ensures CString(CString(s)) == CString(s)
  {
    CStringHasNoNul(s);
    CStringPlain(CString(s));
  }

  // ---- client requests --------------------------------------------------------------------------------------------

  function KeyRequest(key: CText): Item {
    CborMap([Pair(CborText("key"), CborText(CString(key)))])
  }

  function UpdateRequest(key: CText, value: Item): Item {
    CborMap([Pair(CborText("key"), CborText(CString(key))), Pair(CborText("value"), value)])
  }

  // ---- what the daemon reads --------------------------------------------------------------------------------------

  datatype RpcError = BadPayload | NoKeyName | BadEndpoint | BadFrame | StoreFailed | SendFailed

  /** Pairs that make `ExtractKeyName` throw. */
  predicate SpoilsKeyName(p: Pair) {
    !IsText(p.key) || (Matches(p.key, "key") && !p.value.CborText?)
  }

  function KeyNameOf(pairs: seq<Pair>): Result<CText, RpcError> {
    if pairs == [] || exists i :: 0 <= i < |pairs| && SpoilsKeyName(pairs[i]) then Err(BadPayload)
    else match LastMatch(pairs, "key", None)
      case Some(v) => Ok(TextOf(v))
      case None => Ok("")
  }

  /** Pairs that make `getCfgQueryFlags` throw. */
  predicate SpoilsFlags(p: Pair) {
    !IsText(p.key) || (Matches(p.key, "forceFloat") && !IsBool(p.value))
  }

  /** Does the query ask for single precision? */
  function QueryFlags(pairs: seq<Pair>): Result<bool, RpcError> {
    if exists i :: 0 <= i < |pairs| && SpoilsFlags(pairs[i]) then Err(BadPayload)
    else Ok(exists i :: 0 <= i < |pairs| && Matches(pairs[i].key, "forceFloat") && GetBool(pairs[i].value))
  }

  /** The property value a CBOR item stands for in an update; a `null` passes as a boolean. */
  function ToProperty(lib: Lib, i: Item): Option<PropertyValue> {
    match i
    case CborText(s) => Some(Text(CString(s)))
    case CborBytes(b) => Some(Blob(b))
    case CborUint(_, _) => Some(UInt(ReadUint(i)))
    case CborCtrl(_) => Some(Bool(GetBool(i)))
    case CborFloat(size, bits) => Some(Real(lib.widen(size, bits)))
    case _ => None
  }

  predicate SpoilsValue(lib: Lib, p: Pair) {
    !IsText(p.key) || (Matches(p.key, "value") && ToProperty(lib, p.value) == None)
  }

  function UpdateValueOf(lib: Lib, pairs: seq<Pair>): Result<PropertyValue, RpcError> {
    if exists i :: 0 <= i < |pairs| && SpoilsValue(lib, pairs[i]) then Err(BadPayload)
    else match LastMatch(pairs, "value", None)
      case None => Ok(Monostate)
      case Some(v) =>
        match ToProperty(lib, v)
        case Some(p) => Ok(p)
        case None => Err(BadPayload)
  }

  // ---- replies ----------------------------------------------------------------------------------------------------

  /** A definite map under construction: `cbor_map_add` refuses pairs beyond the declared size. */
  datatype MapBuilder = MapBuilder(size: nat, pairs: seq<Pair>) {
    function Add(p: Pair): MapBuilder {
      if |pairs| < size then this.(pairs := pairs + [p]) else this
    }
  }

  /** The item sent for a value, if it has one. */
  function ValueItem(lib: Lib, v: PropertyValue, single: bool): Option<Item> {
    match v
    case Monostate => None
    case Null => Some(CborCtrl(CTRL_NULL))
    case Text(s) => Some(CborText(CString(s)))
    case Blob(b) => Some(CborBytes(b))
    case UInt(n) => Some(CborUint(W64, n))
    case Real(bits) => Some(if single then CborFloat(F32, lib.narrow(bits)) else CborFloat(F64, bits))
    case Bool(b) => Some(BoolItem(b))
  }

  datatype Flags = Flags(single: bool, isSet: bool, excludeValue: bool)

  /** Size the daemon declares for a reply map. */
  function DeclaredSize(v: PropertyValue, flags: Flags): nat {
    (if v != Monostate then 3 else 2) - (if flags.excludeValue then 1 else 0)
  }

  /** The pairs it tries to put in, in order. */
  function ReplyPairs(lib: Lib, key: CText, v: PropertyValue, flags: Flags): seq<Pair> {
    [Pair(CborText("key"), CborText(CString(key)))]
    + (if flags.excludeValue || v == Monostate then []
       else [Pair(CborText("value"), ValueItem(lib, v, flags.single).value)])
    + [Pair(CborText(if flags.isSet then "updated" else "found"), BoolItem(v != Monostate))]
  }

  function AddAll(b: MapBuilder, ps: seq<Pair>): MapBuilder
    decreases |ps|
  {
    if ps == [] then b else AddAll(b.Add(ps[0]), ps[1..])
  }

  function Reply(lib: Lib, key: CText, v: PropertyValue, flags: Flags): Item {
    CborMap(AddAll(MapBuilder(DeclaredSize(v, flags), []), ReplyPairs(lib, key, v, flags)).pairs)
  }

  const QUERY: Flags := Flags(false, false, false)
  const UPDATE: Flags := Flags(false, true, true)

  lemma {:induction false} AddAllFits(b: MapBuilder, ps: seq<Pair>)
    requires |b.pairs| <= b.size
    ensures AddAll(b, ps).pairs == b.pairs + if |b.pairs| + |ps| <= b.size then ps else ps[..b.size - |b.pairs|]
    decreases |ps|
  {
    if ps == [] {
      assert b.pairs + [] == b.pairs;
    } else {
      AddAllFits(b.Add(ps[0]), ps[1..]);
    }
  }

  /** The declared size is the number of pairs added, except in the reply to an update without a value. */
  lemma DeclaredSizeIsRight(lib: Lib, key: CText, v: PropertyValue, flags: Flags)
    ensures |ReplyPairs(lib, key, v, flags)| == DeclaredSize(v, flags) <==> !(flags.excludeValue && v == Monostate)
    ensures !(flags.excludeValue && v == Monostate) ==>
            Reply(lib, key, v, flags) == CborMap(ReplyPairs(lib, key, v, flags))
  {
    AddAllFits(MapBuilder(DeclaredSize(v, flags), []), ReplyPairs(lib, key, v, flags));
  }

  // ---- what the client reads --------------------------------------------------------------------------------------

  /** Status codes of the library, and -1 for errors without one. */
  const TYPE_MISMATCH := 1
  const NOT_FOUND := 3
  const INVALID_RESPONSE := 5
  const NULL_VALUE := 6
  const INVALID_ARGUMENTS := 8
  const GENERIC_ERROR := -1

  /** Why no value came out of a reply. `NoItem` is a `found` reply without value: the code would
      inspect a null pointer. */
  datatype ValueError = Status(code: int) | NoItem

  predicate SpoilsReply(p: Pair) {
    !IsText(p.key) || (Matches(p.key, "found") && !IsBool(p.value))
  }

  /** The value in a query reply. */
  function ValueOf(root: Item): Result<Item, ValueError> {
    if !root.CborMap? then Err(Status(INVALID_RESPONSE))
    else if exists i :: 0 <= i < |root.pairs| && SpoilsReply(root.pairs[i]) then Err(Status(INVALID_RESPONSE))
    else
      var found := LastMatch(root.pairs, "found", None);
      var value := LastMatch(root.pairs, "value", Some("found"));
      if found.None? || !GetBool(found.value) then Err(Status(NOT_FOUND))
      else if value.None? then Err(NoItem)
      else if IsNull(value.value) then Err(Status(NULL_VALUE))
      else Ok(value.value)
  }

  // ---- each side reads what the other wrote -----------------------------------------------------------------------

  lemma OnePair(p: Pair, wanted: string, taken: Option<string>)
    ensures LastMatch([p], wanted, taken)
            == if Matches(p.key, wanted) && (taken.Some? ==> !Matches(p.key, taken.value)) then Some(p.value) else None
  {
    assert [p][..0] == [];
  }

  lemma TwoPairs(p: Pair, q: Pair, wanted: string, taken: Option<string>)
    ensures LastMatch([p, q], wanted, taken)
            == if Matches(q.key, wanted) && (taken.Some? ==> !Matches(q.key, taken.value)) then Some(q.value)
               else LastMatch([p], wanted, taken)
  {
    assert [p, q][..1] == [p];
  }

  lemma ThreePairs(p: Pair, q: Pair, r: Pair, wanted: string, taken: Option<string>)
    ensures LastMatch([p, q, r], wanted, taken)
            == if Matches(r.key, wanted) && (taken.Some? ==> !Matches(r.key, taken.value)) then Some(r.value)
               else LastMatch([p, q], wanted, taken)
  {
    assert [p, q, r][..2] == [p, q];
  }

  /** The field names in use: which are prefixes of which. */
  lemma FieldNames()
    ensures !IsPrefix("value", "key") && IsPrefix("key", "key")
    ensures IsPrefix("value", "value") && IsPrefix("found", "found")
    ensures !IsPrefix("key", "value") && !IsPrefix("key", "found") && !IsPrefix("value", "found")
    ensures !IsPrefix("found", "value") && !IsPrefix("updated", "value") && !IsPrefix("updated", "found")
    ensures !IsPrefix("key", "forceFloat") && !IsPrefix("value", "forceFloat")
  {
    assert "value"[0] == 'v' && "key"[0] == 'k' && "found"[0] == 'f' && "updated"[0] == 'u' && "forceFloat"[0] == 'f';
    assert "key"[..3] == "key" && "value"[..5] == "value" && "found"[..5] == "found";
    assert "value"[..3][0] == 'v' && "found"[..3][0] == 'f' && "found"[..5][0] == 'f' && "value"[..5][0] == 'v';
    assert "forceFloat"[..3][0] == 'f' && "forceFloat"[..5][0] == 'f';
  }

  /** Every map the two serialisers and `sendKeyValue` build is clean for every field name looked up,
      so all the scans are exact lookups. */
  lemma BuiltMapsAreClean(lib: Lib, key: CText, item: Item, v: PropertyValue, flags: Flags)
    ensures forall f :: f in {"key", "forceFloat"} ==> Clean(KeyRequest(key).pairs, f)
    ensures forall f :: f in {"key", "value"} ==> Clean(UpdateRequest(key, item).pairs, f)
    ensures forall f :: f in {"found", "value"} ==> Clean(ReplyPairs(lib, key, v, flags), f)
  {
    FieldNames();
    assert |"key"| == 3 && |"value"| == 5 && |"found"| == 5 && |"updated"| == 7;
  }

  // ---- what each side reads out of any map ------------------------------------------------------------------------

  /** A key that is no string spoils a request. */
  lemma StrangeKeysSpoil(lib: Lib, pairs: seq<Pair>, i: nat)
    requires i < |pairs| && !IsText(pairs[i].key)
    ensures KeyNameOf(pairs) == Err(BadPayload) && QueryFlags(pairs) == Err(BadPayload)
    ensures UpdateValueOf(lib, pairs) == Err(BadPayload)
  {
    assert SpoilsKeyName(pairs[i]) && SpoilsFlags(pairs[i]) && SpoilsValue(lib, pairs[i]);
  }

  /** On a clean map only the pair with exactly this key matches. */
  lemma OnlyExact(pairs: seq<Pair>, wanted: CText)
    requires Clean(pairs, wanted)
    ensures LastMatch(pairs, wanted, None) == MapGet(pairs, wanted)
    ensures match MapGet(pairs, wanted)
            case None => forall i :: 0 <= i < |pairs| ==> !Matches(pairs[i].key, wanted)
            case Some(v) =>
              exists i :: 0 <= i < |pairs| && Matches(pairs[i].key, wanted) && pairs[i].value == v
                          && forall j :: 0 <= j < |pairs| && j != i ==> !Matches(pairs[j].key, wanted)
  {
    ScanIsLookup(pairs, wanted, None);
    if i :| 0 <= i < |pairs| && pairs[i].key.text == wanted {
      assert IsPrefix(wanted, wanted) && Matches(pairs[i].key, wanted);
      MapGetAt(pairs, wanted, i);
    } else {
      MapGetNone(pairs, wanted);
    }
  }

  /** The key name is the definite text under `key`; without one it is empty, and anything else there is an error. */
  lemma KeyNameIs(pairs: seq<Pair>)
    requires Clean(pairs, "key")
    ensures KeyNameOf(pairs)
            == match MapGet(pairs, "key")
               case None => if pairs == [] then Err(BadPayload) else Ok("")
               case Some(CborText(s)) => Ok(s)
               case Some(_) => Err(BadPayload)
  {
    OnlyExact(pairs, "key");
  }

  /** Single precision is asked for by a true `forceFloat`; anything there but a boolean is an error. */
  lemma FlagsAre(pairs: seq<Pair>)
    requires Clean(pairs, "forceFloat")
    ensures QueryFlags(pairs)
            == match MapGet(pairs, "forceFloat")
               case None => Ok(false)
               case Some(CborCtrl(code)) =>
                 if code == 21 then Ok(true) else if code == 20 then Ok(false) else Err(BadPayload)
               case Some(_) => Err(BadPayload)
  {
    OnlyExact(pairs, "forceFloat");
  }

  /** The new value is what stands under `value`: texts up to their first NUL, byte strings, unsigned integers of any
      width, floats as doubles, simple values as booleans that are true only for `true`; all else is an error. */
  lemma UpdateValueIs(lib: Lib, pairs: seq<Pair>)
    requires Clean(pairs, "value")
    ensures UpdateValueOf(lib, pairs)
            == match MapGet(pairs, "value")
               case None => Ok(Monostate)
               case Some(CborText(s)) => Ok(Text(CString(s)))
               case Some(CborBytes(b)) => Ok(Blob(b))
               case Some(CborUint(w, n)) => Ok(UInt(n % WidthBound(w)))
               case Some(CborCtrl(code)) => Ok(Bool(code == 21))
               case Some(CborFloat(size, bits)) => Ok(Real(lib.widen(size, bits)))
               case Some(_) => Err(BadPayload)
  {
    hide ToProperty, CString;
    OnlyExact(pairs, "value");
    UpdateValueFound(lib, pairs);
    if MapGet(pairs, "value").Some? {
      PropertyIs(lib, MapGet(pairs, "value").value);
    }
  }

  lemma UpdateValueFound(lib: Lib, pairs: seq<Pair>)
    requires Clean(pairs, "value")
    ensures UpdateValueOf(lib, pairs)
            == match MapGet(pairs, "value")
               case None => Ok(Monostate)
               case Some(v) => if ToProperty(lib, v).Some? then Ok(ToProperty(lib, v).value) else Err(BadPayload)
  {
    hide ToProperty, CString;
    OnlyExact(pairs, "value");
  }

  lemma PropertyIs(lib: Lib, i: Item)
    ensures ToProperty(lib, i)
            == match i
               case CborText(s) => Some(Text(CString(s)))
               case CborBytes(b) => Some(Blob(b))
               case CborUint(w, n) => Some(UInt(n % WidthBound(w)))
               case CborCtrl(code) => Some(Bool(code == 21))
               case CborFloat(size, bits) => Some(Real(lib.widen(size, bits)))
               case _ => None
  {
  }

  /** On other maps a later key that is any prefix of the name, the empty one included, takes its place: the scans
      compare only as many characters as the key has. */
  lemma PrefixOverrides(pairs: seq<Pair>, prefix: CText, name: CText)
    requires prefix <= "key" && (pairs == [] || KeyNameOf(pairs).Ok?)
    ensures KeyNameOf(pairs + [Pair(CborText(prefix), CborText(name))]) == Ok(name)
  {
    var p := Pair(CborText(prefix), CborText(name));
    var all := pairs + [p];
    assert !SpoilsKeyName(p);
    assert all[..|all| - 1] == pairs;
    forall i | 0 <= i < |all| ensures !SpoilsKeyName(all[i]) {
      assert i < |pairs| ==> all[i] == pairs[i];
    }
  }

  lemma SpoiledFound(pairs: seq<Pair>)
    requires forall i :: 0 <= i < |pairs| ==> IsText(pairs[i].key)
    requires match MapGet(pairs, "found")
             case None => forall i :: 0 <= i < |pairs| ==> !Matches(pairs[i].key, "found")
             case Some(v) =>
               exists i :: 0 <= i < |pairs| && Matches(pairs[i].key, "found") && pairs[i].value == v
                           && forall j :: 0 <= j < |pairs| && j != i ==> !Matches(pairs[j].key, "found")
    ensures (exists i :: 0 <= i < |pairs| && SpoilsReply(pairs[i]))
            <==> MapGet(pairs, "found").Some? && !IsBool(MapGet(pairs, "found").value)
  {
    hide Matches, MapGet, IsBool;
  }

  /** What the client reads out of any reply on which the scans are lookups: its root must be a map with string keys
      and, if at all, a boolean under `found`; without a true one there is no such key; a null value is a status of
      its own; the value is what stands under `value`. */
  lemma ReplyValueIs(root: Item)
    requires root.CborMap? ==>
               (exists i :: 0 <= i < |root.pairs| && !IsText(root.pairs[i].key))
               || (Clean(root.pairs, "found") && Clean(root.pairs, "value"))
    ensures ValueOf(root)
            == if !root.CborMap? || exists i :: 0 <= i < |root.pairs| && !IsText(root.pairs[i].key) then Err(Status(5))
               else match MapGet(root.pairs, "found")
                 case None => Err(Status(3))
                 case Some(f) =>
                   if f == CborCtrl(20) then Err(Status(3))
                   else if f != CborCtrl(21) then Err(Status(5))
                   else match MapGet(root.pairs, "value")
                     case None => Err(NoItem)
                     case Some(v) => if v == CborCtrl(22) then Err(Status(6)) else Ok(v)
  {
    if root.CborMap? {
      if i :| 0 <= i < |root.pairs| && !IsText(root.pairs[i].key) {
        assert SpoilsReply(root.pairs[i]);
      } else {
        assert !IsPrefix("value", "found") by { FieldNames(); }
        OnlyExact(root.pairs, "found");
        ScanIsLookup(root.pairs, "value", Some("found"));
        hide Clean, MapGet, LastMatch, IsPrefix;
        SpoiledFound(root.pairs);
      }
    }
  }

  /** The fields of a reply: the key as a C string, the value unless it is left out, and whether there is one, under
      `updated` for an update and `found` for a query. */
  lemma ReplyFields(lib: Lib, key: CText, v: PropertyValue, flags: Flags)
    requires !(flags.excludeValue && v == Monostate)
    ensures var root := Reply(lib, key, v, flags);
      var flag := Some(CborCtrl(if v == Monostate then 20 else 21));
      && root.CborMap?
      && MapGet(root.pairs, "key") == Some(CborText(CString(key)))
      && MapGet(root.pairs, "value") == (if flags.excludeValue then None else SentValue(lib, v, flags.single))
      && MapGet(root.pairs, "found") == (if flags.isSet then None else flag)
      && MapGet(root.pairs, "updated") == (if flags.isSet then flag else None)
  {
    DeclaredSizeIsRight(lib, key, v, flags);
    NamesDiffer();
    assert v != Monostate ==> ValueItem(lib, v, flags.single) == SentValue(lib, v, flags.single);
    hide Reply, CString, DeclaredSize, ValueItem;
    var k, u := Pair(CborText("key"), CborText(CString(key))), CborText(if flags.isSet then "updated" else "found");
    var r := Pair(u, BoolItem(v != Monostate));
    if flags.excludeValue || v == Monostate {
      assert ReplyPairs(lib, key, v, flags) == [k, r];
      LookUpTwo(k, r);
    } else {
      var q := Pair(CborText("value"), ValueItem(lib, v, flags.single).value);
      assert ReplyPairs(lib, key, v, flags) == [k, q, r];
      LookUpThree(k, q, r);
    }
    hide MapGet;
  }

  lemma NamesDiffer()
    ensures "key" != "value" && "key" != "found" && "key" != "updated" && "value" != "found" && "value" != "updated"
    ensures "found" != "updated"
  {
    assert |"key"| == 3 && |"value"| == 5 && |"found"| == 5 && |"updated"| == 7 && "found"[0] != "value"[0];
  }

  lemma LookUpTwo(p: Pair, q: Pair)
    requires p.key.CborText? && q.key.CborText?
    ensures forall f :: MapGet([p, q], f) == if p.key.text == f then Some(p.value)
                                             else if q.key.text == f then Some(q.value) else None
  {
    assert [p, q][1..] == [q] && [q][1..] == [];
    assert forall f :: MapGet([], f) == None;
    assert forall f :: MapGet([q], f) == if q.key.text == f then Some(q.value) else None;
  }

  lemma LookUpThree(p: Pair, q: Pair, r: Pair)
    requires p.key.CborText? && q.key.CborText? && r.key.CborText?
    ensures forall f :: MapGet([p, q, r], f) == if p.key.text == f then Some(p.value)
                                                else if q.key.text == f then Some(q.value)
                                                else if r.key.text == f then Some(r.value) else None
  {
    assert [p, q, r][1..] == [q, r];
    LookUpTwo(q, r);
  }

  /** The item each value is sent as: integers in 64 bits, reals in 64 or, if asked for, narrowed to 32. */
  function SentValue(lib: Lib, v: PropertyValue, single: bool): Option<Item> {
    match v
    case Monostate => None
    case Null => Some(CborCtrl(22))
    case Text(s) => Some(CborText(CString(s)))
    case Blob(b) => Some(CborBytes(b))
    case UInt(n) => Some(CborUint(W64, n))
    case Real(bits) => if single then Some(CborFloat(F32, lib.narrow(bits))) else Some(CborFloat(F64, bits))
    case Bool(b) => Some(CborCtrl(if b then 21 else 20))
  }

  /** The daemon reads the key, and no flags, out of a query request. */
  lemma QueryIsRead(key: CText)
    ensures KeyNameOf(KeyRequest(key).pairs) == Ok(CString(key))
    ensures QueryFlags(KeyRequest(key).pairs) == Ok(false)
  {
    FieldNames();
    var p := Pair(CborText("key"), CborText(CString(key)));
    OnePair(p, "key", None);
    assert KeyRequest(key).pairs == [p];
  }

  /** The daemon reads the key and the value out of an update request. */
  lemma UpdateIsRead(lib: Lib, key: CText, item: Item)
    ensures KeyNameOf(UpdateRequest(key, item).pairs) == Ok(CString(key))
    ensures UpdateValueOf(lib, UpdateRequest(key, item).pairs)
            == match ToProperty(lib, item) case Some(v) => Ok(v) case None => Err(BadPayload)
  {
    FieldNames();
    var p := Pair(CborText("key"), CborText(CString(key)));
    var q := Pair(CborText("value"), item);
    var pairs := [p, q];
    assert UpdateRequest(key, item).pairs == pairs;
    OnePair(p, "key", None);
    TwoPairs(p, q, "key", None);
    TwoPairs(p, q, "value", None);
    assert SpoilsValue(lib, pairs[1]) <==> ToProperty(lib, item) == None;
    assert !SpoilsValue(lib, pairs[0]);
    assert !SpoilsKeyName(pairs[0]) && !SpoilsKeyName(pairs[1]);
  }

  /** Reading the three pairs of a reply with a value, ... */
  lemma ValuePairsRead(p: Pair, q: Pair, r: Pair)
    requires p.key == CborText("key") && q.key == CborText("value") && r == Pair(CborText("found"), BoolItem(true))
    ensures ValueOf(CborMap([p, q, r])) == if IsNull(q.value) then Err(Status(NULL_VALUE)) else Ok(q.value)
  {
    FieldNames();
    hide IsPrefix;
    assert !SpoilsReply(p) && !SpoilsReply(q) && !SpoilsReply(r);
    TwoPairs(p, q, "value", Some("found"));
    ThreePairs(p, q, r, "value", Some("found"));
    ThreePairs(p, q, r, "found", None);
  }

  /** ... and the two of one without. */
  lemma NoValuePairsRead(p: Pair, r: Pair)
    requires p.key == CborText("key") && r == Pair(CborText("found"), BoolItem(false))
    ensures ValueOf(CborMap([p, r])) == Err(Status(NOT_FOUND))
  {
    FieldNames();
    hide IsPrefix;
    assert !SpoilsReply(p) && !SpoilsReply(r);
    TwoPairs(p, r, "found", None);
  }

  /** The client reads out of a query reply exactly the value the daemon put in: absent keys as
      `NOT_FOUND`, `Null` as `NULL_VALUE`, and never a `found` without a value. */
  lemma ReplyIsRead(lib: Lib, key: CText, v: PropertyValue, single: bool)
    ensures ValueOf(Reply(lib, key, v, Flags(single, false, false)))
            == match v
               case Monostate => Err(Status(NOT_FOUND))
               case Null => Err(Status(NULL_VALUE))
               case _ => Ok(ValueItem(lib, v, single).value)
  {
    var flags := Flags(single, false, false);
    DeclaredSizeIsRight(lib, key, v, flags);
    var p := Pair(CborText("key"), CborText(CString(key)));
    var r := Pair(CborText("found"), BoolItem(v != Monostate));
    hide ValueOf, Reply, CString;
    if v == Monostate {
      assert ReplyPairs(lib, key, v, flags) == [p, r];
      NoValuePairsRead(p, r);
    } else {
      var q := Pair(CborText("value"), ValueItem(lib, v, single).value);
      assert ReplyPairs(lib, key, v, flags) == [p, q, r];
      ValuePairsRead(p, q, r);
    }
  }
}
