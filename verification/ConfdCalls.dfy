/** The library calls as values: the request each sends, and what each makes of a reply. */
module ConfdCalls {
  import opened Prelude
  import opened Wire
  import opened RpcSteps
  import opened Cbor
  import opened RpcMessages
  import opened StoreTables

  datatype ApiCall =
    | SetString(key: CText, text: CText)
    | SetBlob(key: CText, blob: Bytes)
    | SetInt(key: CText, n: Int64)
    | SetReal(key: CText, bits: Real64)
    | SetBool(key: CText, b: bool)
    | SetNull(key: CText)
    | GetString(key: CText, capacity: nat)
    | GetBlob(key: CText, capacity: nat)
    | GetInt(key: CText)
    | GetReal(key: CText)
    | GetBool(key: CText)

  /** What a caller sees. `NullPointer` is a `found` reply without value, on which the code would
      dereference null; `SystemError` is a negative errno. */
  datatype Answer =
    | Done
    | IntIs(n: Int64)
    | RealIs(bits: Real64)
    | BoolIs(b: bool)
    | TextIs(buffer: string, length: nat)
    | BlobIs(bytes: seq<Byte>, length: nat)
    | Failed(code: int)
    | SystemError
    | NullPointer

  predicate IsSet(call: ApiCall) {
    call.SetString? || call.SetBlob? || call.SetInt? || call.SetReal? || call.SetBool? || call.SetNull?
  }

  /** Arguments refused before anything is sent. */
  predicate BadArguments(call: ApiCall) {
    (call.GetString? || call.GetBlob?) && call.capacity == 0
  }

  /** The item a setter sends. */
  function SetItem(call: ApiCall): Item
    requires IsSet(call)
  {
    match call
    case SetString(_, s) => CborText(s)
    case SetBlob(_, b) => CborBytes(b)
    case SetInt(_, n) => CborUint(W64, ToUnsigned(n))
    case SetReal(_, bits) => CborFloat(F64, bits)
    case SetBool(_, b) => BoolItem(b)
    case SetNull(_) => CborCtrl(CTRL_NULL)
  }

  function RequestItem(call: ApiCall): Item {
    if IsSet(call) then UpdateRequest(call.key, SetItem(call)) else KeyRequest(call.key)
  }

  function Endpoint(call: ApiCall): Byte {
    if IsSet(call) then CONFIG_UPDATE else CONFIG_QUERY
  }

  function Min(a: nat, b: nat): nat {
    if a < b then a else b
  }

  /** What lands in a caller's string buffer: as much as fits before the terminator. */
  function TextOut(s: string, capacity: nat): Answer
    requires capacity > 0
  {
    TextIs(s[..Min(|s|, capacity - 1)] + ['\0'], |s|)
  }

  function BlobOut(b: seq<Byte>, capacity: nat): Answer {
    BlobIs(b[..Min(|b|, capacity)], |b|)
  }

  /** What a getter makes of the value item of a reply. */
  function ReadItem(lib: Lib, call: ApiCall, v: Item): Answer
    requires !IsSet(call) && !BadArguments(call)
  {
    match call
    case GetString(_, capacity) =>
      if IsText(v) then TextOut(TextOf(v), capacity) else Failed(TYPE_MISMATCH)
    case GetBlob(_, capacity) =>
      if v.CborBytes? then BlobOut(v.data, capacity)
      else if v.CborIndefiniteBytes? then BlobOut([], capacity)
      else Failed(TYPE_MISMATCH)
    case GetInt(_) =>
      if v.CborUint? then IntIs(ToSigned(ReadUint(v))) else Failed(TYPE_MISMATCH)
    case GetReal(_) =>
      if v.CborFloat? then RealIs(lib.widen(v.size, v.bits)) else Failed(TYPE_MISMATCH)
    case GetBool(_) =>
      // An integer is stored through the pointer, then refused all the same.
      if IsBool(v) then BoolIs(Cbor.GetBool(v)) else Failed(TYPE_MISMATCH)
  }

  /** What a call returns once a reply to it has been accepted. */
  function Decode(lib: Lib, call: ApiCall, payload: seq<Byte>): Answer
    requires !BadArguments(call)
  {
    match lib.load(payload)
    case None => Failed(INVALID_RESPONSE)
    case Some(root) =>
      if IsSet(call) then Done
      else match ValueOf(root)
        case Err(Status(code)) => Failed(code)
        case Err(NoItem) => NullPointer
        case Ok(v) => ReadItem(lib, call, v)
  }

  // ---- a call on one end of a connection --------------------------------------------------------------------------

  /** The status a thrown transport error turns into. */
  function Thrown(e: WireError): Answer {
    if e == IoFailed then SystemError else Failed(GENERIC_ERROR)
  }

  /** The root item of what was taken as the reply, or the answer its lack turns into. */
  function RootOf(lib: Lib, taken: Result<seq<Byte>, WireError>): Result<Item, Answer> {
    match taken
    case Err(e) => Err(Thrown(e))
    case Ok(payload) => match lib.load(payload) case None => Err(Failed(INVALID_RESPONSE)) case Some(root) => Ok(root)
  }

  /** The value item in it. */
  function ValueIn(lib: Lib, taken: Result<seq<Byte>, WireError>): Result<Item, Answer> {
    match RootOf(lib, taken)
    case Err(a) => Err(a)
    case Ok(root) =>
      match ValueOf(root)
      case Err(Status(code)) => Err(Failed(code))
      case Err(NoItem) => Err(NullPointer)
      case Ok(v) => Ok(v)
  }

  /** What the call returns for what was taken as its reply. */
  function AnswerTo(lib: Lib, call: ApiCall, taken: Result<seq<Byte>, WireError>): Answer
    requires !BadArguments(call)
  {
    match taken
    case Err(e) => Thrown(e)
    case Ok(payload) => Decode(lib, call, payload)
  }

  /** The bytes a call puts on the wire. */
  function Request(lib: Lib, call: ApiCall, tag: Byte): seq<Byte> {
    Frame(Endpoint(call), tag, 0, lib.ser(RequestItem(call)))
  }

  /** One call: the end afterwards, and the answer. */
  function CallOn(lib: Lib, call: ApiCall, e: End, io: Io): (End, Answer) {
    if BadArguments(call) then (e, Failed(INVALID_ARGUMENTS))
    else
      var (e', taken) := ExchangeOn(e, Endpoint(call), lib.ser(RequestItem(call)), io);
      (e', AnswerTo(lib, call, taken))
  }

  /** What goes through the pointer `confd_get_bool` is given: an integer is stored as a truth value, although the
      call then fails. */
  function BoolStored(lib: Lib, taken: Result<seq<Byte>, WireError>): Option<bool> {
    match ValueIn(lib, taken)
    case Err(_) => None
    case Ok(v) =>
      if v.CborUint? then Some(ReadUint(v) != 0) else if IsBool(v) then Some(Cbor.GetBool(v)) else None
  }

  /** The value the daemon sees in a setter's request. */
  function SetValue(call: ApiCall): PropertyValue
    requires IsSet(call)
  {
    match call
    case SetString(_, s) => Text(CString(s))
    case SetBlob(_, b) => Blob(b)
    case SetInt(_, n) => UInt(ToUnsigned(n))
    case SetReal(_, bits) => Real(bits)
    case SetBool(_, b) => Bool(b)
    case SetNull(_) => Bool(false)
  }

  lemma SetItemIsSetValue(lib: Lib, call: ApiCall)
    requires Faithful(lib) && IsSet(call)
    ensures ToProperty(lib, SetItem(call)) == Some(SetValue(call))
  {
  }

  /** Every request and every reply to a request can be encoded. */
  lemma RequestEncodable(call: ApiCall)
    ensures Encodable(RequestItem(call))
  {
    MapEncodable(RequestItem(call).pairs);
  }

  lemma PairsEncodable(lib: Lib, name: CText, v: PropertyValue, flags: Flags)
    requires !flags.single
    ensures forall p :: p in ReplyPairs(lib, name, v, flags) ==> Encodable(p.key) && Encodable(p.value)
  {
    if v != Monostate {
      assert Encodable(ValueItem(lib, v, false).value);
    }
  }

  lemma ReplyEncodable(lib: Lib, name: CText, v: PropertyValue, isSet: bool)
    ensures Encodable(Reply(lib, name, v, Flags(false, isSet, isSet)))
  {
    var flags := Flags(false, isSet, isSet);
    var pairs := ReplyPairs(lib, name, v, flags);
    AddAllFits(MapBuilder(DeclaredSize(v, flags), []), pairs);
    PairsEncodable(lib, name, v, flags);
    hide AddAll, ReplyPairs, Encodable;
    var added := AddAll(MapBuilder(DeclaredSize(v, flags), []), pairs).pairs;
    assert forall p :: p in added ==> p in pairs;
    MapEncodable(added);
  }

  // ---- what a getter is for ---------------------------------------------------------------------------------------

  /** The caller's buffer of `capacity` characters holds `s`, cut short if it must be, with a terminator, and the
      length reported is that of `s`. */
  ghost predicate GotText(a: Answer, s: string, capacity: nat) {
    && a.TextIs? && a.length == |s| && 0 < capacity
    && var k := if |s| < capacity then |s| else capacity - 1;
       && |a.buffer| == k + 1 && a.buffer[k] == '\0'
       && forall i :: 0 <= i < k ==> a.buffer[i] == s[i]
  }

  ghost predicate GotBlob(a: Answer, b: seq<Byte>, capacity: nat) {
    && a.BlobIs? && a.length == |b|
    && |a.bytes| == (if |b| < capacity then |b| else capacity)
    && forall i :: 0 <= i < |a.bytes| ==> a.bytes[i] == b[i]
  }

  /** What a getter should return for a stored value: the value if it is of the getter's kind, status 1 if it is of
      another, 3 if there is no such key, 6 if the key is null. */
  ghost predicate Delivers(call: ApiCall, v: PropertyValue, a: Answer)
    requires !IsSet(call) && !BadArguments(call)
  {
    match v
    case Monostate => a == Failed(3)
    case Null => a == Failed(6)
    case Text(s) =>
      if call.GetString? then GotText(a, CString(s), call.capacity) && ('\0' !in s ==> GotText(a, s, call.capacity))
      else a == Failed(1)
    case Blob(b) => if call.GetBlob? then GotBlob(a, b, call.capacity) else a == Failed(1)
    case UInt(n) =>
      if call.GetInt? then a.IntIs? && (a.n - n) % 0x1_0000_0000_0000_0000 == 0 else a == Failed(1)
    case Real(bits) => if call.GetReal? then a == RealIs(bits) else a == Failed(1)
    case Bool(b) => if call.GetBool? then a == BoolIs(b) else a == Failed(1)
  }

  /** A getter decodes the daemon's reply for a value to that value. */
  lemma ReplyDecodes(lib: Lib, call: ApiCall, name: CText, v: PropertyValue)
    requires Faithful(lib) && !IsSet(call) && !BadArguments(call)
    ensures Delivers(call, v, Decode(lib, call, lib.ser(Reply(lib, name, v, QUERY))))
  {
    ReplyIsRead(lib, name, v, false);
    ReplyEncodable(lib, name, v, false);
    if v != Monostate && v != Null {
      ItemDelivers(lib, call, v);
    }
    hide Reply, Encodable, ReadItem, ValueItem, ValueOf, GotText, GotBlob;
  }

  lemma ItemDelivers(lib: Lib, call: ApiCall, v: PropertyValue)
    requires Faithful(lib) && !IsSet(call) && !BadArguments(call) && v != Monostate && v != Null
    ensures Delivers(call, v, ReadItem(lib, call, ValueItem(lib, v, false).value))
  {
    if v.Text? && call.GetString? {
      CopiesText(CString(v.text), call.capacity);
      if '\0' !in v.text {
        CStringPlain(v.text);
      }
    } else if v.Blob? && call.GetBlob? {
      CopiesBlob(v.bytes, call.capacity);
    }
    hide Encodable, GotText, GotBlob, TextOut, BlobOut;
  }

  lemma CopiesText(s: string, capacity: nat)
    requires 0 < capacity
    ensures GotText(TextOut(s, capacity), s, capacity)
  {
  }

  lemma CopiesBlob(b: seq<Byte>, capacity: nat)
    ensures GotBlob(BlobOut(b, capacity), b, capacity)
  {
  }

  /** Setters go to endpoint 2 and getters to endpoint 1, as requests under the call's tag. */
  lemma RequestBytes(lib: Lib, call: ApiCall, tag: Byte)
    ensures var f := Request(lib, call, tag);
      && |f| >= 8 && f[4] == (if IsSet(call) then 2 else 1) && f[5] == tag && f[6] == 0
      && f[8..] == lib.ser(RequestItem(call))
  {
    FrameBytes(Endpoint(call), tag, 0, lib.ser(RequestItem(call)));
  }

  /** The fields of every request by exact lookup: the key as a C string and, from a setter, the value: a text, a byte
      string, an integer modulo 2^64 in 64 bits, a double, or false, true and null. */
  lemma RequestFields(call: ApiCall)
    ensures RequestItem(call).CborMap?
    ensures MapGet(RequestItem(call).pairs, "key") == Some(CborText(CString(call.key)))
    ensures var value := MapGet(RequestItem(call).pairs, "value");
      match call
      case SetString(_, s) => value == Some(CborText(s))
      case SetBlob(_, b) => value == Some(CborBytes(b))
      case SetInt(_, n) =>
        value.Some? && value.value.CborUint? && value.value.width == W64
        && (value.value.n - n) % 0x1_0000_0000_0000_0000 == 0
      case SetReal(_, bits) => value == Some(CborFloat(F64, bits))
      case SetBool(_, b) => value == Some(CborCtrl(if b then 21 else 20))
      case SetNull(_) => value == Some(CborCtrl(22))
      case _ => value == None
  {
    NamesDiffer();
    var k := Pair(CborText("key"), CborText(CString(call.key)));
    if IsSet(call) {
      LookUpTwo(k, Pair(CborText("value"), SetItem(call)));
    } else {
      assert [k][1..] == [];
    }
  }

  /** A failed system call is its own answer; any other transport error is status -1. */
  lemma TransportErrors(e: WireError)
    ensures Thrown(e) == if e == IoFailed then SystemError else Failed(-1)
  {
  }

  /** A reply that is no CBOR, or not a map, is status 5; a buffer without room is status 8, before anything is sent. */
  lemma BadReplies(lib: Lib, call: ApiCall, payload: seq<Byte>, e: End, io: Io)
    ensures !BadArguments(call) && lib.load(payload).None? ==> Decode(lib, call, payload) == Failed(5)
    ensures !BadArguments(call) && !IsSet(call) && lib.load(payload).Some? && !lib.load(payload).value.CborMap? ==>
            Decode(lib, call, payload) == Failed(5)
    ensures (call.GetString? || call.GetBlob?) && call.capacity == 0 ==> CallOn(lib, call, e, io) == (e, Failed(8))
  {
  }

  /** What goes through the pointer of `confd_get_bool` for each stored value. */
  lemma BoolStoredFor(lib: Lib, name: CText, v: PropertyValue)
    requires Faithful(lib)
    ensures BoolStored(lib, Ok(lib.ser(Reply(lib, name, v, QUERY))))
            == match v
               case UInt(n) => Some(n != 0)
               case Bool(b) => Some(b)
               case _ => None
  {
    ReplyIsRead(lib, name, v, false);
    ReplyEncodable(lib, name, v, false);
  }
}
