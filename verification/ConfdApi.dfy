/** The library functions as programs over a connection. The parameter `io` stands for what the operating system
    and the daemon do during the call. */
module ConfdApi {
  import opened Prelude
  import opened Wire
  import opened Cbor
  import opened RpcMessages
  import opened RpcSteps
  import opened RpcConnections
  import opened ConfdCalls

  predicate SaysTrue(i: Option<Item>) {
    i.Some? && Cbor.GetBool(i.value)
  }

  /** The loop over the reply's fields. */
  method ScanReply(pairs: seq<Pair>) returns (spoiled: bool, found: bool, value: Option<Item>)
    ensures spoiled <==> exists i :: 0 <= i < |pairs| && SpoilsReply(pairs[i])
    ensures !spoiled ==> value == LastMatch(pairs, "value", Some("found"))
    ensures !spoiled ==> found == SaysTrue(LastMatch(pairs, "found", None))
  {
    spoiled, found, value := false, false, None;
    assert LastMatch(pairs[..0], "found", None) == LastMatch(pairs[..0], "value", Some("found")) == None;
    hide LastMatch, IsPrefix;
    for i := 0 to |pairs|
      invariant forall j :: 0 <= j < i ==> !SpoilsReply(pairs[j])
      invariant found == SaysTrue(LastMatch(pairs[..i], "found", None))
      invariant value == LastMatch(pairs[..i], "value", Some("found"))
    {
      LastMatchStep(pairs, i, "found", None);
      LastMatchStep(pairs, i, "value", Some("found"));
      var p := pairs[i];
      if !IsText(p.key) {
        assert SpoilsReply(pairs[i]);
        return true, found, value;
      }
      if Matches(p.key, "found") {
        if !IsFloatCtrl(p.value) || !IsBool(p.value) {
          assert SpoilsReply(pairs[i]);
          return true, found, value;
        }
        found := Cbor.GetBool(p.value);
      } else if Matches(p.key, "value") {
        value := Some(p.value);
      }
    }
    assert pairs[..|pairs|] == pairs;
  }

  method ExtractValue(root: Item) returns (r: Result<Item, ValueError>)
    ensures r == ValueOf(root)
  {
    hide LastMatch, SpoilsReply, Cbor.GetBool;
    if !root.CborMap? {
      return Err(Status(INVALID_RESPONSE));
    }
    var spoiled, found, value := ScanReply(root.pairs);
    if spoiled {
      return Err(Status(INVALID_RESPONSE));
    }
    if !found {
      return Err(Status(NOT_FOUND));
    }
    if value.None? {
      return Err(NoItem);
    }
    if IsNull(value.value) {
      return Err(Status(NULL_VALUE));
    }
    return Ok(value.value);
  }

  /** Send the request of `call`, take a reply, and hand back its decoded root item. */
  method Exchange(conn: RpcConnection, lib: Lib, call: ApiCall, io: Io) returns (r: Result<Item, Answer>)
    requires conn.Valid() && !BadArguments(call)
    modifies conn, conn.transmitBuf, conn.receiveBuf
    ensures conn.Valid() && conn.OwnBuffers()
    ensures var (e, taken) := ExchangeOn(old(conn.View()), Endpoint(call), lib.ser(RequestItem(call)), io);
      conn.View() == e && r == RootOf(lib, taken)
  {
    var reply := conn.SendPacketWithReply(Endpoint(call), lib.ser(RequestItem(call)), io);
    if reply.Err? {
      return Err(Thrown(reply.error));
    }
    var root := lib.load(reply.value);
    if root.None? {
      return Err(Failed(INVALID_RESPONSE));
    }
    return Ok(root.value);
  }

  /** `DoQuery`: one exchange, then the value item of the reply. */
  method Query(conn: RpcConnection, lib: Lib, call: ApiCall, io: Io) returns (r: Result<Item, Answer>)
    requires conn.Valid() && !IsSet(call) && !BadArguments(call)
    modifies conn, conn.transmitBuf, conn.receiveBuf
    ensures conn.Valid() && conn.OwnBuffers()
    ensures var (e, taken) := ExchangeOn(old(conn.View()), Endpoint(call), lib.ser(RequestItem(call)), io);
      conn.View() == e && r == ValueIn(lib, taken)
    ensures conn.View() == CallOn(lib, call, old(conn.View()), io).0
    ensures CallOn(lib, call, old(conn.View()), io).1 == match r case Ok(v) => ReadItem(lib, call, v) case Err(a) => a
    ensures r.Err? ==> IsError(r.error)
  {
    var root := Exchange(conn, lib, call, io);
    if root.Err? {
      return Err(root.error);
    }
    var value := ExtractValue(root.value);
    match value {
      case Ok(v) => return Ok(v);
      case Err(Status(code)) => return Err(Failed(code));
      case Err(NoItem) => return Err(NullPointer);
    }
  }

  predicate IsError(a: Answer) {
    a.Failed? || a.SystemError? || a.NullPointer?
  }

  method ConfdGetInt(conn: RpcConnection, lib: Lib, key: CText, io: Io) returns (a: Answer)
    requires conn.Valid()
    modifies conn, conn.transmitBuf, conn.receiveBuf
    ensures conn.Valid() && conn.OwnBuffers()
    ensures (conn.View(), a) == CallOn(lib, GetInt(key), old(conn.View()), io)
  {
    var value := Query(conn, lib, GetInt(key), io);
    if value.Err? {
      return value.error;
    }
    if !value.value.CborUint? {
      return Failed(TYPE_MISMATCH);
    }
    return IntIs(ToSigned(ReadUint(value.value)));
  }

  method ConfdGetReal(conn: RpcConnection, lib: Lib, key: CText, io: Io) returns (a: Answer)
    requires conn.Valid()
    modifies conn, conn.transmitBuf, conn.receiveBuf
    ensures conn.Valid() && conn.OwnBuffers()
    ensures (conn.View(), a) == CallOn(lib, GetReal(key), old(conn.View()), io)
  {
    var value := Query(conn, lib, GetReal(key), io);
    if value.Err? {
      return value.error;
    }
    if !IsFloatCtrl(value.value) {
      return Failed(TYPE_MISMATCH);
    }
    match value.value {
      case CborFloat(size, bits) => return RealIs(lib.widen(size, bits));
      case _ => return Failed(TYPE_MISMATCH);
    }
  }

  /** `stored` is what went through the caller's pointer. */
  method ConfdGetBool(conn: RpcConnection, lib: Lib, key: CText, io: Io) returns (a: Answer, stored: Option<bool>)
    requires conn.Valid()
    modifies conn, conn.transmitBuf, conn.receiveBuf
    ensures conn.Valid() && conn.OwnBuffers()
    ensures (conn.View(), a) == CallOn(lib, GetBool(key), old(conn.View()), io)
    ensures stored == BoolStored(lib, ExchangeOn(old(conn.View()), CONFIG_QUERY, lib.ser(KeyRequest(key)), io).1)
    ensures a.BoolIs? ==> stored == Some(a.b)
  {
    var value := Query(conn, lib, GetBool(key), io);
    if value.Err? {
      return value.error, None;
    }
    stored := None;
    if value.value.CborUint? {
      stored := Some(ReadUint(value.value) != 0);
    }
    if !IsBool(value.value) {
      return Failed(TYPE_MISMATCH), stored;
    }
    return BoolIs(Cbor.GetBool(value.value)), Some(Cbor.GetBool(value.value));
  }

  /** As much of the text as fits, and a terminator; the rest of the buffer is kept. */
  method CopyText(out: array<char>, str: string) returns (a: Answer)
    requires out.Length > 0
    modifies out
    ensures a == TextOut(str, out.Length) && GotText(a, str, out.Length)
    ensures |a.buffer| <= out.Length && out[..] == a.buffer + old(out[|a.buffer|..])
  {
    var toCopy := Min(|str|, out.Length - 1);
    CopyInto(out, 0, str[..toCopy]);
    out[toCopy] := '\0';
    return TextIs(str[..toCopy] + ['\0'], |str|);
  }

  method CopyBlob(out: array<Byte>, blob: seq<Byte>) returns (a: Answer)
    modifies out
    ensures a == BlobOut(blob, out.Length) && GotBlob(a, blob, out.Length)
    ensures |a.bytes| <= out.Length && out[..] == a.bytes + old(out[|a.bytes|..])
  {
    var toCopy := Min(|blob|, out.Length);
    CopyInto(out, 0, blob[..toCopy]);
    return BlobIs(blob[..toCopy], |blob|);
  }

  /** The caller's buffer receives a prefix and a terminator, and keeps the rest of its bytes. */
  method ConfdGetString(conn: RpcConnection, lib: Lib, key: CText, out: array<char>, io: Io) returns (a: Answer)
    requires conn.Valid()
    modifies conn, conn.transmitBuf, conn.receiveBuf, out
    ensures conn.Valid() && conn.OwnBuffers()
    ensures (conn.View(), a) == CallOn(lib, GetString(key, out.Length), old(conn.View()), io)
    ensures a.TextIs? ==> |a.buffer| <= out.Length && out[..] == a.buffer + old(out[|a.buffer|..])
    ensures !a.TextIs? ==> out[..] == old(out[..])
  {
    if out.Length == 0 {
      return Failed(INVALID_ARGUMENTS);
    }
    var value := Query(conn, lib, GetString(key, out.Length), io);
    hide CallOn, ExchangeOn, ValueIn;
    if value.Err? {
      return value.error;
    }
    if !IsText(value.value) {
      return Failed(TYPE_MISMATCH);
    }
    a := CopyText(out, TextOf(value.value));
  }

  method ConfdGetBlob(conn: RpcConnection, lib: Lib, key: CText, out: array<Byte>, io: Io) returns (a: Answer)
    requires conn.Valid() && out != conn.transmitBuf && out != conn.receiveBuf
    modifies conn, conn.transmitBuf, conn.receiveBuf, out
    ensures conn.Valid() && conn.OwnBuffers()
    ensures (conn.View(), a) == CallOn(lib, GetBlob(key, out.Length), old(conn.View()), io)
    ensures a.BlobIs? ==> |a.bytes| <= out.Length && out[..] == a.bytes + old(out[|a.bytes|..])
    ensures !a.BlobIs? ==> out[..] == old(out[..])
  {
    if out.Length == 0 {
      return Failed(INVALID_ARGUMENTS);
    }
    var value := Query(conn, lib, GetBlob(key, out.Length), io);
    hide CallOn, ExchangeOn, ValueIn;
    assert out != conn.transmitBuf && out != conn.receiveBuf;
    ghost var view := conn.View();
    if value.Err? {
      return value.error;
    }
    if !IsBytes(value.value) {
      return Failed(TYPE_MISMATCH);
    }
    a := CopyBlob(out, if value.value.CborBytes? then value.value.data else []);
    assert conn.View() == view;
  }

  /** Every setter: build the value item, send the update, accept whatever the reply says. */
  method ConfdSet(conn: RpcConnection, lib: Lib, call: ApiCall, io: Io) returns (a: Answer)
    requires conn.Valid() && IsSet(call)
    modifies conn, conn.transmitBuf, conn.receiveBuf
    ensures conn.Valid() && conn.OwnBuffers()
    ensures (conn.View(), a) == CallOn(lib, call, old(conn.View()), io)
  {
    var root := Exchange(conn, lib, call, io);
    return if root.Err? then root.error else Done;
  }
}
