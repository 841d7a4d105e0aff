/** The daemon's request loop: it reads a client's bytes into that client's buffer, serves the request
    from the store, answers through the client's transmit buffer, and drops clients that misbehave. */
module RpcServers {
  import opened Prelude
  import opened Wire
  import opened Cbor
  import opened RpcMessages
  import opened RpcHandling
  import opened StoreTables
  import opened StoreOperations
  import StoreRefinement
  import opened DataStores
  import RpcConnections

  method ExtractKeyName(pairs: seq<Pair>) returns (r: Result<CText, RpcError>)
    ensures r == KeyNameOf(pairs)
    ensures Clean(pairs, "key") && r.Ok? ==>
            r.value == match MapGet(pairs, "key") case Some(v) => TextOf(v) case None => ""
  {
    if |pairs| == 0 {
      return Err(BadPayload);
    }
    var keyName: CText := "";
    for i := 0 to |pairs|
      invariant forall j :: 0 <= j < i ==> !SpoilsKeyName(pairs[j])
      invariant keyName == match LastMatch(pairs[..i], "key", None) case Some(v) => TextOf(v) case None => ""
    {
      LastMatchStep(pairs, i, "key", None);
      var p := pairs[i];
      if !IsText(p.key) {
        assert SpoilsKeyName(pairs[i]);
        return Err(BadPayload);
      }
      if Matches(p.key, "key") {
        if !p.value.CborText? {
          assert SpoilsKeyName(pairs[i]);
          return Err(BadPayload);
        }
        keyName := p.value.text;
      }
    }
    assert pairs[..|pairs|] == pairs;
    if Clean(pairs, "key") {
      ScanIsLookup(pairs, "key", None);
    }
    return Ok(keyName);
  }

  method GetCfgQueryFlags(pairs: seq<Pair>) returns (r: Result<bool, RpcError>)
    ensures r == QueryFlags(pairs)
  {
    var single := false;
    for i := 0 to |pairs|
      invariant forall j :: 0 <= j < i ==> !SpoilsFlags(pairs[j])
      invariant single <==> exists j :: 0 <= j < i && Matches(pairs[j].key, "forceFloat") && GetBool(pairs[j].value)
    {
      var p := pairs[i];
      if !IsText(p.key) {
        assert SpoilsFlags(pairs[i]);
        return Err(BadPayload);
      }
      if Matches(p.key, "forceFloat") {
        if !IsBool(p.value) {
          assert SpoilsFlags(pairs[i]);
          return Err(BadPayload);
        }
        if GetBool(p.value) {
          single := true;
        }
      }
    }
    return Ok(single);
  }

  /** The loop of `doCfgUpdate` over the request's fields. */
  method ExtractUpdateValue(lib: Lib, pairs: seq<Pair>) returns (r: Result<PropertyValue, RpcError>)
    ensures r == UpdateValueOf(lib, pairs)
  {
    var value := Monostate;
    for i := 0 to |pairs|
      invariant forall j :: 0 <= j < i ==> !SpoilsValue(lib, pairs[j])
      invariant match LastMatch(pairs[..i], "value", None)
                case None => value == Monostate
                case Some(v) => ToProperty(lib, v) == Some(value)
    {
      LastMatchStep(pairs, i, "value", None);
      var p := pairs[i];
      if !IsText(p.key) {
        assert SpoilsValue(lib, pairs[i]);
        return Err(BadPayload);
      }
      if !Matches(p.key, "value") {
        continue;
      }
      match p.value {
        case CborText(s) => value := Text(CString(s));
        case CborBytes(data) => value := Blob(data);
        case CborUint(_, _) => value := UInt(ReadUint(p.value));
        case CborCtrl(_) => value := Bool(GetBool(p.value));
        case CborFloat(size, bits) => value := Real(lib.widen(size, bits));
        case _ =>
          assert SpoilsValue(lib, pairs[i]);
          return Err(BadPayload);
      }
    }
    assert pairs[..|pairs|] == pairs;
    return Ok(value);
  }

  /** The map `sendKeyValue` sends. */
  method BuildReply(lib: Lib, key: CText, value: PropertyValue, flags: Flags) returns (item: Item)
    ensures item == Reply(lib, key, value, flags)
  {
    var found := value != Monostate;
    var outputValue := !flags.excludeValue;
    var root := MapBuilder((if found then 3 else 2) - (if outputValue then 0 else 1), []);
    ghost var empty := root;
    root := root.Add(Pair(CborText("key"), CborText(CString(key))));
    if outputValue {
      var v := ValueItem(lib, value, flags.single);
      if v.Some? {
        root := root.Add(Pair(CborText("value"), v.value));
      }
    }
    root := root.Add(Pair(CborText(if flags.isSet then "updated" else "found"), BoolItem(found)));
    AddAllFits(empty, ReplyPairs(lib, key, value, flags));
    return CborMap(root.pairs);
  }

  /** A connected client with its buffers; `sent` is what has been written to its socket. */
  class Client {
    var receiveBuf: array<Byte>
    var transmitBuf: array<Byte>
    var sent: seq<Byte>

    predicate Valid()
      reads this
    {
      receiveBuf != transmitBuf
    }

    ghost function Buffers(): set<object>
      reads this
    {
      {transmitBuf, receiveBuf}
    }

    /** Its buffers are those it had, or newly allocated. */
    twostate predicate OwnBuffers()
      reads this
    {
      && (receiveBuf == old(receiveBuf) || fresh(receiveBuf))
      && (transmitBuf == old(transmitBuf) || fresh(transmitBuf))
    }

    constructor ()
      ensures sent == [] && Valid() && fresh(receiveBuf) && fresh(transmitBuf)
    {
      receiveBuf := new Byte[0];
      transmitBuf := new Byte[0];
      sent := [];
    }

    /** `sendFails` makes the write throw. */
    method ReplyTo(req: Packet, payload: seq<Byte>, sendFails: bool) returns (r: Result<(), RpcError>)
      modifies this`transmitBuf, this`sent, transmitBuf
      ensures transmitBuf == old(transmitBuf) || fresh(transmitBuf)
      ensures transmitBuf[..] == Frame(req.endpoint, req.tag, FLAG_REPLY, payload)
      ensures r == if sendFails then Err(SendFailed) else Ok(())
      ensures sent == old(sent) + if sendFails then [] else transmitBuf[..]
    {
      var msgSize := HEADER_SIZE + |payload|;
      transmitBuf := RpcConnections.Resize(transmitBuf, msgSize);
      RpcConnections.CopyInto(transmitBuf, 0, seq(HEADER_SIZE, _ => 0));
      if payload != [] {
        RpcConnections.CopyInto(transmitBuf, HEADER_SIZE, payload);
      }
      assert transmitBuf[HEADER_SIZE..] == payload;
      RpcConnections.FillHeader(transmitBuf, MessageHeader(req.endpoint, req.tag, FLAG_REPLY, |payload|));
      if sendFails {
        return Err(SendFailed);
      }
      sent := sent + transmitBuf[..];
      return Ok(());
    }

    /** What the outcome `h` of a request means for this client, which had been sent `before`: the reply
        follows, or an exception goes on. */
    ghost predicate Replied(before: seq<Byte>, h: Handled, r: Result<(), RpcError>)
      reads this
    {
      match h
      case Ok(frame) => r.Ok? && sent == before + frame
      case Err(e) => r == Err(e) && sent == before
    }
  }

  class RpcServer {
    const lib: Lib
    const store: DataStore
    var clients: map<nat, Client>

    constructor (lib: Lib, store: DataStore)
      ensures this.lib == lib && this.store == store && clients == map[]
    {
      this.lib := lib;
      this.store := store;
      clients := map[];
    }

    method SendKeyValue(req: Packet, client: Client, key: CText, value: PropertyValue, flags: Flags, sendFails: bool)
      returns (r: Result<(), RpcError>)
      modifies client`transmitBuf, client`sent, client.transmitBuf
      ensures client.transmitBuf == old(client.transmitBuf) || fresh(client.transmitBuf)
      ensures var reply := ReplyFrame(lib, req, Reply(lib, key, value, flags));
              client.Replied(old(client.sent), Send(reply, Faults({}, sendFails)), r)
    {
      var root := BuildReply(lib, key, value, flags);
      r := client.ReplyTo(req, lib.ser(root), sendFails);
    }

    method DoCfgQuery(req: Packet, item: Item, client: Client, f: Faults) returns (r: Result<(), RpcError>)
      requires StoreRefinement.Valid(store.Db()) && item.CborMap?
      modifies client`transmitBuf, client`sent, client.transmitBuf
      ensures client.transmitBuf == old(client.transmitBuf) || fresh(client.transmitBuf)
      ensures client.Replied(old(client.sent), HandleQuery(lib, store.Db(), req, item.pairs, f), r)
    {
      var keyName := ExtractKeyName(item.pairs);
      if keyName.Err? {
        return Err(keyName.error);
      }
      if keyName.value == "" {
        return Err(NoKeyName);
      }
      var single := GetCfgQueryFlags(item.pairs);
      if single.Err? {
        return Err(single.error);
      }
      var result := store.GetKey(keyName.value, f.sql);
      if result.Err? {
        return Err(StoreFailed);
      }
      r := SendKeyValue(req, client, keyName.value, result.value, Flags(single.value, false, false), f.send);
    }

    method DoCfgUpdate(req: Packet, item: Item, client: Client, f: Faults) returns (r: Result<(), RpcError>)
      requires StoreRefinement.Valid(store.Db()) && store.lastId < TWO_32 && item.CborMap?
      modifies store, client`transmitBuf, client`sent, client.transmitBuf
      ensures StoreRefinement.Valid(store.Db())
      ensures client.transmitBuf == old(client.transmitBuf) || fresh(client.transmitBuf)
      ensures var (t', h) := HandleUpdate(lib, old(store.Db()), req, item.pairs, f);
              store.Db() == t' && client.Replied(old(client.sent), h, r)
    {
      var keyName := ExtractKeyName(item.pairs);
      if keyName.Err? {
        return Err(keyName.error);
      }
      if keyName.value == "" {
        return Err(NoKeyName);
      }
      var value := ExtractUpdateValue(lib, item.pairs);
      if value.Err? {
        return Err(value.error);
      }
      var outcome := store.SetKey(keyName.value, value.value, f.sql);
      if outcome.Err? {
        return Err(StoreFailed);
      }
      r := SendKeyValue(req, client, keyName.value, value.value, UPDATE, f.send);
    }

    /** Serve what client `fd` has delivered. Whatever throws drops the client and leaves the rest alone. */
    method HandleClientRead(fd: nat, delivered: seq<Byte>, f: Faults)
      requires fd in clients && StoreRefinement.Valid(store.Db()) && store.lastId < TWO_32
      requires clients[fd].Valid()
      modifies this, store, clients[fd], clients[fd].receiveBuf, clients[fd].transmitBuf
      ensures StoreRefinement.Valid(store.Db())
      ensures var (t', h) := HandleBytes(lib, old(store.Db()), delivered, f);
              store.Db() == t'
              && match h
                 case Ok(frame) => clients == old(clients) && clients[fd].sent == old(clients[fd].sent) + frame
                 case Err(_) => clients == old(clients) - {fd}
      ensures old(clients[fd]).Valid() && old(clients[fd]).OwnBuffers()
    {
      hide HandlePacket, StoreRefinement.Valid;
      var client := clients[fd];
      client.receiveBuf := RpcConnections.Resize(client.receiveBuf, |delivered|);
      RpcConnections.CopyInto(client.receiveBuf, 0, delivered);
      assert client.receiveBuf[..] == delivered;
      var req := ServerDecode(client.receiveBuf[..]);
      if req.Err? {
        clients := clients - {fd};
        return;
      }
      var r := Dispatch(req.value, client, f);
      if r.Err? {
        clients := clients - {fd};
      }
    }

    method Dispatch(req: Packet, client: Client, f: Faults) returns (r: Result<(), RpcError>)
      requires StoreRefinement.Valid(store.Db()) && store.lastId < TWO_32
      modifies store, client`transmitBuf, client`sent, client.transmitBuf
      ensures StoreRefinement.Valid(store.Db())
      ensures client.transmitBuf == old(client.transmitBuf) || fresh(client.transmitBuf)
      ensures var (t', h) := HandlePacket(lib, old(store.Db()), req, f);
              store.Db() == t' && client.Replied(old(client.sent), h, r)
    {
      var item := lib.load(req.payload);
      if item.None? {
        return Err(BadPayload);
      }
      if req.endpoint == CONFIG_QUERY {
        if !item.value.CborMap? {
          return Err(BadPayload);
        }
        r := DoCfgQuery(req, item.value, client, f);
      } else if req.endpoint == CONFIG_UPDATE {
        if !item.value.CborMap? {
          return Err(BadPayload);
        }
        r := DoCfgUpdate(req, item.value, client, f);
      } else {
        return Err(BadEndpoint);
      }
    }
  }
}
