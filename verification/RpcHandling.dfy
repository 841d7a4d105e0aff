/** One request as the daemon serves it: the new tables, and the reply frame or the exception that
    makes it drop the client. */
module RpcHandling {
  import opened Prelude
  import opened Wire
  import opened Cbor
  import opened RpcMessages
  import opened StoreTables
  import opened StoreOperations
  import opened StoreRefinement

  type Handled = Result<seq<Byte>, RpcError>

  /** What fails while a request is served: SQL statements, and the write of the reply. */
  datatype Faults = Faults(sql: set<Statement>, send: bool)

  const NO_FAULTS: Faults := Faults({}, false)

  /** The reply frame for a request: same endpoint and tag, reply flag set. */
  function ReplyFrame(lib: Lib, req: Packet, root: Item): seq<Byte> {
    Frame(req.endpoint, req.tag, FLAG_REPLY, lib.ser(root))
  }

  /** The reply goes out, or its write throws. */
  function Send(frame: seq<Byte>, f: Faults): Handled {
    if f.send then Err(SendFailed) else Ok(frame)
  }

  /** Was the request carried out? Its reply may still have been lost. */
  predicate CarriedOut(h: Handled) {
    h.Ok? || h == Err(SendFailed)
  }

  ghost function HandleQuery(lib: Lib, t: Tables, req: Packet, pairs: seq<Pair>, f: Faults): Handled {
    var name := KeyNameOf(pairs);
    var single := QueryFlags(pairs);
    if name.Err? then Err(name.error)
    else if name.value == "" then Err(NoKeyName)
    else if single.Err? then Err(single.error)
    else
      var value := Get(t, name.value, f.sql);
      if value.Err? then Err(StoreFailed)
      else Send(ReplyFrame(lib, req, Reply(lib, name.value, value.value, Flags(single.value, false, false))), f)
  }

  ghost function HandleUpdate(lib: Lib, t: Tables, req: Packet, pairs: seq<Pair>, f: Faults): (Tables, Handled) {
    var name := KeyNameOf(pairs);
    var value := UpdateValueOf(lib, pairs);
    if name.Err? then (t, Err(name.error))
    else if name.value == "" then (t, Err(NoKeyName))
    else if value.Err? then (t, Err(value.error))
    else
      var (t', r) := Set(t, name.value, value.value, f.sql);
      if r.Err? then (t', Err(StoreFailed))
      else (t', Send(ReplyFrame(lib, req, Reply(lib, name.value, value.value, UPDATE)), f))
  }

  ghost function HandlePacket(lib: Lib, t: Tables, req: Packet, f: Faults): (Tables, Handled) {
    var item := lib.load(req.payload);
    if item.None? then (t, Err(BadPayload))
    else if req.endpoint != CONFIG_QUERY && req.endpoint != CONFIG_UPDATE then (t, Err(BadEndpoint))
    else if !item.value.CborMap? then (t, Err(BadPayload))
    else if req.endpoint == CONFIG_QUERY then (t, HandleQuery(lib, t, req, item.value.pairs, f))
    else HandleUpdate(lib, t, req, item.value.pairs, f)
  }

  /** What the daemon does with the bytes a client delivered. */
  ghost function HandleBytes(lib: Lib, t: Tables, buf: seq<Byte>, f: Faults): (Tables, Handled) {
    var req := ServerDecode(buf);
    if req.Err? then (t, Err(BadFrame)) else HandlePacket(lib, t, req.value, f)
  }

  /** A reply carries the request's endpoint and tag, and the reply flag. */
  lemma ReplyFrameBytes(lib: Lib, req: Packet, root: Item)
    ensures var f := ReplyFrame(lib, req, root);
      |f| >= 8 && f[4] == req.endpoint && f[5] == req.tag && f[6] == 1 && f[8..] == lib.ser(root)
  {
    FrameBytes(req.endpoint, req.tag, FLAG_REPLY, lib.ser(root));
  }

  /** Endpoint 1 is the query, 2 the update; whatever is not a map for one of them throws and changes nothing. */
  lemma Dispatches(lib: Lib, t: Tables, req: Packet, f: Faults)
    ensures var root := lib.load(req.payload);
      HandlePacket(lib, t, req, f)
      == if root == None || ((req.endpoint == 1 || req.endpoint == 2) && !root.value.CborMap?) then (t, Err(BadPayload))
         else if req.endpoint == 1 then (t, HandleQuery(lib, t, req, root.value.pairs, f))
         else if req.endpoint == 2 then HandleUpdate(lib, t, req, root.value.pairs, f)
         else (t, Err(BadEndpoint))
  {
  }

  /** A well-formed query is answered with what the plain map holds, in single precision if that was asked for. */
  lemma QueryOutcomes(lib: Lib, t: Tables, req: Packet, pairs: seq<Pair>, name: CText, f: Faults)
    requires Valid(t) && t.lastId < TWO_32 && Clean(pairs, "key") && Clean(pairs, "forceFloat")
    requires MapGet(pairs, "key") == Some(CborText(name)) && name != ""
    ensures var h := HandleQuery(lib, t, req, pairs, f);
      var single := MapGet(pairs, "forceFloat");
      var held := if name in Contents(t) then Contents(t)[name] else Monostate;
      var known := single == None || single == Some(CborCtrl(20)) || single == Some(CborCtrl(21));
      && (!known ==> h == Err(BadPayload))
      && (known && f.sql == {} ==> CarriedOut(h) && (h.Ok? <==> !f.send))
      && (h.Ok? ==> exists root: Item ::
            && h.value == ReplyFrame(lib, req, root) && root.CborMap?
            && MapGet(root.pairs, "key") == Some(CborText(CString(name)))
            && MapGet(root.pairs, "value") == SentValue(lib, held, single == Some(CborCtrl(21))))
  {
    KeyNameIs(pairs);
    FlagsAre(pairs);
    GetRefines(t, name, f.sql);
    var value := if name in Contents(t) then Contents(t)[name] else Monostate;
    ReplyFields(lib, name, value, Flags(true, false, false));
    ReplyFields(lib, name, value, Flags(false, false, false));
    var h := HandleQuery(lib, t, req, pairs, f);
    if h.Ok? {
      var root := Reply(lib, name, value, Flags(QueryFlags(pairs).value, false, false));
      assert h.value == ReplyFrame(lib, req, root);
    }
  }

  /** What a request does to the tables and what comes back: a carried-out update is committed even if its reply is
      lost; whatever else throws leaves every table as it was. */
  lemma UpdateOutcomes(lib: Lib, t: Tables, req: Packet, pairs: seq<Pair>, f: Faults)
    requires Valid(t) && t.lastId < TWO_32
    ensures var (t', h) := HandleUpdate(lib, t, req, pairs, f);
      && (if CarriedOut(h) then
            KeyNameOf(pairs).Ok? && UpdateValueOf(lib, pairs).Ok?
            && Contents(t') == Contents(t)[KeyNameOf(pairs).value := Normalise(UpdateValueOf(lib, pairs).value)]
          else t' == t)
      && (h == Err(SendFailed) <==> f.send && HandleUpdate(lib, t, req, pairs, f.(send := false)).1.Ok?)
      && t' == HandleUpdate(lib, t, req, pairs, f.(send := false)).0
      && (h.Ok? && UpdateValueOf(lib, pairs) != Ok(Monostate) ==> exists root: Item ::
            && h.value == ReplyFrame(lib, req, root) && root.CborMap?
            && MapGet(root.pairs, "key") == Some(CborText(CString(KeyNameOf(pairs).value)))
            && MapGet(root.pairs, "updated") == Some(CborCtrl(21)) && MapGet(root.pairs, "value") == None)
  {
    if KeyNameOf(pairs).Ok? && UpdateValueOf(lib, pairs).Ok? {
      if UpdateValueOf(lib, pairs).value != Monostate {
        ReplyFields(lib, KeyNameOf(pairs).value, UpdateValueOf(lib, pairs).value, UPDATE);
      }
      SetRefines(t, KeyNameOf(pairs).value, UpdateValueOf(lib, pairs).value, f.sql);
    }
  }

  /** An update without a value throws before any reply, and changes nothing, unless the key exists as `Null`
      (then its reply, the one that declares too few pairs, is built). */
  lemma ValuelessUpdate(lib: Lib, t: Tables, req: Packet, pairs: seq<Pair>, f: Faults)
    requires Valid(t) && t.lastId < TWO_32
    requires KeyNameOf(pairs).Ok? && KeyNameOf(pairs).value != "" && UpdateValueOf(lib, pairs) == Ok(Monostate)
    ensures var name := KeyNameOf(pairs).value;
            var (t', h) := HandleUpdate(lib, t, req, pairs, f);
            && (CarriedOut(h) <==> name in Contents(t) && Contents(t)[name] == Null
                                   && f.sql !! {SelectKey, TouchTimestamp, CommitTransaction})
            && (!CarriedOut(h) ==> t' == t && h == Err(StoreFailed))
            && Contents(t') == Contents(t)
  {
    var name := KeyNameOf(pairs).value;
    SetRefines(t, name, Monostate, f.sql);
    if name in Contents(t) {
      NullType(t, name);
      if Contents(t)[name] == Null {
        assert Contents(t)[name := Null] == Contents(t);
      }
    }
  }
}
