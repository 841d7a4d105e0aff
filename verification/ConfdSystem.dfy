/** The daemon and its clients as one system, and what holds over every run of it. */
module ConfdSystem {
  import opened Prelude
  import opened Wire
  import opened Cbor
  import opened RpcMessages
  import opened RpcHandling
  import opened StoreTables
  import opened StoreOperations
  import opened StoreRefinement
  import opened ConfdCalls
  import opened RpcSteps

  /** A reply on its way: which of the connection's requests (counted from 1) it answers. */
  datatype Pending = Pending(number: nat, packet: Packet)

  /** A client's end. The last four fields are bookkeeping: requests made, how the bytes in `incoming`
      fall into messages, and how often a write or a read has failed; no call looks at them. */
  datatype Conn = Conn(nextTag: Byte, incoming: seq<Byte>, buffer: seq<Byte>, open: bool,
                       sent: nat, unread: seq<Pending>, writeFaults: nat, readFaults: nat)

  const NEW_CONN: Conn := Conn(0, [], [], true, 0, [], 0, 0)

  /** What goes wrong during a call: at the daemon, in the client's write, in the client's reads. */
  datatype Env = Env(faults: Faults, writeFails: bool, read: ReadFault)

  const FINE: Env := Env(NO_FAULTS, false, NoFault)

  datatype System = System(db: Tables, conns: map<nat, Conn>)

  const START: System := System(EMPTY, map[])

  datatype Event = Event(client: nat, call: ApiCall, env: Env)

  function ConnOf(s: System, c: nat): Conn {
    if c in s.conns then s.conns[c] else NEW_CONN
  }

  function NextTag(conn: Conn): Byte {
    (conn.nextTag + 1) % TWO_8
  }

  /** The tag of a connection's n-th request. */
  function TagOf(n: nat): Byte {
    n % TWO_8
  }

  function RequestPacket(lib: Lib, conn: Conn, call: ApiCall): Packet {
    Packet(Endpoint(call), NextTag(conn), 0, lib.ser(RequestItem(call)))
  }

  /** Does the request of this call get to the daemon? */
  predicate Served(conn: Conn, e: Event) {
    !BadArguments(e.call) && !e.env.writeFails && conn.open
  }

  /** What the daemon does with the request, if it gets it. */
  ghost function Handling(lib: Lib, t: Tables, conn: Conn, e: Event): (Tables, Handled) {
    HandleBytes(lib, t, Request(lib, e.call, NextTag(conn)), e.env.faults)
  }

  /** The message a reply frame is, as the client will see it. */
  function AsPending(number: nat, frame: seq<Byte>): seq<Pending> {
    match TakeMessage(frame)
    case Ok((p, _)) => [Pending(number, p)]
    case Err(_) => []
  }

  /** The connection once the request has been sent and served. A client whose request made the
      daemon throw is disconnected. */
  ghost function AfterServing(lib: Lib, t: Tables, conn: Conn, e: Event): Conn {
    var c := conn.(nextTag := NextTag(conn), sent := conn.sent + 1);
    if !Served(conn, e) then c.(writeFaults := c.writeFaults + 1)
    else match Handling(lib, t, conn, e).1
      case Ok(frame) => c.(incoming := c.incoming + frame, unread := c.unread + AsPending(c.sent, frame))
      case Err(_) => c.(open := false)
  }

  /** The end a call works on. */
  function EndOf(c: Conn): End {
    End(c.nextTag, [], c.incoming, c.buffer)
  }

  /** The receiving half of the call: one packet is taken off the stream, ... */
  function Received(c: Conn, fault: ReadFault): Conn {
    var (e, packet) := ReceiveOn(EndOf(c), fault);
    c.(incoming := e.incoming, buffer := e.buffer,
       unread := if packet.Ok? && c.unread != [] then c.unread[1..] else c.unread,
       readFaults := c.readFaults + if fault == NoFault then 0 else 1)
  }

  /** ... and taken for the reply if endpoint and tag agree. */
  function ReceivedAnswer(lib: Lib, c: Conn, call: ApiCall, fault: ReadFault): Answer
    requires !BadArguments(call)
  {
    AnswerTo(lib, call, Taken(ReceiveOn(EndOf(c), fault).1, Endpoint(call), c.nextTag))
  }

  /** One library call, from the request to the answer. */
  ghost function CallStep(lib: Lib, t: Tables, conn: Conn, e: Event): (Tables, Conn, Answer) {
    if BadArguments(e.call) then (t, conn, Failed(INVALID_ARGUMENTS))
    else
      var c := AfterServing(lib, t, conn, e);
      if !Served(conn, e) then (t, c, SystemError)
      else (Handling(lib, t, conn, e).0, Received(c, e.env.read), ReceivedAnswer(lib, c, e.call, e.env.read))
  }

  ghost function Step(lib: Lib, s: System, e: Event): (System, Answer) {
    var (t', c', a) := CallStep(lib, s.db, ConnOf(s, e.client), e);
    (System(t', s.conns[e.client := c']), a)
  }

  ghost function RunSystem(lib: Lib, events: seq<Event>): System {
    if events == [] then START
    else Step(lib, RunSystem(lib, events[..|events| - 1]), events[|events| - 1]).0
  }

  /** The answer to the i-th call of a run. */
  ghost function AnswerAt(lib: Lib, events: seq<Event>, i: nat): Answer
    requires i < |events|
  {
    Step(lib, RunSystem(lib, events[..i]), events[i]).1
  }

  // ---- connections: how the bytes waiting fall into replies -------------------------------------------------------

  ghost function Bytes(unread: seq<Pending>): seq<Byte> {
    if unread == [] then []
    else
      var p := unread[0].packet;
      Frame(p.endpoint, p.tag, p.flags, p.payload) + Bytes(unread[1..])
  }

  /** Unread replies answer requests already made, in order, under those requests' tags. */
  ghost predicate Tagged(q: seq<Pending>, sent: nat) {
    && (forall i :: 0 <= i < |q| ==>
          1 <= q[i].number <= sent && q[i].packet.tag == TagOf(q[i].number)
          && FrameFits(q[i].packet.payload) && q[i].packet.payload != [])
    && (forall i, j :: 0 <= i < j < |q| ==> q[i].number < q[j].number)
  }

  /** Every failed read has left one reply behind, and every request since a reply is accounted for
      by a later reply or a failed write. */
  ghost predicate Accounted(q: seq<Pending>, sent: nat, writeFaults: nat, readFaults: nat) {
    && |q| == readFaults
    && (forall i :: 0 <= i < |q| ==> sent <= q[i].number + (|q| - 1 - i) + writeFaults)
  }

  ghost predicate ConnOk(c: Conn) {
    && c.incoming == Bytes(c.unread)
    && c.nextTag == TagOf(c.sent)
    && Tagged(c.unread, c.sent)
    && (c.open ==> Accounted(c.unread, c.sent, c.writeFaults, c.readFaults))
  }

  lemma PushKeeps(q: seq<Pending>, sent: nat, w: nat, r: nat, p: Pending)
    requires Tagged(q, sent) && Accounted(q, sent, w, r)
    requires p.number == sent + 1 && p.packet.tag == TagOf(sent + 1)
    requires FrameFits(p.packet.payload) && p.packet.payload != []
    ensures Tagged(q + [p], sent + 1) && Accounted(q + [p], sent + 1, w, r + 1)
  {
  }

  lemma TaggedTail(q: seq<Pending>, sent: nat)
    requires Tagged(q, sent) && q != []
    ensures Tagged(q[1..], sent)
  {
  }

  lemma TaggedLater(q: seq<Pending>, sent: nat)
    requires Tagged(q, sent)
    ensures Tagged(q, sent + 1)
  {
  }

  lemma NextTagIs(conn: Conn)
    requires conn.nextTag == TagOf(conn.sent)
    ensures NextTag(conn) == TagOf(conn.sent + 1)
  {
  }

  lemma PopKeeps(q: seq<Pending>, sent: nat, w: nat, r: nat)
    requires Tagged(q, sent) && Accounted(q, sent, w, r + 1) && q != []
    ensures Tagged(q[1..], sent) && Accounted(q[1..], sent, w, r)
  {
  }

  /** On an open connection every unread reply, when the next request has been made, belongs to one of the
      last 256 requests: no two of them share a tag. */
  ghost predicate Recent(c: Conn) {
    c.open ==> forall i :: 0 <= i < |c.unread| ==> c.sent + 1 < c.unread[i].number + TWO_8
  }

  /** So it is after fewer than 256 failures. */
  lemma FewFaultsRecent(c: Conn)
    requires ConnOk(c) && c.readFaults + c.writeFaults < TWO_8
    ensures Recent(c)
  {
    if c.open && c.unread != [] {
      forall i | 0 <= i < |c.unread| ensures c.sent + 1 < c.unread[i].number + TWO_8 {
        assert c.sent <= c.unread[i].number + (|c.unread| - 1 - i) + c.writeFaults;
      }
    }
  }

  lemma {:induction false} BytesAppend(unread: seq<Pending>, p: Pending)
    ensures Bytes(unread + [p])
            == Bytes(unread) + Frame(p.packet.endpoint, p.packet.tag, p.packet.flags, p.packet.payload)
  {
    if unread == [] {
      assert unread + [p] == [p];
      assert Bytes([p][1..]) == [];
    } else {
      assert (unread + [p])[1..] == unread[1..] + [p];
      BytesAppend(unread[1..], p);
    }
  }

  /** The request and, if there is one, the reply are short enough for the 16-bit length field, and no read
      fails between a header and its payload, which would leave the stream in the middle of a message. */
  ghost predicate Fits(lib: Lib, t: Tables, conn: Conn, e: Event) {
    && FrameFits(lib.ser(RequestItem(e.call)))
    && (Handling(lib, t, conn, e).1.Ok? ==> |Handling(lib, t, conn, e).1.value| < TWO_16)
    && !e.env.read.PayloadFails?
  }

  // ---- the daemon's half ------------------------------------------------------------------------------------------

  /** How the daemon serves the request of a library call. */
  lemma ServeCall(lib: Lib, t: Tables, conn: Conn, e: Event)
    requires Faithful(lib) && FrameFits(lib.ser(RequestItem(e.call)))
    ensures Handling(lib, t, conn, e)
            == var req := RequestPacket(lib, conn, e.call);
               if IsSet(e.call) then
                 HandleUpdate(lib, t, req, UpdateRequest(e.call.key, SetItem(e.call)).pairs, e.env.faults)
               else (t, HandleQuery(lib, t, req, KeyRequest(e.call.key).pairs, e.env.faults))
  {
    ServerReadsFrame(Endpoint(e.call), NextTag(conn), 0, lib.ser(RequestItem(e.call)));
    RequestEncodable(e.call);
  }

  /** Served setters: the write is committed, whether or not its reply gets out, or nothing happens. */
  lemma ServeSet(lib: Lib, t: Tables, conn: Conn, e: Event)
    requires Faithful(lib) && FrameFits(lib.ser(RequestItem(e.call))) && IsSet(e.call)
    ensures var name := CString(e.call.key);
            var (t', r) := Set(t, name, SetValue(e.call), e.env.faults.sql);
            var reply := ReplyFrame(lib, RequestPacket(lib, conn, e.call), Reply(lib, name, SetValue(e.call), UPDATE));
            Handling(lib, t, conn, e)
            == if name == "" then (t, Err(NoKeyName))
               else if r.Err? then (t', Err(StoreFailed))
               else (t', Send(reply, e.env.faults))
  {
    ServeCall(lib, t, conn, e);
    UpdateIsRead(lib, e.call.key, SetItem(e.call));
    SetItemIsSetValue(lib, e.call);
  }

  lemma ServeGet(lib: Lib, t: Tables, conn: Conn, e: Event)
    requires Faithful(lib) && FrameFits(lib.ser(RequestItem(e.call))) && !IsSet(e.call)
    ensures var name := CString(e.call.key);
            var r := Get(t, name, e.env.faults.sql);
            Handling(lib, t, conn, e)
            == if name == "" then (t, Err(NoKeyName))
               else if r.Err? then (t, Err(StoreFailed))
               else
                 var reply := ReplyFrame(lib, RequestPacket(lib, conn, e.call), Reply(lib, name, r.value, QUERY));
                 (t, Send(reply, e.env.faults))
  {
    ServeCall(lib, t, conn, e);
    QueryIsRead(e.call.key);
  }

  // ---- one call ---------------------------------------------------------------------------------------------------

  /** The value the plain map holds under a name, `Monostate` if none. */
  function LookUp(m: Store, name: string): PropertyValue {
    if name in m then m[name] else Monostate
  }

  /** The item a served call is answered with. */
  ghost function ReplyItem(lib: Lib, t: Tables, e: Event): Item {
    var name := CString(e.call.key);
    if IsSet(e.call) then Reply(lib, name, SetValue(e.call), UPDATE)
    else Reply(lib, name, LookUp(Contents(t), name), QUERY)
  }

  /** Does the daemon change the store for this call? */
  ghost predicate Commits(lib: Lib, t: Tables, conn: Conn, e: Event) {
    IsSet(e.call) && Served(conn, e) && CarriedOut(Handling(lib, t, conn, e).1)
  }

  /** Whatever the daemon answers is the reply for this call and this state. */
  lemma HandlingReply(lib: Lib, t: Tables, conn: Conn, e: Event)
    requires Faithful(lib) && FrameFits(lib.ser(RequestItem(e.call))) && Valid(t) && t.lastId < TWO_32
    ensures var h := Handling(lib, t, conn, e).1;
            h.Ok? ==> h.value == ReplyFrame(lib, RequestPacket(lib, conn, e.call), ReplyItem(lib, t, e))
  {
    if IsSet(e.call) {
      ServeSet(lib, t, conn, e);
    } else {
      ServeGet(lib, t, conn, e);
      GetRefines(t, CString(e.call.key), e.env.faults.sql);
    }
  }

  /** What the call does to the store. */
  lemma HandlingEffect(lib: Lib, t: Tables, conn: Conn, e: Event)
    requires Faithful(lib) && FrameFits(lib.ser(RequestItem(e.call))) && Valid(t) && t.lastId < TWO_32
    ensures var (t', h) := Handling(lib, t, conn, e);
            && Valid(t') && t.lastId <= t'.lastId <= t.lastId + 1
            && Contents(t') == if IsSet(e.call) && CarriedOut(h) then
                                 Contents(t)[CString(e.call.key) := Normalise(SetValue(e.call))]
                               else Contents(t)
  {
    if IsSet(e.call) {
      ServeSet(lib, t, conn, e);
      SetRefines(t, CString(e.call.key), SetValue(e.call), e.env.faults.sql);
      ApplyCounter(t, Call(SetOp(CString(e.call.key), SetValue(e.call)), e.env.faults.sql));
    } else {
      ServeGet(lib, t, conn, e);
    }
  }

  /** Without failures the daemon answers exactly the calls the plain map allows. */
  lemma HandlingAccepts(lib: Lib, t: Tables, conn: Conn, e: Event)
    requires Faithful(lib) && FrameFits(lib.ser(RequestItem(e.call))) && Valid(t) && t.lastId < TWO_32
    requires e.env.faults == NO_FAULTS
    ensures Handling(lib, t, conn, e).1 != Err(SendFailed)
    ensures Handling(lib, t, conn, e).1.Ok? <==>
            CString(e.call.key) != "" && (IsSet(e.call) ==> MaySet(Contents(t), CString(e.call.key), SetValue(e.call)))
  {
    if IsSet(e.call) {
      ServeSet(lib, t, conn, e);
      SetRefines(t, CString(e.call.key), SetValue(e.call), {});
    } else {
      ServeGet(lib, t, conn, e);
      GetRefines(t, CString(e.call.key), {});
    }
  }

  /** The reply in transit, as a packet. */
  ghost function ReplyPacket(lib: Lib, t: Tables, conn: Conn, e: Event): Packet {
    Packet(Endpoint(e.call), NextTag(conn), FLAG_REPLY, lib.ser(ReplyItem(lib, t, e)))
  }

  lemma ReplyQueued(lib: Lib, t: Tables, conn: Conn, e: Event)
    requires Faithful(lib) && Fits(lib, t, conn, e) && Valid(t) && t.lastId < TWO_32
    requires Served(conn, e) && Handling(lib, t, conn, e).1.Ok?
    ensures FrameFits(ReplyPacket(lib, t, conn, e).payload) && ReplyPacket(lib, t, conn, e).payload != []
    ensures Queued(conn, AfterServing(lib, t, conn, e), ReplyPacket(lib, t, conn, e))
  {
    HandlingReply(lib, t, conn, e);
    var name := CString(e.call.key);
    if IsSet(e.call) {
      ReplyEncodable(lib, name, SetValue(e.call), true);
    } else {
      ReplyEncodable(lib, name, LookUp(Contents(t), name), false);
    }
    var p := ReplyPacket(lib, t, conn, e);
    var f := Frame(p.endpoint, p.tag, p.flags, p.payload);
    FrameRoundTrip(p.endpoint, p.tag, p.flags, p.payload, []);
    assert f + [] == f;
  }

  /** `c` is `conn` after one more request whose reply `p` has been queued. */
  ghost predicate Queued(conn: Conn, c: Conn, p: Packet) {
    c == conn.(nextTag := NextTag(conn), sent := conn.sent + 1,
               incoming := conn.incoming + Frame(p.endpoint, p.tag, p.flags, p.payload),
               unread := conn.unread + [Pending(conn.sent + 1, p)])
  }

  /** `p` may be queued as the reply to the next request. */
  predicate Proper(conn: Conn, p: Packet) {
    FrameFits(p.payload) && p.payload != [] && p.tag == NextTag(conn)
  }

  lemma QueuedOk(conn: Conn, c: Conn, p: Packet)
    requires ConnOk(conn) && conn.open && Queued(conn, c, p) && Proper(conn, p)
    ensures c.incoming == Bytes(c.unread) && c.nextTag == TagOf(c.sent)
    ensures Tagged(c.unread, c.sent) && Accounted(c.unread, c.sent, c.writeFaults, c.readFaults + 1)
  {
    NextTagIs(conn);
    BytesAppend(conn.unread, Pending(conn.sent + 1, p));
    PushKeeps(conn.unread, conn.sent, conn.writeFaults, conn.readFaults, Pending(conn.sent + 1, p));
  }

  /** What a call makes of the message it takes as its reply. */
  function Answered(lib: Lib, call: ApiCall, tag: Byte, p: Packet): Answer
    requires !BadArguments(call)
  {
    if p.endpoint != Endpoint(call) || p.tag != tag then Failed(GENERIC_ERROR)
    else Decode(lib, call, p.payload)
  }

  /** Receiving takes the oldest unread reply, if there is one; nothing else but the buffer changes. */
  lemma ReceiveOldest(c: Conn)
    requires c.incoming == Bytes(c.unread)
    requires c.unread != [] ==> FrameFits(c.unread[0].packet.payload) && c.unread[0].packet.payload != []
    ensures var unread := if c.unread == [] then [] else c.unread[1..];
            var c' := Received(c, NoFault);
            c' == c.(incoming := Bytes(unread), unread := unread, buffer := c'.buffer)
  {
    if c.unread != [] {
      ReceivesFrame(EndOf(c), NoFault, c.unread[0].packet, Bytes(c.unread[1..]));
    }
  }

  /** The answer is what the call makes of that reply. */
  lemma OldestAnswers(lib: Lib, c: Conn, call: ApiCall)
    requires c.incoming == Bytes(c.unread) && !BadArguments(call)
    requires c.unread != [] ==> FrameFits(c.unread[0].packet.payload) && c.unread[0].packet.payload != []
    ensures ReceivedAnswer(lib, c, call, NoFault)
            == if c.unread == [] then Failed(GENERIC_ERROR) else Answered(lib, call, c.nextTag, c.unread[0].packet)
  {
    if c.unread != [] {
      ReceivesFrame(EndOf(c), NoFault, c.unread[0].packet, Bytes(c.unread[1..]));
      AcceptsFrame(c.unread[0].packet, Endpoint(call), c.nextTag);
    }
  }

  /** A read that fails before a header leaves the stream alone. */
  lemma ReceiveFails(lib: Lib, c: Conn, call: ApiCall)
    requires !BadArguments(call)
    ensures Received(c, HeaderFails) == c.(buffer := Received(c, HeaderFails).buffer, readFaults := c.readFaults + 1)
    ensures ReceivedAnswer(lib, c, call, HeaderFails) == SystemError
  {
  }

  /** A connection that has fallen behind, or was cut off. */
  predicate Lagging(c: Conn) {
    !c.open || c.unread != []
  }

  /** The rest of a call whose reply has been queued. */
  lemma FinishKeepsConn(conn: Conn, c: Conn, p: Packet, fault: ReadFault)
    requires ConnOk(conn) && conn.open && Queued(conn, c, p) && Proper(conn, p) && !fault.PayloadFails?
    ensures var c' := Received(c, fault); ConnOk(c') && (conn.unread != [] ==> c'.unread != [])
  {
    QueuedOk(conn, c, p);
    if fault == NoFault {
      ReceiveOldest(c);
      PopKeeps(c.unread, c.sent, c.writeFaults, c.readFaults);
    } else {
      assert Received(c, fault).incoming == c.incoming;
    }
  }

  /** A call that the daemon answered leaves the connection in order. */
  lemma AnsweredKeepsConn(lib: Lib, t: Tables, conn: Conn, e: Event)
    requires Faithful(lib) && Fits(lib, t, conn, e) && Valid(t) && t.lastId < TWO_32 && ConnOk(conn)
    requires Served(conn, e) && Handling(lib, t, conn, e).1.Ok?
    ensures ConnOk(CallStep(lib, t, conn, e).1)
    ensures conn.unread != [] ==> CallStep(lib, t, conn, e).1.unread != []
  {
    ReplyQueued(lib, t, conn, e);
    FinishKeepsConn(conn, AfterServing(lib, t, conn, e), ReplyPacket(lib, t, conn, e), e.env.read);
  }

  /** `c` is `conn` after a request that made the daemon throw. */
  ghost predicate CutOff(conn: Conn, c: Conn) {
    c == conn.(nextTag := NextTag(conn), sent := conn.sent + 1, open := false)
  }

  lemma TagsDiffer(a: nat, b: nat)
    requires a < b < a + TWO_8
    ensures TagOf(a) != TagOf(b)
  {
  }

  /** The oldest reply still unread is not for the next request. */
  lemma OldestIsStale(conn: Conn)
    requires ConnOk(conn) && conn.open && Recent(conn) && conn.unread != []
    ensures conn.unread[0].packet.tag != NextTag(conn)
  {
    TagsDiffer(conn.unread[0].number, conn.sent + 1);
  }

  /** The rest of such a call reads an older reply, or end-of-file. */
  lemma CutOffAnswer(lib: Lib, conn: Conn, c: Conn, call: ApiCall)
    requires ConnOk(conn) && conn.open && CutOff(conn, c) && !BadArguments(call)
    ensures Recent(conn) ==> ReceivedAnswer(lib, c, call, NoFault) == Failed(GENERIC_ERROR)
  {
    OldestAnswers(lib, c, call);
    if conn.unread != [] && Recent(conn) {
      OldestIsStale(conn);
    }
  }

  lemma AcceptNothing(c: Conn)
    ensures Received(c, HeaderFails).incoming == c.incoming && Received(c, HeaderFails).unread == c.unread
  {
  }

  lemma CutOffKeepsConn(conn: Conn, c: Conn, fault: ReadFault)
    requires ConnOk(conn) && conn.open && CutOff(conn, c) && !fault.PayloadFails?
    ensures ConnOk(c) && ConnOk(Received(c, fault)) && !Received(c, fault).open
    ensures conn.unread == [] ==> Received(c, fault).unread == []
  {
    hide ReceiveOn, Bytes, TagOf;
    NextTagIs(conn);
    TaggedLater(conn.unread, conn.sent);
    if fault == NoFault {
      if c.unread != [] {
        TaggedTail(c.unread, c.sent);
      }
      ReceiveOldest(c);
    } else {
      AcceptNothing(c);
    }
  }

  /** So does one that was refused or never got out. */
  lemma UnansweredKeepsConn(lib: Lib, t: Tables, conn: Conn, e: Event)
    requires ConnOk(conn) && !e.env.read.PayloadFails?
    requires !Served(conn, e) || Handling(lib, t, conn, e).1.Err?
    ensures ConnOk(CallStep(lib, t, conn, e).1)
    ensures Lagging(conn) ==> Lagging(CallStep(lib, t, conn, e).1)
  {
    NextTagIs(conn);
    TaggedLater(conn.unread, conn.sent);
    if Served(conn, e) {
      var c := AfterServing(lib, t, conn, e);
      assert CutOff(conn, c);
      CutOffKeepsConn(conn, c, e.env.read);
    }
  }

  lemma CallKeepsConn(lib: Lib, t: Tables, conn: Conn, e: Event)
    requires Faithful(lib) && Fits(lib, t, conn, e) && Valid(t) && t.lastId < TWO_32 && ConnOk(conn)
    ensures ConnOk(CallStep(lib, t, conn, e).1)
    ensures Lagging(conn) ==> Lagging(CallStep(lib, t, conn, e).1)
  {
    if Served(conn, e) && Handling(lib, t, conn, e).1.Ok? {
      AnsweredKeepsConn(lib, t, conn, e);
    } else {
      UnansweredKeepsConn(lib, t, conn, e);
    }
  }

  /** In general a call on a connection that lags takes the oldest reply for its own exactly when that reply is
      of the same kind and answers a request a multiple of 256 requests ago. */
  lemma WhenStaleIsAccepted(lib: Lib, conn: Conn, c: Conn, p: Packet, call: ApiCall)
    requires ConnOk(conn) && conn.open && Queued(conn, c, p) && Proper(conn, p)
    requires !BadArguments(call) && conn.unread != []
    ensures var oldest := conn.unread[0];
            ReceivedAnswer(lib, c, call, NoFault)
            == if oldest.packet.endpoint == Endpoint(call) && (conn.sent + 1 - oldest.number) % TWO_8 == 0
               then Decode(lib, call, oldest.packet.payload) else Failed(GENERIC_ERROR)
  {
    hide ReceivedAnswer, Decode, Bytes, Accounted, TagOf;
    QueuedOk(conn, c, p);
    OldestAnswers(lib, c, call);
    SameTag(conn.unread[0].number, conn.sent + 1);
  }

  lemma SameTag(a: nat, b: nat)
    requires a <= b
    ensures TagOf(a) == TagOf(b) <==> (b - a) % TWO_8 == 0
  {
  }

  // ---- the answer to one call -------------------------------------------------------------------------------------

  /** Is this what the call should return when the daemon answers it? */
  ghost predicate RightAnswer(m: Store, call: ApiCall, a: Answer)
    requires !BadArguments(call)
  {
    if IsSet(call) then a == Done else Delivers(call, LookUp(m, CString(call.key)), a)
  }

  /** Answers of a call that took no reply as its own. */
  predicate Refused(a: Answer) {
    a == SystemError || a == Failed(GENERIC_ERROR) || a == Failed(INVALID_ARGUMENTS)
  }

  /** The reply to this very call reads as the right answer. */
  lemma OwnReply(lib: Lib, t: Tables, conn: Conn, e: Event)
    requires Faithful(lib) && !BadArguments(e.call)
    ensures RightAnswer(Contents(t), e.call, Answered(lib, e.call, NextTag(conn), ReplyPacket(lib, t, conn, e)))
  {
    if IsSet(e.call) {
      ReplyEncodable(lib, CString(e.call.key), SetValue(e.call), true);
    } else {
      ReplyDecodes(lib, e.call, CString(e.call.key), LookUp(Contents(t), CString(e.call.key)));
    }
  }

  /** The answer taken from a queue that ends in the reply to the call itself. */
  lemma TakenAnswer(lib: Lib, conn: Conn, c: Conn, p: Packet, call: ApiCall)
    requires ConnOk(conn) && conn.open && Queued(conn, c, p) && Proper(conn, p)
    requires !BadArguments(call)
    ensures Recent(conn) && conn.unread != [] ==> ReceivedAnswer(lib, c, call, NoFault) == Failed(GENERIC_ERROR)
    ensures conn.unread == [] ==>
            Received(c, NoFault).unread == []
            && ReceivedAnswer(lib, c, call, NoFault) == Answered(lib, call, c.nextTag, p)
  {
    QueuedOk(conn, c, p);
    OldestAnswers(lib, c, call);
    ReceiveOldest(c);
    if Recent(conn) && conn.unread != [] {
      OldestIsStale(conn);
    }
  }

  /** As long as the unread replies are recent, a call returns the right answer for the state it was served
      in, or fails without having taken a reply; a lagging connection only ever fails. */
  lemma CallIsRight(lib: Lib, t: Tables, conn: Conn, e: Event)
    requires Faithful(lib) && Fits(lib, t, conn, e) && Valid(t) && t.lastId < TWO_32
    requires ConnOk(conn) && Recent(conn)
    ensures var a := CallStep(lib, t, conn, e).2;
      && (!Refused(a) ==> !BadArguments(e.call) && Served(conn, e) && Handling(lib, t, conn, e).1.Ok?
                          && RightAnswer(Contents(t), e.call, a))
      && (Lagging(conn) ==> Refused(a))
  {
    if Served(conn, e) && e.env.read == NoFault {
      var c := AfterServing(lib, t, conn, e);
      if Handling(lib, t, conn, e).1.Ok? {
        ReplyQueued(lib, t, conn, e);
        TakenAnswer(lib, conn, c, ReplyPacket(lib, t, conn, e), e.call);
        OwnReply(lib, t, conn, e);
      } else {
        CutOffAnswer(lib, conn, c, e.call);
      }
    }
  }

  lemma CleanAnswered(lib: Lib, t: Tables, conn: Conn, e: Event)
    requires Faithful(lib) && Fits(lib, t, conn, e) && Valid(t) && t.lastId < TWO_32
    requires ConnOk(conn) && !Lagging(conn) && e.env == FINE && !BadArguments(e.call)
    requires Handling(lib, t, conn, e).1.Ok?
    ensures var (t', conn', a) := CallStep(lib, t, conn, e);
      t' == Handling(lib, t, conn, e).0 && RightAnswer(Contents(t), e.call, a) && conn'.open && conn'.unread == []
  {
    ReplyQueued(lib, t, conn, e);
    TakenAnswer(lib, conn, AfterServing(lib, t, conn, e), ReplyPacket(lib, t, conn, e), e.call);
    OwnReply(lib, t, conn, e);
    hide Handling, ReceiveOn, ReceivedAnswer, Valid, ConnOk, Fits, RightAnswer, Answered;
  }

  lemma CleanRefused(lib: Lib, t: Tables, conn: Conn, e: Event)
    requires ConnOk(conn) && !Lagging(conn) && e.env == FINE && !BadArguments(e.call)
    requires Handling(lib, t, conn, e).1.Err?
    ensures var (t', conn', a) := CallStep(lib, t, conn, e);
      t' == Handling(lib, t, conn, e).0 && a == Failed(GENERIC_ERROR) && !conn'.open && conn'.unread == []
  {
    hide Handling, ReceiveOn, ReceivedAnswer;
    var c := AfterServing(lib, t, conn, e);
    CutOffAnswer(lib, conn, c, e.call);
    CutOffKeepsConn(conn, c, NoFault);
  }

  /** On a connection in step and without failures, every call behaves as on the plain map. */
  lemma CleanCall(lib: Lib, t: Tables, conn: Conn, e: Event)
    requires Faithful(lib) && Fits(lib, t, conn, e) && Valid(t) && t.lastId < TWO_32
    requires ConnOk(conn) && !Lagging(conn) && e.env == FINE && !BadArguments(e.call)
    ensures var name := CString(e.call.key);
      var allowed := name != "" && (IsSet(e.call) ==> MaySet(Contents(t), name, SetValue(e.call)));
      var (t', conn', a) := CallStep(lib, t, conn, e);
      && (if allowed then RightAnswer(Contents(t), e.call, a) else a == Failed(GENERIC_ERROR))
      && Contents(t') == (if allowed && IsSet(e.call) then Contents(t)[name := Normalise(SetValue(e.call))]
                          else Contents(t))
      && conn'.open == allowed && conn'.unread == []
  {
    hide CallStep, Handling, MaySet, RightAnswer, Valid, Contents, ConnOk;
    HandlingAccepts(lib, t, conn, e);
    HandlingEffect(lib, t, conn, e);
    if Handling(lib, t, conn, e).1.Ok? {
      CleanAnswered(lib, t, conn, e);
    } else {
      CleanRefused(lib, t, conn, e);
    }
  }

  // ---- whole runs -------------------------------------------------------------------------------------------------

  /** Every message of the run is short enough to be framed, and fewer calls than ids are made. */
  ghost predicate Feasible(lib: Lib, events: seq<Event>) {
    && |events| < TWO_32
    && forall i :: 0 <= i < |events| ==>
         Fits(lib, RunSystem(lib, events[..i]).db, ConnOf(RunSystem(lib, events[..i]), events[i].client), events[i])
  }

  /** Failed writes and reads of one client so far. */
  function FaultsOf(events: seq<Event>, c: nat): nat {
    if events == [] then 0
    else
      var e := events[|events| - 1];
      FaultsOf(events[..|events| - 1], c)
      + if e.client == c && !BadArguments(e.call) && (e.env.writeFails || e.env.read != NoFault) then 1 else 0
  }

  ghost predicate SystemOk(s: System, n: nat) {
    && Valid(s.db) && s.db.lastId <= n
    && forall c :: ConnOk(ConnOf(s, c))
  }

  lemma StepKeeps(lib: Lib, s: System, e: Event, n: nat)
    requires Faithful(lib) && SystemOk(s, n) && n + 1 < TWO_32
    requires Fits(lib, s.db, ConnOf(s, e.client), e)
    ensures SystemOk(Step(lib, s, e).0, n + 1)
  {
    HandlingEffect(lib, s.db, ConnOf(s, e.client), e);
    CallKeepsConn(lib, s.db, ConnOf(s, e.client), e);
    var s' := Step(lib, s, e).0;
    forall c ensures ConnOk(ConnOf(s', c)) {
      if c != e.client {
        assert ConnOf(s', c) == ConnOf(s, c);
      }
    }
  }

  lemma FeasibleBefore(lib: Lib, events: seq<Event>, k: nat)
    requires Feasible(lib, events) && k <= |events|
    ensures Feasible(lib, events[..k])
  {
    forall i | 0 <= i < k
      ensures Fits(lib, RunSystem(lib, events[..k][..i]).db,
                   ConnOf(RunSystem(lib, events[..k][..i]), events[..k][i].client), events[..k][i])
    {
      assert events[..k][..i] == events[..i];
    }
  }

  /** Every reachable state: the tables are consistent, every connection's bytes are whole replies to
      its own requests in order. */
  lemma {:induction false} EveryState(lib: Lib, events: seq<Event>)
    requires Faithful(lib) && Feasible(lib, events)
    ensures SystemOk(RunSystem(lib, events), |events|)
  {
    if events == [] {
      assert Valid(EMPTY);
      assert forall c :: ConnOk(ConnOf(START, c));
    } else {
      var n := |events| - 1;
      FeasibleBefore(lib, events, n);
      EveryState(lib, events[..n]);
      StepKeeps(lib, RunSystem(lib, events[..n]), events[n], n);
    }
  }

  /** What is known when the k-th call of a run starts. */
  lemma AtCall(lib: Lib, events: seq<Event>, k: nat)
    requires Faithful(lib) && Feasible(lib, events) && k < |events|
    ensures var s := RunSystem(lib, events[..k]);
      && Valid(s.db) && s.db.lastId + 1 < TWO_32
      && (forall c :: ConnOk(ConnOf(s, c)))
      && Fits(lib, s.db, ConnOf(s, events[k].client), events[k])
  {
    FeasibleBefore(lib, events, k);
    EveryState(lib, events[..k]);
  }

  /** As long as a connection is open its failures are the ones its environment caused. */
  lemma {:induction false} FaultsCounted(lib: Lib, events: seq<Event>, c: nat)
    ensures var conn := ConnOf(RunSystem(lib, events), c);
            conn.open ==> conn.writeFaults + conn.readFaults == FaultsOf(events, c)
  {
    if events != [] {
      var n := |events| - 1;
      FaultsCounted(lib, events[..n], c);
      var s := RunSystem(lib, events[..n]);
      if events[n].client == c {
        CallFaults(lib, s.db, ConnOf(s, c), events[n]);
      }
    }
  }

  /** The i-th call finds its connection with recent replies only. */
  ghost predicate OnTime(lib: Lib, events: seq<Event>, i: nat)
    requires i < |events|
  {
    Recent(ConnOf(RunSystem(lib, events[..i]), events[i].client))
  }

  /** It does whenever fewer than 256 writes and reads of that client have failed. */
  lemma FewFaultsOnTime(lib: Lib, events: seq<Event>, i: nat)
    requires Faithful(lib) && Feasible(lib, events)
    requires i < |events| && FaultsOf(events[..i], events[i].client) < TWO_8
    ensures OnTime(lib, events, i)
  {
    AtCall(lib, events, i);
    FaultsCounted(lib, events[..i], events[i].client);
    var conn := ConnOf(RunSystem(lib, events[..i]), events[i].client);
    if conn.open {
      FewFaultsRecent(conn);
    }
  }

  lemma CallFaults(lib: Lib, t: Tables, conn: Conn, e: Event)
    ensures var conn' := CallStep(lib, t, conn, e).1;
            conn'.open ==>
              (conn.open
               && conn'.writeFaults + conn'.readFaults == conn.writeFaults + conn.readFaults
                  + if !BadArguments(e.call) && (e.env.writeFails || e.env.read != NoFault) then 1 else 0)
  {
  }

  /** Does the i-th call of the run change the store? */
  ghost predicate CommitsAt(lib: Lib, events: seq<Event>, i: nat)
    requires i < |events|
  {
    var s := RunSystem(lib, events[..i]);
    Commits(lib, s.db, ConnOf(s, events[i].client), events[i])
  }

  /** The value of the last committed write to a key. */
  ghost function LastWrite(lib: Lib, events: seq<Event>, key: string): Option<PropertyValue> {
    if events == [] then None
    else
      var n := |events| - 1;
      if CommitsAt(lib, events, n) && CString(events[n].call.key) == key then Some(SetValue(events[n].call))
      else LastWrite(lib, events[..n], key)
  }

  /** What reading a key yields after its last write. */
  function Held(w: Option<PropertyValue>): PropertyValue {
    match w case Some(v) => Normalise(v) case None => Monostate
  }

  /** Only a served call changes the tables. */
  lemma CallStepTables(lib: Lib, t: Tables, conn: Conn, e: Event)
    ensures CallStep(lib, t, conn, e).0 == if Served(conn, e) then Handling(lib, t, conn, e).0 else t
  {
    hide Handling, ReceivedAnswer, Received;
  }

  /** One step writes the key of a committed setter and nothing else. */
  lemma StepWrites(lib: Lib, s: System, e: Event, key: string)
    requires Faithful(lib) && Valid(s.db) && s.db.lastId < TWO_32
    requires FrameFits(lib.ser(RequestItem(e.call)))
    ensures LookUp(Contents(Step(lib, s, e).0.db), key)
            == if Commits(lib, s.db, ConnOf(s, e.client), e) && CString(e.call.key) == key then
                 Normalise(SetValue(e.call))
               else LookUp(Contents(s.db), key)
  {
    hide CallStep, Handling, SetValue, Valid;
    CallStepTables(lib, s.db, ConnOf(s, e.client), e);
    HandlingEffect(lib, s.db, ConnOf(s, e.client), e);
  }

  /** The tables hold, for every key, the value last committed by any client. */
  lemma {:induction false} TablesHoldLastWrites(lib: Lib, events: seq<Event>, key: string)
    requires Faithful(lib) && Feasible(lib, events)
    ensures LookUp(Contents(RunSystem(lib, events).db), key) == Held(LastWrite(lib, events, key))
  {
    if events == [] {
      assert Contents(EMPTY) == map[];
    } else {
      var n := |events| - 1;
      FeasibleBefore(lib, events, n);
      TablesHoldLastWrites(lib, events[..n], key);
      EveryState(lib, events[..n]);
      var s := RunSystem(lib, events[..n]);
      assert Fits(lib, s.db, ConnOf(s, events[n].client), events[n]);
      StepWrites(lib, s, events[n], key);
      LastWriteStep(lib, events, key);
    }
  }

  lemma LastWriteStep(lib: Lib, events: seq<Event>, key: string)
    requires events != []
    ensures var n := |events| - 1;
            LastWrite(lib, events, key)
            == if CommitsAt(lib, events, n) && CString(events[n].call.key) == key then Some(SetValue(events[n].call))
               else LastWrite(lib, events[..n], key)
  {
  }

  /** Over every run, a call that finds recent replies only and is answered at all is answered rightly: setters
      have committed, getters return what the last committed write left. */
  lemma EveryAnswer(lib: Lib, events: seq<Event>, i: nat)
    requires Faithful(lib) && Feasible(lib, events) && i < |events|
    requires OnTime(lib, events, i) && !Refused(AnswerAt(lib, events, i))
    ensures !BadArguments(events[i].call)
    ensures if IsSet(events[i].call) then AnswerAt(lib, events, i) == Done && CommitsAt(lib, events, i)
            else
              var held := Held(LastWrite(lib, events[..i], CString(events[i].call.key)));
              Delivers(events[i].call, held, AnswerAt(lib, events, i))
  {
    FeasibleBefore(lib, events, i);
    EveryState(lib, events[..i]);
    var s := RunSystem(lib, events[..i]);
    CallIsRight(lib, s.db, ConnOf(s, events[i].client), events[i]);
    TablesHoldLastWrites(lib, events[..i], CString(events[i].call.key));
  }

  lemma PrefixStep(lib: Lib, events: seq<Event>, j: nat, key: string)
    requires j < |events|
    ensures LastWrite(lib, events[..j + 1], key)
            == if CommitsAt(lib, events, j) && CString(events[j].call.key) == key then Some(SetValue(events[j].call))
               else LastWrite(lib, events[..j], key)
    ensures RunSystem(lib, events[..j + 1]) == Step(lib, RunSystem(lib, events[..j]), events[j]).0
  {
    assert events[..j + 1][..j] == events[..j];
  }

  lemma {:induction false} LastWriteIs(lib: Lib, events: seq<Event>, i: nat, j: nat)
    requires i < j <= |events| && CommitsAt(lib, events, i)
    requires forall k :: i < k < j ==>
               !(CommitsAt(lib, events, k) && CString(events[k].call.key) == CString(events[i].call.key))
    ensures LastWrite(lib, events[..j], CString(events[i].call.key)) == Some(SetValue(events[i].call))
  {
    hide Step, CommitsAt;
    PrefixStep(lib, events, j - 1, CString(events[i].call.key));
    if i < j - 1 {
      LastWriteIs(lib, events, i, j - 1);
    }
  }

  /** What a getter should return for what a setter wrote: the same value if they are of the same kind; bools and
      null come back as integers; everything else is a type mismatch. */
  ghost predicate Returns(put: ApiCall, get: ApiCall, a: Answer)
    requires IsSet(put) && !IsSet(get) && !BadArguments(get)
  {
    match (put, get)
    case (SetInt(_, n), GetInt(_)) => a == IntIs(n)
    case (SetReal(_, bits), GetReal(_)) => a == RealIs(bits)
    case (SetString(_, s), GetString(_, capacity)) =>
      GotText(a, CString(s), capacity) && ('\0' !in s ==> GotText(a, s, capacity))
    case (SetBlob(_, b), GetBlob(_, capacity)) => GotBlob(a, b, capacity)
    case (SetBool(_, b), GetInt(_)) => a == IntIs(if b then 1 else 0)
    case (SetNull(_), GetInt(_)) => a == IntIs(0)
    case _ => a == Failed(1)
  }

  /** All the casts and coercions on the way cancel out. */
  lemma CastsCancel(put: ApiCall, get: ApiCall, a: Answer)
    requires IsSet(put) && !IsSet(get) && !BadArguments(get)
    requires Delivers(get, Normalise(SetValue(put)), a)
    ensures Returns(put, get, a)
  {
    if put.SetString? {
      CStringTwice(put.text);
      if '\0' !in put.text {
        CStringPlain(put.text);
      }
    }
  }

  /** Across clients: if a setter reported success and no later write to the key was committed, every
      answered getter for the key returns what was set, for every 64-bit integer, real, string without
      NUL and blob; a short buffer gets a prefix and the true length. */
  lemma ReadsLatestWrite(lib: Lib, events: seq<Event>, i: nat, j: nat)
    requires Faithful(lib) && Feasible(lib, events) && i < j < |events|
    requires IsSet(events[i].call) && AnswerAt(lib, events, i) == Done && OnTime(lib, events, i)
    requires !IsSet(events[j].call) && CString(events[j].call.key) == CString(events[i].call.key)
    requires forall k :: i < k < j ==>
               !(CommitsAt(lib, events, k) && CString(events[k].call.key) == CString(events[i].call.key))
    requires OnTime(lib, events, j) && !Refused(AnswerAt(lib, events, j))
    ensures !BadArguments(events[j].call)
    ensures Returns(events[i].call, events[j].call, AnswerAt(lib, events, j))
  {
    hide RunSystem, Feasible, Faithful, AnswerAt, OnTime, Returns, Delivers, SetValue, Normalise;
    EveryAnswer(lib, events, i);
    EveryAnswer(lib, events, j);
    LastWriteIs(lib, events, i, j);
    CastsCancel(events[i].call, events[j].call, AnswerAt(lib, events, j));
  }

  /** Such a getter is answered whenever its connection is open and in step and nothing fails. */
  lemma GetterIsAnswered(lib: Lib, events: seq<Event>, j: nat)
    requires Faithful(lib) && Feasible(lib, events) && j < |events|
    requires !IsSet(events[j].call) && !BadArguments(events[j].call) && CString(events[j].call.key) != ""
    requires events[j].env == FINE
    requires !Lagging(ConnOf(RunSystem(lib, events[..j]), events[j].client))
    ensures !Refused(AnswerAt(lib, events, j))
    ensures !Lagging(ConnOf(RunSystem(lib, events[..j + 1]), events[j].client))
  {
    FeasibleBefore(lib, events, j);
    EveryState(lib, events[..j]);
    assert Fits(lib, RunSystem(lib, events[..j]).db, ConnOf(RunSystem(lib, events[..j]), events[j].client), events[j]);
    GetterStep(lib, RunSystem(lib, events[..j]), events[j]);
    PrefixStep(lib, events, j, "");
  }

  lemma RightIsNotRefused(m: Store, call: ApiCall)
    requires !BadArguments(call)
    ensures forall a :: RightAnswer(m, call, a) ==> !Refused(a)
  {
  }

  lemma GetterStep(lib: Lib, s: System, e: Event)
    requires Faithful(lib) && Valid(s.db) && s.db.lastId < TWO_32 && Fits(lib, s.db, ConnOf(s, e.client), e)
    requires !IsSet(e.call) && !BadArguments(e.call) && CString(e.call.key) != "" && e.env == FINE
    requires ConnOk(ConnOf(s, e.client)) && !Lagging(ConnOf(s, e.client))
    ensures !Refused(Step(lib, s, e).1) && !Lagging(ConnOf(Step(lib, s, e).0, e.client))
  {
    hide CallStep, Fits, Valid, RightAnswer, Refused;
    CleanCall(lib, s.db, ConnOf(s, e.client), e);
    RightIsNotRefused(Contents(s.db), e.call);
  }

  /** A connection that has fallen behind stays behind: with recent replies only it never again takes a reply
      for its own, so it reports failures and never a wrong answer. */
  lemma {:induction false} LaggingForGood(lib: Lib, events: seq<Event>, i: nat, j: nat)
    requires Faithful(lib) && Feasible(lib, events) && i <= j < |events|
    requires Lagging(ConnOf(RunSystem(lib, events[..i]), events[j].client))
    requires OnTime(lib, events, j)
    ensures Refused(AnswerAt(lib, events, j))
  {
    LaggingStays(lib, events, i, j, events[j].client);
    FeasibleBefore(lib, events, j);
    EveryState(lib, events[..j]);
    var s := RunSystem(lib, events[..j]);
    CallIsRight(lib, s.db, ConnOf(s, events[j].client), events[j]);
  }

  lemma StepLags(lib: Lib, s: System, e: Event, c: nat)
    requires Faithful(lib) && Valid(s.db) && s.db.lastId < TWO_32 && Fits(lib, s.db, ConnOf(s, e.client), e)
    requires ConnOk(ConnOf(s, e.client)) && Lagging(ConnOf(s, c))
    ensures Lagging(ConnOf(Step(lib, s, e).0, c))
  {
    CallKeepsConn(lib, s.db, ConnOf(s, e.client), e);
  }

  lemma {:induction false} LaggingStays(lib: Lib, events: seq<Event>, i: nat, j: nat, c: nat)
    requires Faithful(lib) && Feasible(lib, events) && i <= j <= |events|
    requires Lagging(ConnOf(RunSystem(lib, events[..i]), c))
    ensures Lagging(ConnOf(RunSystem(lib, events[..j]), c))
  {
    hide Step, Fits, ConnOk, Valid, Feasible, Faithful;
    if i < j {
      LaggingStays(lib, events, i, j - 1, c);
      AtCall(lib, events, j - 1);
      StepLags(lib, RunSystem(lib, events[..j - 1]), events[j - 1], c);
      PrefixStep(lib, events, j - 1, "");
    }
  }

  // ---- a run that meets every assumption --------------------------------------------------------------------------

  /** A call during which nothing fails. */
  function Clean(client: nat, call: ApiCall): Event {
    Event(client, call, FINE)
  }

  /** The messages of a setter and a getter for its key fit their frames. */
  predicate MessagesFit(lib: Lib, put: ApiCall, get: ApiCall)
    requires IsSet(put)
  {
    var name := CString(put.key);
    && FrameFits(lib.ser(RequestItem(put))) && FrameFits(lib.ser(Reply(lib, name, SetValue(put), UPDATE)))
    && FrameFits(lib.ser(RequestItem(get))) && FrameFits(lib.ser(Reply(lib, name, Normalise(SetValue(put)), QUERY)))
  }

  lemma FitsWhenReplyFits(lib: Lib, t: Tables, conn: Conn, e: Event)
    requires Faithful(lib) && Valid(t) && t.lastId < TWO_32
    requires e.env == FINE && FrameFits(lib.ser(RequestItem(e.call))) && FrameFits(lib.ser(ReplyItem(lib, t, e)))
    ensures Fits(lib, t, conn, e)
  {
    hide Handling, ReplyItem, Valid;
    HandlingReply(lib, t, conn, e);
  }

  /** One client sets a key, another gets it: both are answered, with what was set. */
  lemma TwoClients(lib: Lib, put: ApiCall, get: ApiCall)
    requires Faithful(lib) && IsSet(put) && !IsSet(get) && !BadArguments(get)
    requires CString(put.key) == CString(get.key) != "" && MessagesFit(lib, put, get)
    ensures var events := [Clean(0, put), Clean(1, get)];
      && Feasible(lib, events)
      && AnswerAt(lib, events, 0) == Done && CommitsAt(lib, events, 0)
      && Returns(put, get, AnswerAt(lib, events, 1))
  {
    hide Step, Fits, Commits, CommitsAt, Feasible, AnswerAt, Returns, Reply, ConnOf, Faithful, Valid, MessagesFit;
    hide Contents;
    FirstClient(lib, put, get);
    SecondClient(lib, Step(lib, START, Clean(0, put)).0, put, get);
    TwoSteps(lib, Clean(0, put), Clean(1, get));
  }

  /** Runs of two calls by two clients. */
  lemma TwoSteps(lib: Lib, e0: Event, e1: Event)
    requires e0.client == 0 && e1.client == 1 && ConnOf(Step(lib, START, e0).0, 1) == NEW_CONN
    ensures var events := [e0, e1]; var s := Step(lib, START, e0).0;
      && (Fits(lib, EMPTY, NEW_CONN, e0) && Fits(lib, s.db, NEW_CONN, e1) ==> Feasible(lib, events))
      && AnswerAt(lib, events, 0) == Step(lib, START, e0).1
      && (CommitsAt(lib, events, 0) <==> Commits(lib, EMPTY, NEW_CONN, e0))
      && AnswerAt(lib, events, 1) == Step(lib, s, e1).1
  {
    assert ConnOf(START, 0) == NEW_CONN;
    hide Step, Fits, Commits, ConnOf;
    var events := [e0, e1];
    assert events[..0] == [] && events[..1] == [e0] && [e0][..0] == [];
    assert RunSystem(lib, events[..1]) == Step(lib, START, e0).0;
  }

  lemma SecondClient(lib: Lib, s: System, put: ApiCall, get: ApiCall)
    requires Faithful(lib) && IsSet(put) && !IsSet(get) && !BadArguments(get)
    requires CString(put.key) == CString(get.key) != "" && MessagesFit(lib, put, get)
    requires Valid(s.db) && s.db.lastId <= 1 && ConnOf(s, 1) == NEW_CONN
    requires Contents(s.db) == map[CString(put.key) := Normalise(SetValue(put))]
    ensures Fits(lib, s.db, NEW_CONN, Clean(1, get))
    ensures Returns(put, get, Step(lib, s, Clean(1, get)).1)
  {
    hide CallStep, Handling, Fits, Valid, Faithful, SetValue, Normalise, Delivers, Returns, Reply, RequestItem;
    hide CString;
    var e := Clean(1, get);
    assert LookUp(Contents(s.db), CString(get.key)) == Normalise(SetValue(put));
    assert ReplyItem(lib, s.db, e) == Reply(lib, CString(put.key), Normalise(SetValue(put)), QUERY);
    hide ReplyItem, Contents;
    FitsWhenReplyFits(lib, s.db, NEW_CONN, e);
    CleanCall(lib, s.db, NEW_CONN, e);
    CastsCancel(put, get, Step(lib, s, e).1);
  }

  lemma FirstClient(lib: Lib, put: ApiCall, get: ApiCall)
    requires Faithful(lib) && IsSet(put) && CString(put.key) != "" && MessagesFit(lib, put, get)
    ensures var e := Clean(0, put); var (s, a) := Step(lib, START, e);
      && Fits(lib, EMPTY, NEW_CONN, e) && Commits(lib, EMPTY, NEW_CONN, e) && a == Done
      && Valid(s.db) && s.db.lastId <= 1 && ConnOf(s, 1) == NEW_CONN
      && Contents(s.db) == map[CString(put.key) := Normalise(SetValue(put))]
  {
    hide CallStep, Handling, Fits, Valid, Faithful, SetValue, Normalise, Reply, RequestItem, Contents, CString;
    var e := Clean(0, put);
    EmptyStore();
    assert SetValue(put) != Monostate by { SetsSomething(put); }
    FitsWhenReplyFits(lib, EMPTY, NEW_CONN, e);
    CleanCall(lib, EMPTY, NEW_CONN, e);
    HandlingAccepts(lib, EMPTY, NEW_CONN, e);
    HandlingEffect(lib, EMPTY, NEW_CONN, e);
    CallStepTables(lib, EMPTY, NEW_CONN, e);
  }

  lemma EmptyStore()
    ensures Contents(EMPTY) == map[] && Valid(EMPTY)
  {
  }

  lemma SetsSomething(put: ApiCall)
    requires IsSet(put)
    ensures SetValue(put) != Monostate
  {
  }
}
