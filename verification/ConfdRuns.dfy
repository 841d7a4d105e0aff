/** The library's functions and the daemon's request loop, run against each other. */
module ConfdRuns {
  import opened Prelude
  import opened Wire
  import opened RpcSteps
  import opened RpcHandling
  import opened StoreTables
  import opened Cbor
  import StoreRefinement
  import opened RpcConnections
  import opened RpcServers
  import opened ConfdCalls
  import ConfdApi
  import opened ConfdSystem

  /** The library function for a call, with a buffer of the capacity the caller asks for. */
  method Perform(conn: RpcConnection, lib: Lib, call: ApiCall, io: Io) returns (a: Answer)
    requires conn.Valid()
    modifies conn, conn.transmitBuf, conn.receiveBuf
    ensures conn.Valid() && conn.OwnBuffers()
    ensures (conn.View(), a) == CallOn(lib, call, old(conn.View()), io)
  {
    match call {
      case GetInt(key) => a := ConfdApi.ConfdGetInt(conn, lib, key, io);
      case GetReal(key) => a := ConfdApi.ConfdGetReal(conn, lib, key, io);
      case GetBool(key) =>
        var stored;
        a, stored := ConfdApi.ConfdGetBool(conn, lib, key, io);
      case GetString(key, capacity) =>
        var out := new char[capacity];
        a := ConfdApi.ConfdGetString(conn, lib, key, out, io);
      case GetBlob(key, capacity) =>
        var out := new Byte[capacity](_ => 0);
        a := ConfdApi.ConfdGetBlob(conn, lib, key, out, io);
      case _ => a := ConfdApi.ConfdSet(conn, lib, call, io);
    }
  }

  /** What the daemon's half of a call puts on the socket. */
  function Arrivals(h: Handled): seq<Byte> {
    match h case Ok(frame) => frame case Err(_) => []
  }

  /** A connection of the state machine stands for a client's end and whether the daemon still has its client. */
  predicate Stands(c: Conn, e: End, open: bool) {
    c.nextTag == e.nextTag && c.incoming == e.incoming && c.buffer == e.buffer && c.open == open
  }

  /** What the state machine's step is made of, if the daemon gets to see the request: the client's half, given
      what the daemon's half sends. */
  lemma ServedStep(lib: Lib, t: Tables, c: Conn, e: Event, end: End)
    requires Stands(c, end, c.open) && Served(c, e)
    ensures var h := Handling(lib, t, c, e);
      var (end', a) := CallOn(lib, e.call, end, Io(WroteAll, Arrivals(h.1), e.env.read));
      var (t', c', a') := CallStep(lib, t, c, e);
      a == a' && t' == h.0 && Stands(c', end', h.1.Ok?)
  {
    hide Handling, ReceiveOn, Taken, AnswerTo;
    var h := Handling(lib, t, c, e);
    var after := AfterServing(lib, t, c, e);
    assert after.incoming == c.incoming + Arrivals(h.1);
    var sent := end.outgoing + Request(lib, e.call, NextTag(c));
    OutgoingDoesNotMatter(EndOf(after), sent, e.env.read);
    assert EndOf(after).(outgoing := sent)
        == End(NextTag(c), sent, end.incoming + Arrivals(h.1), end.buffer);
  }

  /** And if it does not. */
  lemma UnservedStep(lib: Lib, t: Tables, c: Conn, e: Event, end: End)
    requires Stands(c, end, c.open) && !Served(c, e)
    ensures var (end', a) := CallOn(lib, e.call, end, Io(WriteFailed, [], e.env.read));
      var (t', c', a') := CallStep(lib, t, c, e);
      a == a' && t' == t && Stands(c', end', c.open)
  {
  }

  lemma WritesRequest(lib: Lib, call: ApiCall, e: End, io: Io)
    ensures var e' := CallOn(lib, call, e, io).0;
      && (BadArguments(call) || io.write.WriteFailed? ==> e'.outgoing == e.outgoing)
      && (!BadArguments(call) && io.write.WroteAll? ==> e'.outgoing == e.outgoing + Request(lib, call, e'.nextTag))
  {
    if !BadArguments(call) {
      var (e1, tag) := SendOn(e, Endpoint(call), lib.ser(RequestItem(call)), io.write);
      if tag.Ok? {
        ReceivesMessages(e1.(incoming := e1.incoming + io.arrivals), io.read);
      }
    }
  }

  lemma OutgoingDoesNotMatter(e: End, outgoing: seq<Byte>, fault: ReadFault)
    ensures var (e1, r1) := ReceiveOn(e, fault);
      ReceiveOn(e.(outgoing := outgoing), fault) == (e1.(outgoing := outgoing), r1) && e1.nextTag == e.nextTag
  {
  }

  /** One library call by the client the daemon knows as `fd`: the daemon serves the bytes the call writes, and
      the call takes its reply from the socket. Store, connection and answer are those of the state machine. */
  method Call(server: RpcServer, fd: nat, conn: RpcConnection, call: ApiCall, env: Env, ghost c: Conn)
    returns (a: Answer)
    requires conn.Valid() && StoreRefinement.Valid(server.store.Db()) && server.store.lastId < TWO_32
    requires Stands(c, conn.View(), fd in server.clients)
    requires fd in server.clients ==> server.clients[fd].Valid() && server.clients[fd].Buffers() !! conn.Buffers()
    modifies server, server.store, conn, conn.Buffers()
    modifies if fd in server.clients then {server.clients[fd]} + server.clients[fd].Buffers() else {}
    ensures conn.Valid() && conn.OwnBuffers() && StoreRefinement.Valid(server.store.Db())
    ensures server.clients == old(server.clients) || server.clients == old(server.clients) - {fd}
    ensures fd in old(server.clients) ==> old(server.clients[fd]).Valid() && old(server.clients[fd]).OwnBuffers()
    ensures var (t', c', a') := CallStep(server.lib, old(server.store.Db()), c, Event(fd, call, env));
      server.store.Db() == t' && a == a' && Stands(c', conn.View(), fd in server.clients)
    // What the daemon was given is what the call has written.
    ensures conn.outgoing
            == old(conn.outgoing)
               + if BadArguments(call) || env.writeFails || fd !in old(server.clients) then []
                 else Request(server.lib, call, conn.nextTag)
  {
    hide CallStep, HandleBytes, CallOn, StoreRefinement.Valid;
    ghost var e := Event(fd, call, env);
    ghost var t, end := server.store.Db(), conn.View();
    var io := Io(WriteFailed, [], env.read);
    if BadArguments(call) || env.writeFails || fd !in server.clients {
      UnservedStep(server.lib, t, c, e, end);
      WritesRequest(server.lib, call, end, io);
    } else {
      ServedStep(server.lib, t, c, e, end);
      var arrivals := Serve(server, fd, Request(server.lib, call, (conn.nextTag + 1) % TWO_8), env.faults);
      io := Io(WroteAll, arrivals, env.read);
      WritesRequest(server.lib, call, end, io);
    }
    a := Perform(conn, server.lib, call, io);
  }

  /** The daemon's half: the bytes the call is going to write are delivered, and what the daemon sends arrives. */
  method Serve(server: RpcServer, fd: nat, request: seq<Byte>, f: Faults) returns (arrivals: seq<Byte>)
    requires StoreRefinement.Valid(server.store.Db()) && server.store.lastId < TWO_32
    requires fd in server.clients && server.clients[fd].Valid()
    modifies server, server.store, server.clients[fd], server.clients[fd].Buffers()
    ensures StoreRefinement.Valid(server.store.Db())
    ensures old(server.clients[fd]).Valid() && old(server.clients[fd]).OwnBuffers()
    ensures var (t', h) := HandleBytes(server.lib, old(server.store.Db()), request, f);
      && server.store.Db() == t' && arrivals == Arrivals(h)
      && server.clients == (if h.Ok? then old(server.clients) else old(server.clients) - {fd})
  {
    hide HandleBytes, StoreRefinement.Valid;
    var client := server.clients[fd];
    var before := client.sent;
    server.HandleClientRead(fd, request, f);
    arrivals := if fd in server.clients then client.sent[|before|..] else [];
  }
}
