/** What sending and receiving do to one end of a connection, whatever the operating system answers. */
module RpcSteps {
  import opened Prelude
  import opened Wire

  /** What `write` makes of a packet: all of it, nothing, or only its first bytes. */
  datatype WriteOutcome = WroteAll | WriteFailed | WrotePart(n: nat)

  /** Which `read` of a packet returns an error: none, that of its header, or that of its payload. */
  datatype ReadFault = NoFault | HeaderFails | PayloadFails

  /** What happens during one exchange; `arrivals` are the bytes the daemon puts on the socket in between. */
  datatype Io = Io(write: WriteOutcome, arrivals: seq<Byte>, read: ReadFault)

  /** One end: its tag counter, the bytes written to the socket, those waiting on it, the receive buffer. */
  datatype End = End(nextTag: Byte, outgoing: seq<Byte>, incoming: seq<Byte>, buffer: seq<Byte>)

  /** `std::vector::resize`: keep what fits, pad with zero bytes. */
  function Resized(b: seq<Byte>, n: nat): (r: seq<Byte>)
    ensures |r| == n
  {
    if n <= |b| then b[..n] else b + seq(n - |b|, _ => 0)
  }

  /** `read` of at most `n` bytes into the buffer from position `at` on. */
  function ReadAt(e: End, at: nat, n: nat): End
    requires at + n <= |e.buffer|
  {
    var got := if |e.incoming| < n then |e.incoming| else n;
    e.(incoming := e.incoming[got..], buffer := e.buffer[..at] + e.incoming[..got] + e.buffer[at + got..])
  }

  function SendOn(e: End, endpoint: Byte, payload: seq<Byte>, write: WriteOutcome): (End, Result<Byte, WireError>) {
    var tag := (e.nextTag + 1) % TWO_8;
    var frame := Frame(endpoint, tag, 0, payload);
    if write.WriteFailed? then (e.(nextTag := tag), Err(IoFailed))
    else if write.WrotePart? && write.n < |frame| then
      (e.(nextTag := tag, outgoing := e.outgoing + frame[..write.n]), Err(ShortWrite))
    else (e.(nextTag := tag, outgoing := e.outgoing + frame), Ok(tag))
  }

  /** The receive buffer has space for at least a header. */
  function Grown(b: seq<Byte>): (r: seq<Byte>)
    ensures HEADER_SIZE <= |r|
  {
    if |b| < HEADER_SIZE then Resized(b, HEADER_SIZE) else b
  }

  /** The first `read`: a header, checked. */
  function ReceiveHeader(e: End, fault: ReadFault): (r: (End, Result<Header, WireError>))
    ensures HEADER_SIZE <= |r.0.buffer| && (r.1.Ok? ==> HEADER_SIZE <= r.1.value.length)
  {
    var e1 := e.(buffer := Grown(e.buffer));
    if fault == HeaderFails then (e1, Err(IoFailed))
    else
      var e2 := ReadAt(e1, 0, HEADER_SIZE);
      (e2, if |e.incoming| < HEADER_SIZE then Err(ShortRead) else Checked(HeaderOf(e2.buffer)))
  }

  function Checked(h: Header): Result<Header, WireError> {
    if h.version != RPC_VERSION then Err(BadVersion) else if h.length < HEADER_SIZE then Err(BadLength) else Ok(h)
  }

  /** `receivePacket`: the packet handed out is the whole receive buffer. */
  function ReceiveOn(e: End, fault: ReadFault): (End, Result<seq<Byte>, WireError>) {
    var (e1, h) := ReceiveHeader(e, fault);
    if h.Err? then (e1, Err(h.error))
    else if h.value.length == HEADER_SIZE then (e1, Ok(e1.buffer))
    else ReceivePayload(e1, h.value.length, fault)
  }

  /** The second `read`, when a header has announced a packet of `length` bytes. */
  function ReceivePayload(e: End, length: nat, fault: ReadFault): (End, Result<seq<Byte>, WireError>)
    requires HEADER_SIZE <= |e.buffer| && HEADER_SIZE < length
  {
    var e1 := e.(buffer := Resized(e.buffer, length));
    var n := length - HEADER_SIZE;
    if fault == PayloadFails then (e1, Err(IoFailed))
    else
      var e2 := ReadAt(e1, HEADER_SIZE, n);
      (e2, if |e.incoming| < n then Err(ShortRead) else Ok(e2.buffer))
  }

  /** `sendPacketWithReply`: send, take the next packet, compare endpoint and tag. */
  function ExchangeOn(e: End, endpoint: Byte, payload: seq<Byte>, io: Io): (End, Result<seq<Byte>, WireError>) {
    var (e1, tag) := SendOn(e, endpoint, payload, io.write);
    if tag.Err? then (e1, Err(tag.error))
    else
      var (e2, packet) := ReceiveOn(e1.(incoming := e1.incoming + io.arrivals), io.read);
      (e2, Taken(packet, endpoint, tag.value))
  }

  function Taken(packet: Result<seq<Byte>, WireError>, endpoint: Byte, tag: Byte): Result<seq<Byte>, WireError> {
    match packet case Err(e) => Err(e) case Ok(p) => Accept(p, endpoint, tag)
  }

  function Accept(packet: seq<Byte>, endpoint: Byte, tag: Byte): Result<seq<Byte>, WireError> {
    if |packet| < HEADER_SIZE then Err(ShortRead)
    else if HeaderOf(packet).endpoint != endpoint then Err(EndpointMismatch)
    else if HeaderOf(packet).tag != tag then Err(TagMismatch)
    else Ok(packet[HEADER_SIZE..])
  }

  /** Each request carries the next tag, modulo 256; of its frame exactly what the write took is on the socket, and
      the call goes on only if that was all. */
  lemma SendsFrame(e: End, endpoint: Byte, payload: seq<Byte>, write: WriteOutcome)
    ensures var (e', r) := SendOn(e, endpoint, payload, write);
      var frame := Frame(endpoint, e'.nextTag, 0, payload);
      && (e'.nextTag == e.nextTag + 1 || (e.nextTag == 255 && e'.nextTag == 0))
      && e'.incoming == e.incoming && e'.buffer == e.buffer
      && (r.Ok? ==> r.value == e'.nextTag && e'.outgoing == e.outgoing + frame)
      && (r.Err? ==> exists n :: 0 <= n < |frame| && e'.outgoing == e.outgoing + frame[..n])
      && (write.WroteAll? ==> r.Ok?)
      && (write.WriteFailed? ==> r == Err(IoFailed) && e'.outgoing == e.outgoing)
      && (write.WrotePart? && write.n < |frame| ==>
            r == Err(ShortWrite) && e'.outgoing == e.outgoing + frame[..write.n])
  {
    var frame := Frame(endpoint, (e.nextTag + 1) % TWO_8, 0, payload);
    assert e.outgoing == e.outgoing + frame[..0];
  }

  /** What waits on the socket after a packet could not be received: all that did if the first read failed, the rest
      after eight bytes of header if those were wrong or the second read failed, nothing if bytes were missing. */
  lemma LeavesAfterFailure(e: End, fault: ReadFault)
    requires ReceiveOn(e, fault).1.Err?
    ensures var (e', r) := ReceiveOn(e, fault);
      && (fault == HeaderFails ==> r == Err(IoFailed) && e'.incoming == e.incoming)
      && (fault != HeaderFails && |e.incoming| < 8 ==> r == Err(ShortRead) && e'.incoming == [])
      && (fault != HeaderFails && |e.incoming| >= 8 ==>
            var n := StatedLength(e.incoming);
            if e.incoming[0] != 0x00 || e.incoming[1] != 0x01 then
              r == Err(BadVersion) && e'.incoming == e.incoming[8..]
            else if n < 8 then r == Err(BadLength) && e'.incoming == e.incoming[8..]
            else if fault == PayloadFails then r == Err(IoFailed) && e'.incoming == e.incoming[8..]
            else r == Err(ShortRead) && e'.incoming == [])
  {
    if |e.incoming| >= 8 {
      HeaderIsRead(e);
    }
  }

  // ---- what that means for messages -------------------------------------------------------------------------------

  /** When eight bytes are waiting, they are read over the front of the buffer. */
  lemma HeaderIsRead(e: End)
    requires |e.incoming| >= HEADER_SIZE
    ensures var e' := ReadAt(e.(buffer := Grown(e.buffer)), 0, HEADER_SIZE);
      && HeaderOf(e'.buffer) == HeaderOf(e.incoming)
      && e'.incoming == e.incoming[HEADER_SIZE..]
      && e'.buffer == e.incoming[..HEADER_SIZE] + Grown(e.buffer)[HEADER_SIZE..]
  {
    SameHeader(ReadAt(e.(buffer := Grown(e.buffer)), 0, HEADER_SIZE).buffer, e.incoming);
  }

  /** When the announced payload is waiting too, the buffer is the whole message. */
  lemma PayloadIsRead(e: End, h: Header)
    requires |e.incoming| >= h.length > HEADER_SIZE && HeaderOf(e.incoming) == h
    ensures var e' := ReadAt(e.(buffer := Grown(e.buffer)), 0, HEADER_SIZE);
      ReceivePayload(e', h.length, NoFault).1 == Ok(e.incoming[..h.length])
      && ReceivePayload(e', h.length, NoFault).0.incoming == e.incoming[h.length..]
  {
    HeaderIsRead(e);
    var e' := ReadAt(e.(buffer := Grown(e.buffer)), 0, HEADER_SIZE);
    var b, n := Resized(e'.buffer, h.length), h.length - HEADER_SIZE;
    assert b[..HEADER_SIZE] == e.incoming[..HEADER_SIZE] && b[HEADER_SIZE + n..] == [];
    assert b[..HEADER_SIZE] + e'.incoming[..n] + b[HEADER_SIZE + n..] == e.incoming[..h.length];
    assert e.incoming[..HEADER_SIZE] + e.incoming[HEADER_SIZE..][..h.length - HEADER_SIZE] == e.incoming[..h.length];
  }

  /** A packet comes out exactly when no `read` it takes fails and a whole valid message is waiting; that message
      is then gone. */
  lemma ReceivesMessages(e: End, fault: ReadFault)
    ensures var (e', r) := ReceiveOn(e, fault);
      && (r.Ok? <==> TakeMessage(e.incoming).Ok? && !fault.HeaderFails?
                     && (fault.PayloadFails? ==> TakeMessage(e.incoming).value.0.payload == []))
      && (r.Ok? ==> e'.incoming == TakeMessage(e.incoming).value.1 && e'.buffer == r.value)
      && e'.nextTag == e.nextTag && e'.outgoing == e.outgoing
  {
    if |e.incoming| >= HEADER_SIZE {
      HeaderIsRead(e);
      var h := HeaderOf(e.incoming);
      if |e.incoming| >= h.length > HEADER_SIZE {
        PayloadIsRead(e, h);
      }
    }
  }

  /** The packet is the message on the wire if it has a payload or the buffer was no longer than a header;
      otherwise, and only then, bytes of an earlier message follow its header. */
  lemma HandsOutMessages(e: End, fault: ReadFault)
    requires ReceiveOn(e, fault).1.Ok?
    ensures var packet := ReceiveOn(e, fault).1.value; var m := TakeMessage(e.incoming).value.0;
      && |packet| >= HEADER_SIZE
      && HeaderOf(packet) == HeaderOf(e.incoming)
      && packet[HEADER_SIZE..]
         == (if m.payload != [] || |e.buffer| <= HEADER_SIZE then m.payload else e.buffer[HEADER_SIZE..])
      && (packet == e.incoming[..HeaderOf(e.incoming).length] <==> m.payload != [] || |e.buffer| <= HEADER_SIZE)
  {
    var h := HeaderOf(e.incoming);
    var packet := ReceiveOn(e, fault).1.value;
    HeaderIsRead(e);
    if h.length == HEADER_SIZE {
      assert packet[HEADER_SIZE..] == if |e.buffer| <= HEADER_SIZE then [] else e.buffer[HEADER_SIZE..];
    } else {
      PayloadIsRead(e, h);
    }
  }

  /** A frame at the front is received whole; a failing first `read` leaves it there; if the second fails its
      payload is left without a header, and the next packet starts in the middle of it. */
  lemma ReceivesFrame(e: End, fault: ReadFault, p: Packet, rest: seq<Byte>)
    requires FrameFits(p.payload) && p.payload != []
    requires e.incoming == Frame(p.endpoint, p.tag, p.flags, p.payload) + rest
    ensures var (e', r) := ReceiveOn(e, fault);
      match fault
      case NoFault => r == Ok(Frame(p.endpoint, p.tag, p.flags, p.payload)) && e'.incoming == rest
      case HeaderFails => r == Err(IoFailed) && e'.incoming == e.incoming
      case PayloadFails => r == Err(IoFailed) && e'.incoming == p.payload + rest
  {
    FrameRoundTrip(p.endpoint, p.tag, p.flags, p.payload, rest);
    var f := Frame(p.endpoint, p.tag, p.flags, p.payload);
    assert e.incoming[..|f|] == f && e.incoming[HEADER_SIZE..] == p.payload + rest;
    if fault.NoFault? {
      ReceivesMessages(e, fault);
      HandsOutMessages(e, fault);
    }
  }

  /** The oldest waiting message is taken as the reply exactly when endpoint and tag are those of the request just
      sent; what the caller gets is its payload. */
  lemma AcceptsOldest(e: End, endpoint: Byte, payload: seq<Byte>, arrivals: seq<Byte>)
    requires TakeMessage(e.incoming + arrivals).Ok?
    ensures var (e', r) := ExchangeOn(e, endpoint, payload, Io(WroteAll, arrivals, NoFault));
            var (m, rest) := TakeMessage(e.incoming + arrivals).value;
      && (r.Ok? <==> m.endpoint == endpoint && m.tag == (e.nextTag + 1) % TWO_8)
      && (r.Ok? && m.payload != [] ==> r.value == m.payload)
      && (r.Err? ==> r.error == EndpointMismatch || r.error == TagMismatch)
      && e'.incoming == rest
  {
    var e1 := SendOn(e, endpoint, payload, WroteAll).0;
    ReceivesMessages(e1.(incoming := e1.incoming + arrivals), NoFault);
    HandsOutMessages(e1.(incoming := e1.incoming + arrivals), NoFault);
  }

  /** A frame handed out is accepted exactly when its endpoint and tag are right. */
  lemma AcceptsFrame(p: Packet, endpoint: Byte, tag: Byte)
    ensures Accept(Frame(p.endpoint, p.tag, p.flags, p.payload), endpoint, tag)
            == if p.endpoint != endpoint then Err(EndpointMismatch)
               else if p.tag != tag then Err(TagMismatch) else Ok(p.payload)
  {
    var f := Frame(p.endpoint, p.tag, p.flags, p.payload);
    HeaderRoundTrip(MessageHeader(p.endpoint, p.tag, p.flags, |p.payload|), p.payload);
    assert f[HEADER_SIZE..] == p.payload;
  }
}
