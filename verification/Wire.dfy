/** Message framing: an 8-byte header (16-bit little-endian version and length, then endpoint, tag,
    flags and a reserved byte) followed by the payload. */
module Wire {
  import opened Prelude

  const RPC_VERSION: Word16 := 0x0100
  const HEADER_SIZE: nat := 8
  const FLAG_REPLY: Byte := 1
  const CONFIG_QUERY: Byte := 1
  const CONFIG_UPDATE: Byte := 2

  datatype Header = Header(version: Word16, length: Word16, endpoint: Byte, tag: Byte, flags: Byte, reserved: Byte)

  datatype Packet = Packet(endpoint: Byte, tag: Byte, flags: Byte, payload: seq<Byte>)

  datatype WireError =
    | IoFailed | ShortRead | ShortWrite | BadVersion | BadLength | PastEnd | EndpointMismatch | TagMismatch

  function HeaderBytes(h: Header): (r: seq<Byte>)
    ensures |r| == HEADER_SIZE
  {
    [h.version % TWO_8, h.version / TWO_8, h.length % TWO_8, h.length / TWO_8, h.endpoint, h.tag, h.flags, h.reserved]
  }

  function HeaderOf(b: seq<Byte>): Header
    requires |b| >= HEADER_SIZE
  {
    Header(b[0] + TWO_8 * b[1], b[2] + TWO_8 * b[3], b[4], b[5], b[6], b[7])
  }

  lemma SameHeader(a: seq<Byte>, b: seq<Byte>)
    requires |a| >= HEADER_SIZE && |b| >= HEADER_SIZE && a[..HEADER_SIZE] == b[..HEADER_SIZE]
    ensures HeaderOf(a) == HeaderOf(b)
  {
    assert forall i :: 0 <= i < HEADER_SIZE ==> a[i] == a[..HEADER_SIZE][i] && b[i] == b[..HEADER_SIZE][i];
  }

  lemma HeaderRoundTrip(h: Header, rest: seq<Byte>)
    ensures HeaderOf(HeaderBytes(h) + rest) == h
  {
    var b := HeaderBytes(h) + rest;
    assert b[0] == h.version % TWO_8 && b[1] == h.version / TWO_8;
    assert b[2] == h.length % TWO_8 && b[3] == h.length / TWO_8;
    assert b[4] == h.endpoint && b[5] == h.tag && b[6] == h.flags && b[7] == h.reserved;
  }

  /** The header of a message with `n` payload bytes; the length field is 16 bits wide. */
  function MessageHeader(endpoint: Byte, tag: Byte, flags: Byte, n: nat): Header {
    Header(RPC_VERSION, (HEADER_SIZE + n) % TWO_16, endpoint, tag, flags, 0)
  }

  /** The bytes put on the wire for a message. */
  function Frame(endpoint: Byte, tag: Byte, flags: Byte, payload: seq<Byte>): seq<Byte> {
    HeaderBytes(MessageHeader(endpoint, tag, flags, |payload|)) + payload
  }

  predicate FrameFits(payload: seq<Byte>) {
    HEADER_SIZE + |payload| < TWO_16
  }

  /** Take one message off the front of a byte stream. */
  function TakeMessage(stream: seq<Byte>): Result<(Packet, seq<Byte>), WireError> {
    if |stream| < HEADER_SIZE then Err(ShortRead)
    else
      var h := HeaderOf(stream);
      if h.version != RPC_VERSION then Err(BadVersion)
      else if h.length < HEADER_SIZE then Err(BadLength)
      else if |stream| < h.length then Err(ShortRead)
      else Ok((Packet(h.endpoint, h.tag, h.flags, stream[HEADER_SIZE..h.length]), stream[h.length..]))
  }

  /** A frame at the front of a stream is taken off whole, leaving what follows it, exactly when its
      length fits the 16-bit field. */
  lemma FrameRoundTrip(endpoint: Byte, tag: Byte, flags: Byte, payload: seq<Byte>, rest: seq<Byte>)
    ensures TakeMessage(Frame(endpoint, tag, flags, payload) + rest)
            == Ok((Packet(endpoint, tag, flags, payload), rest))
            <==> FrameFits(payload)
  {
    var h := MessageHeader(endpoint, tag, flags, |payload|);
    var stream := Frame(endpoint, tag, flags, payload) + rest;
    assert stream == HeaderBytes(h) + (payload + rest);
    HeaderRoundTrip(h, payload + rest);
    if FrameFits(payload) {
      assert h.length == HEADER_SIZE + |payload|;
      assert stream[HEADER_SIZE..h.length] == payload;
      assert stream[h.length..] == rest;
    } else if TakeMessage(stream).Ok? {
      assert h.length < HEADER_SIZE + |payload|;
      assert |TakeMessage(stream).value.0.payload| < |payload|;
    }
  }

  /** What the daemon accepts as the request in its receive buffer. Its length guard compares the
      payload length with the whole buffer; `PastEnd` is what lies between that and the buffer's end. */
  function ServerDecode(buf: seq<Byte>): Result<Packet, WireError> {
    if |buf| < HEADER_SIZE then Err(ShortRead)
    else
      var h := HeaderOf(buf);
      if h.version != RPC_VERSION then Err(BadVersion)
      else if h.length < HEADER_SIZE then Err(BadLength)
      else if h.length - HEADER_SIZE > |buf| then Err(BadLength)
      else if h.length > |buf| then Err(PastEnd)
      else Ok(Packet(h.endpoint, h.tag, h.flags, buf[HEADER_SIZE..h.length]))
  }

  /** The daemon reads a client's frame back exactly, when it was delivered whole and fits. */
  lemma ServerReadsFrame(endpoint: Byte, tag: Byte, flags: Byte, payload: seq<Byte>)
    ensures ServerDecode(Frame(endpoint, tag, flags, payload)) == Ok(Packet(endpoint, tag, flags, payload))
            <==> FrameFits(payload)
  {
    FrameRoundTrip(endpoint, tag, flags, payload, []);
    var f := Frame(endpoint, tag, flags, payload);
    assert f + [] == f;
    if FrameFits(payload) {
      assert TakeMessage(f).Ok?;
      assert f[HEADER_SIZE..] == payload;
    }
  }

  /** The bytes of a frame: version 1.0 and the length, low byte first, then endpoint, tag, flags, zero, payload. */
  lemma FrameBytes(endpoint: Byte, tag: Byte, flags: Byte, payload: seq<Byte>)
    ensures var f := Frame(endpoint, tag, flags, payload);
      && |f| == 8 + |payload| && f[8..] == payload
      && f[0] == 0x00 && f[1] == 0x01
      && (f[2] + 0x100 * f[3] - |f|) % 0x1_0000 == 0
      && f[4] == endpoint && f[5] == tag && f[6] == flags && f[7] == 0
  {
  }

  /** What the length field says. */
  function StatedLength(b: seq<Byte>): nat
    requires |b| >= 4
  {
    b[2] as int + 0x100 * (b[3] as int)
  }

  /** Byte streams that begin with a whole valid message. */
  lemma TakesMessages(stream: seq<Byte>)
    ensures TakeMessage(stream).Ok? <==>
            && |stream| >= 8 && stream[0] == 0x00 && stream[1] == 0x01
            && 8 <= StatedLength(stream) <= |stream|
    ensures TakeMessage(stream).Ok? ==>
            var (p, rest) := TakeMessage(stream).value; var n := StatedLength(stream);
            && p == Packet(stream[4], stream[5], stream[6], stream[8..n])
            && rest == stream[n..]
  {
  }

  /** What the daemon takes for a request; when its bytes end before the length it states, its guard lets up to
      eight missing bytes through. */
  lemma ServerTakes(buf: seq<Byte>)
    ensures ServerDecode(buf).Ok? <==>
            && |buf| >= 8 && buf[0] == 0x00 && buf[1] == 0x01
            && 8 <= StatedLength(buf) <= |buf|
    ensures ServerDecode(buf).Ok? ==>
            ServerDecode(buf).value == Packet(buf[4], buf[5], buf[6], buf[8..StatedLength(buf)])
    ensures ServerDecode(buf) == Err(PastEnd) <==>
            && |buf| >= 8 && buf[0] == 0x00 && buf[1] == 0x01
            && |buf| < StatedLength(buf) <= |buf| + 8
  {
  }
}
