/** The client's end of a connection: one transmit and one receive buffer, reused for every message,
    and a tag counter. */
module RpcConnections {
  import opened Prelude
  import opened Wire
  import opened RpcSteps

  method Resize(buf: array<Byte>, n: nat) returns (r: array<Byte>)
    ensures r[..] == Resized(buf[..], n) && (r == buf || fresh(r))
  {
    if n == buf.Length {
      return buf;
    }
    r := new Byte[n](_ => 0);
    var kept := if n < buf.Length then n else buf.Length;
    for i := 0 to kept
      invariant forall k :: 0 <= k < n ==> r[k] == if k < i then buf[k] else 0
    {
      r[i] := buf[i];
    }
  }

  /** Copy `src` into `buf` from position `at` on. */
  method CopyInto<T>(buf: array<T>, at: nat, src: seq<T>)
    requires at + |src| <= buf.Length
    modifies buf
    ensures buf[..] == old(buf[..at]) + src + old(buf[at + |src|..])
  {
    for i := 0 to |src|
      invariant forall k :: 0 <= k < buf.Length ==> buf[k] == if at <= k < at + i then src[k - at] else old(buf[k])
    {
      buf[at + i] := src[i];
    }
  }

  /** Fill in the header fields of a message whose header has been zeroed. */
  method FillHeader(buf: array<Byte>, h: Header)
    requires HEADER_SIZE <= buf.Length && buf[7] == h.reserved
    modifies buf
    ensures buf[..] == HeaderBytes(h) + old(buf[HEADER_SIZE..])
  {
    buf[0], buf[1] := h.version % TWO_8, h.version / TWO_8;
    buf[2], buf[3] := h.length % TWO_8, h.length / TWO_8;
    buf[4], buf[5], buf[6] := h.endpoint, h.tag, h.flags;
  }

  class RpcConnection {
    var nextTag: Byte
    var transmitBuf: array<Byte>
    var receiveBuf: array<Byte>
    /** Bytes written to the socket and bytes waiting to be read from it. */
    var outgoing: seq<Byte>
    var incoming: seq<Byte>

    predicate Valid()
      reads this
    {
      transmitBuf != receiveBuf
    }

    ghost function Buffers(): set<object>
      reads this
    {
      {transmitBuf, receiveBuf}
    }

    /** All that a later call can see: the transmit buffer is written anew for every message. */
    function View(): End
      reads this, receiveBuf
    {
      End(nextTag, outgoing, incoming, receiveBuf[..])
    }

    /** Its buffers are those it had, or newly allocated. */
    twostate predicate OwnBuffers()
      reads this
    {
      && (transmitBuf == old(transmitBuf) || fresh(transmitBuf))
      && (receiveBuf == old(receiveBuf) || fresh(receiveBuf))
    }

    constructor ()
      ensures Valid() && fresh(transmitBuf) && fresh(receiveBuf)
      ensures View() == End(0, [], [], [])
    {
      nextTag := 0;
      transmitBuf := new Byte[0];
      receiveBuf := new Byte[0];
      outgoing, incoming := [], [];
    }

    /** Lay the message out in the transmit buffer under a new tag; it does not depend on what the buffer held. */
    method FormatPacket(endpoint: Byte, payload: seq<Byte>)
      requires Valid()
      modifies this`nextTag, this`transmitBuf, transmitBuf
      ensures Valid() && (transmitBuf == old(transmitBuf) || fresh(transmitBuf))
      ensures nextTag == (old(nextTag) + 1) % TWO_8
      ensures transmitBuf[..] == Frame(endpoint, nextTag, 0, payload)
    {
      var msgSize := HEADER_SIZE + |payload|;
      transmitBuf := Resize(transmitBuf, msgSize);
      CopyInto(transmitBuf, 0, seq(HEADER_SIZE, _ => 0));
      if |payload| > 0 {
        CopyInto(transmitBuf, HEADER_SIZE, payload);
      }
      assert transmitBuf[HEADER_SIZE..] == payload;
      nextTag := (nextTag + 1) % TWO_8;
      FillHeader(transmitBuf, MessageHeader(endpoint, nextTag, 0, |payload|));
    }

    method SendPacket(endpoint: Byte, payload: seq<Byte>, write: WriteOutcome) returns (r: Result<Byte, WireError>)
      requires Valid()
      modifies this`nextTag, this`transmitBuf, this`outgoing, transmitBuf
      ensures Valid() && (transmitBuf == old(transmitBuf) || fresh(transmitBuf))
      ensures transmitBuf[..] == Frame(endpoint, nextTag, 0, payload)
      ensures (View(), r) == SendOn(old(View()), endpoint, payload, write)
    {
      FormatPacket(endpoint, payload);
      var sent := Write(write);
      return if sent.Ok? then Ok(nextTag) else Err(sent.error);
    }

    /** Hand the transmit buffer to the socket. */
    method Write(write: WriteOutcome) returns (r: Result<(), WireError>)
      modifies this`outgoing
      ensures match write
              case WriteFailed => r == Err(IoFailed) && outgoing == old(outgoing)
              case WroteAll => r == Ok(()) && outgoing == old(outgoing) + transmitBuf[..]
              case WrotePart(n) =>
                if n < transmitBuf.Length then r == Err(ShortWrite) && outgoing == old(outgoing) + transmitBuf[..n]
                else r == Ok(()) && outgoing == old(outgoing) + transmitBuf[..]
    {
      match write {
        case WroteAll =>
          outgoing := outgoing + transmitBuf[..];
          return Ok(());
        case WriteFailed =>
          return Err(IoFailed);
        case WrotePart(n) =>
          var wrote := if n < transmitBuf.Length then n else transmitBuf.Length;
          outgoing := outgoing + transmitBuf[..wrote];
          if wrote != transmitBuf.Length {
            return Err(ShortWrite);
          }
          return Ok(());
      }
    }

    /** `read` into the receive buffer from position `at` on; fewer bytes than asked for if fewer are waiting. */
    method ReadInto(at: nat, n: nat) returns (got: nat)
      requires Valid() && at + n <= receiveBuf.Length
      modifies this`incoming, receiveBuf
      ensures got == if |old(incoming)| < n then |old(incoming)| else n
      ensures View() == ReadAt(old(View()), at, n)
    {
      got := if |incoming| < n then |incoming| else n;
      CopyInto(receiveBuf, at, incoming[..got]);
      incoming := incoming[got..];
    }

    /** Read one packet. */
    method ReceivePacket(fault: ReadFault) returns (r: Result<seq<Byte>, WireError>)
      requires Valid()
      modifies this`receiveBuf, this`incoming, receiveBuf
      ensures Valid() && (receiveBuf == old(receiveBuf) || fresh(receiveBuf))
      ensures (View(), r) == ReceiveOn(old(View()), fault)
    {
      hide ReceiveHeader, ReceivePayload;
      var h := ReadHeader(fault);
      if h.Err? {
        return Err(h.error);
      }
      if h.value.length != HEADER_SIZE {
        r := ReadPayload(h.value.length, fault);
        return;
      }
      return Ok(receiveBuf[..]);
    }

    /** The first half of `receivePacket`. */
    method ReadHeader(fault: ReadFault) returns (r: Result<Header, WireError>)
      requires Valid()
      modifies this`receiveBuf, this`incoming, receiveBuf
      ensures Valid() && (receiveBuf == old(receiveBuf) || fresh(receiveBuf))
      ensures (View(), r) == ReceiveHeader(old(View()), fault)
    {
      if receiveBuf.Length < HEADER_SIZE {
        receiveBuf := Resize(receiveBuf, HEADER_SIZE);
      }
      if fault == HeaderFails {
        return Err(IoFailed);
      }
      hide ReadAt, HeaderOf;
      var got := ReadInto(0, HEADER_SIZE);
      if got != HEADER_SIZE {
        return Err(ShortRead);
      }
      var h := HeaderOf(receiveBuf[..]);
      if h.version != RPC_VERSION {
        return Err(BadVersion);
      } else if h.length < HEADER_SIZE {
        return Err(BadLength);
      }
      return Ok(h);
    }

    /** The second half of `receivePacket`. */
    method ReadPayload(length: nat, fault: ReadFault) returns (r: Result<seq<Byte>, WireError>)
      requires Valid() && HEADER_SIZE <= receiveBuf.Length && HEADER_SIZE < length
      modifies this`receiveBuf, this`incoming, receiveBuf
      ensures Valid() && (receiveBuf == old(receiveBuf) || fresh(receiveBuf))
      ensures (View(), r) == ReceivePayload(old(View()), length, fault)
    {
      receiveBuf := Resize(receiveBuf, length);
      if fault == PayloadFails {
        return Err(IoFailed);
      }
      var payloadToRead := length - HEADER_SIZE;
      var got := ReadInto(HEADER_SIZE, payloadToRead);
      if got != payloadToRead {
        return Err(ShortRead);
      }
      return Ok(receiveBuf[..]);
    }

    /** Send a request and take the next packet as its reply. */
    method SendPacketWithReply(endpoint: Byte, payload: seq<Byte>, io: Io) returns (r: Result<seq<Byte>, WireError>)
      requires Valid()
      modifies this, transmitBuf, receiveBuf
      ensures Valid() && OwnBuffers()
      ensures (View(), r) == ExchangeOn(old(View()), endpoint, payload, io)
    {
      var tag := SendPacket(endpoint, payload, io.write);
      if tag.Err? {
        return Err(tag.error);
      }
      incoming := incoming + io.arrivals;
      ghost var e := View();
      var packet := ReceivePacket(io.read);
      if packet.Err? {
        return Err(packet.error);
      }
      HandsOutMessages(e, io.read);
      var h := HeaderOf(packet.value);
      if h.endpoint != endpoint {
        return Err(EndpointMismatch);
      } else if h.tag != tag.value {
        return Err(TagMismatch);
      }
      return Ok(packet.value[HEADER_SIZE..]);
    }
  }
}
