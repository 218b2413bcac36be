/** The chunk protocol client: one connection, strictly one request then one response.
    The connection is two byte sequences: what has been written to it so far, and what the
    server will still deliver before closing it. How much a write transfers is decided
    by the network and is a parameter of every operation that sends. */
module ChunkClient {
  import opened Types
  import opened WireCodec

  /** What the connection reports for one write of a buffer: the byte count it took
      and whether it returned an error. */
  datatype WriteOutcome = WriteOutcome(count: nat, failed: bool)

  /** What dialing the server gives: a failure, or a connection over which the server
      will send `peer`. */
  datatype DialOutcome = DialFailed | Dialed(peer: seq<Byte>)

  /** The bytes of `buf` that reach the connection. */
  function Transferred(buf: seq<Byte>, w: WriteOutcome): (t: seq<Byte>)
    ensures |t| <= |buf| && t == buf[..|t|]
    ensures |t| == if w.count < |buf| then w.count else |buf|
    ensures !w.failed && w.count >= |buf| ==> t == buf
  {
    buf[..if w.count < |buf| then w.count else |buf|]
  }

  /** What a write on the connection reports: once the connection is closed, every write
      fails without transferring anything. */
  function WriteOn(closed: bool, w: WriteOutcome): (v: WriteOutcome)
    ensures closed ==> v.failed && v.count == 0
    ensures !closed ==> v == w
  {
    if closed then WriteOutcome(0, true) else w
  }

  /** The error a send reports: the connection's own error first, then a short write. */
  function SendError(buf: seq<Byte>, w: WriteOutcome): (e: Option<ClientError>)
    ensures e == None <==> !w.failed && Transferred(buf, w) == buf
    ensures w.failed ==> e == Some(IoError)
    ensures !w.failed && |Transferred(buf, w)| != |buf| ==> e == Some(IncompleteIo)
  {
    if w.failed then Some(IoError)
    else if |Transferred(buf, w)| != |buf| then Some(IncompleteIo)
    else None
  }

  /** One complete exchange on a connection whose pending input is `incoming`: the
      response result and the input left. When the request cannot be sent in full,
      nothing is read. */
  function Exchange(incoming: seq<Byte>, reqType: U32, reqBody: seq<Byte>, respSize: nat, w: WriteOutcome)
    : (r: (Result<seq<Byte>, ClientError>, seq<Byte>))
    ensures SendError(FrameBytes(CreatePacket(reqType, reqBody)), w).Some? ==>
              r == (Err(SendError(FrameBytes(CreatePacket(reqType, reqBody)), w).value), incoming)
    ensures SendError(FrameBytes(CreatePacket(reqType, reqBody)), w).None? ==>
              r == ReceiveResponse(incoming, reqType, respSize)
  {
    match SendError(FrameBytes(CreatePacket(reqType, reqBody)), w)
    case Some(e) => (Err(e), incoming)
    case None => ReceiveResponse(incoming, reqType, respSize)
  }

  /** Once the connection is closed, an exchange fails at the send with an I/O error and
      reads nothing, whatever the server would have answered. */
  lemma ClosedExchangeFails(incoming: seq<Byte>, reqType: U32, reqBody: seq<Byte>, respSize: nat, w: WriteOutcome)
    ensures Exchange(incoming, reqType, reqBody, respSize, WriteOn(true, w)) == (Err(IoError), incoming)
  {
  }

  /** The error of a result, as Go's `error` (None is nil). */
  function ErrorOf<T>(r: Result<T, ClientError>): (e: Option<ClientError>)
    ensures e.None? <==> r.Ok?
    ensures r.Err? ==> e == Some(r.error)
  {
    match r
    case Ok(_) => None
    case Err(e) => Some(e)
  }

  /** Scan for the first zero byte and return what precedes it, or the whole buffer. */
  method GetString(bytes: seq<Byte>) returns (s: seq<Byte>)
    ensures s == TrimAtZero(bytes)
  {
    for i := 0 to |bytes|
      invariant forall j :: 0 <= j < i ==> bytes[j] != 0
    {
      if bytes[i] == 0 {
        TrimAtZeroUnique(bytes, bytes[..i]);
        return bytes[..i];
      }
    }
    TrimAtZeroUnique(bytes, bytes);
    return bytes[..|bytes|];
  }

  /** An echoing server answers a ping with the buffer it received, so the caller gets
      back its own zero-free input. */
  lemma PingAgainstEcho(value: seq<Byte>, rest: seq<Byte>, w: WriteOutcome)
    requires |value| <= PacketMaxDataSize
    requires forall i :: 0 <= i < |value| ==> value[i] != 0
    requires SendError(FrameBytes(CreatePacket(PacketTypePing, PingRequest(value))), w).None?
    ensures var echo := FrameBytes(CreatePacket(PacketTypePing, PingRequest(value))) + rest;
            var r := Exchange(echo, PacketTypePing, PingRequest(value), PacketMaxDataSize, w);
            r.1 == rest && r.0.Ok? && TrimAtZero(r.0.value) == value
  {
    ReceiveCreated(PacketTypePing, PingRequest(value), rest);
    assert PingRequest(value)[..PacketMaxDataSize] == PingRequest(value);
    PingBufferTrimsBack(value);
  }

  /** A chunk read answered with a 65536-byte data block returns that block verbatim. */
  lemma ChunkReadReturnsBlock(chunkId: Guid, data: seq<Byte>, rest: seq<Byte>, w: WriteOutcome)
    requires |data| == ChunkSize
    requires SendError(FrameBytes(CreatePacket(PacketTypeChunkRead, chunkId)), w).None?
    ensures var reply := FrameBytes(Packet(PacketHeader(PacketMagic, PacketTypeChunkRead, ChunkSize, 0), data)) + rest;
            Exchange(reply, PacketTypeChunkRead, chunkId, ChunkSize, w) == (Ok(data), rest)
  {
    ResponseAccepted(PacketTypeChunkRead, data, ChunkSize, rest);
    assert data[..ChunkSize] == data;
  }

  class Client {
    const host: seq<char>
    /** A connection has been established (Con != nil). */
    var connected: bool
    var closed: bool
    /** Every byte written to the connection so far. */
    var sent: seq<Byte>
    /** The bytes the server will still deliver before closing the connection. */
    var incoming: seq<Byte>

    constructor (host: seq<char>)
      ensures this.host == host
      ensures !connected && !closed && sent == [] && incoming == []
    {
      this.host := host;
      connected, closed := false, false;
      sent, incoming := [], [];
    }

    /** Opens the connection; only a successful dial assigns it. */
    method Dial(outcome: DialOutcome) returns (err: Option<ClientError>)
      modifies this
      ensures outcome.DialFailed? ==> err == Some(ConnectionError) && unchanged(this)
      ensures outcome.Dialed? ==> err == None && connected && !closed && sent == [] && incoming == outcome.peer
    {
      if outcome.DialFailed? {
        return Some(ConnectionError);
      }
      connected, closed := true, false;
      sent, incoming := [], outcome.peer;
      return None;
    }

    /** Writes header then body in one buffer; a short write is an error. */
    method SendPacket(packet: Packet, w: WriteOutcome) returns (err: Option<ClientError>)
      requires connected
      modifies this`sent
      ensures sent == old(sent) + Transferred(FrameBytes(packet), WriteOn(closed, w))
      ensures err == SendError(FrameBytes(packet), WriteOn(closed, w))
    {
      if closed {
        return Some(IoError);
      }
      var buf := EncodeHeader(packet.header);
      buf := buf + packet.body;
      var n := if w.count < |buf| then w.count else |buf|;
      sent := sent + buf[..n];
      if w.failed {
        return Some(IoError);
      }
      if n != |buf| {
        return Some(IncompleteIo);
      }
      return None;
    }

    /** io.ReadFull: exactly n bytes, or an error once the server has closed the connection
        with fewer left. Reading a connection this side has closed is an error. */
    method ReadFull(n: nat) returns (r: Result<seq<Byte>, ClientError>)
      requires connected
      modifies this`incoming
      ensures closed ==> r == Err(IoError) && incoming == old(incoming)
      ensures !closed && |old(incoming)| < n ==> r == Err(IoError) && incoming == []
      ensures !closed && n <= |old(incoming)| ==> r == Ok(old(incoming)[..n]) && incoming == old(incoming)[n..]
    {
      if closed {
        return Err(IoError);
      }
      if |incoming| < n {
        incoming := [];
        return Err(IoError);
      }
      r := Ok(incoming[..n]);
      incoming := incoming[n..];
    }

    /** Reads a header, checks magic and size cap, then reads exactly DataSize body bytes. */
    method RecvPacket() returns (r: Result<Packet, ClientError>)
      requires connected
      modifies this`incoming
      ensures closed ==> r == Err(IoError) && incoming == old(incoming)
      ensures !closed ==> (r, incoming) == ReceivePacket(old(incoming))
    {
      var raw := ReadFull(HeaderSize);
      if raw.Err? {
        return Err(raw.error);
      }
      var header := DecodeHeader(raw.value);
      if header.magic != PacketMagic {
        return Err(InvalidMagic);
      }
      if header.dataSize > PacketMaxDataSize {
        return Err(DataSizeTooBig);
      }
      var body := Zeros(header.dataSize);
      if header.dataSize != 0 {
        var read := ReadFull(header.dataSize);
        if read.Err? {
          return Err(read.error);
        }
        body := read.value;
      }
      assert old(incoming)[..HeaderSize] == raw.value;
      assert old(incoming)[HeaderSize..] == old(incoming)[..][HeaderSize..];
      return Ok(Packet(header, body));
    }

    /** Receives one packet and checks type, then result, then decodes respSize bytes. */
    method RecvResponse(respType: U32, respSize: nat) returns (r: Result<seq<Byte>, ClientError>)
      requires connected
      modifies this`incoming
      ensures closed ==> r == Err(IoError) && incoming == old(incoming)
      ensures !closed ==> (r, incoming) == ReceiveResponse(old(incoming), respType, respSize)
    {
      var packet := RecvPacket();
      if packet.Err? {
        return Err(packet.error);
      }
      var body := CheckResponse(packet.value, respType);
      if body.Err? {
        return Err(body.error);
      }
      return ParseFixed(body.value, respSize);
    }

    /** Sends a request of type reqType and receives the response of the same type;
        nothing is received when the send fails. */
    method SendRecv(reqType: U32, reqBody: seq<Byte>, respSize: nat, w: WriteOutcome)
      returns (r: Result<seq<Byte>, ClientError>)
      requires connected
      modifies this`sent, this`incoming
      ensures sent == old(sent) + Transferred(FrameBytes(CreatePacket(reqType, reqBody)), WriteOn(closed, w))
      ensures (r, incoming) == Exchange(old(incoming), reqType, reqBody, respSize, WriteOn(closed, w))
    {
      var err := SendPacket(CreatePacket(reqType, reqBody), w);
      if err.Some? {
        return Err(err.value);
      }
      r := RecvResponse(reqType, respSize);
    }

    /** Pings with a string of at most 131072 bytes, zero-padded; returns the reply up to
        its first zero byte. A longer input is refused before anything is sent. */
    method Ping(value: seq<Byte>, w: WriteOutcome) returns (r: Result<seq<Byte>, ClientError>)
      requires connected || |value| > PacketMaxDataSize
      modifies this`sent, this`incoming
      ensures |value| > PacketMaxDataSize ==> r == Err(KeyTooBig) && sent == old(sent) && incoming == old(incoming)
      ensures |value| <= PacketMaxDataSize ==>
        && sent == old(sent) + Transferred(FrameBytes(CreatePacket(PacketTypePing, PingRequest(value))), WriteOn(closed, w))
        && var (reply, rest) := Exchange(old(incoming), PacketTypePing, PingRequest(value), PacketMaxDataSize, WriteOn(closed, w));
           && incoming == rest
           && r == if reply.Ok? then Ok(TrimAtZero(reply.value)) else reply
    {
      if |value| > PacketMaxDataSize {
        return Err(KeyTooBig);
      }
      var req := PingRequest(value);
      var resp := SendRecv(PacketTypePing, req, PacketMaxDataSize, w);
      if resp.Err? {
        return resp;
      }
      var s := GetString(resp.value);
      return Ok(s);
    }

    /** Writes a chunk: the id must be 16 bytes and the data 65536 bytes, both checked
        before anything is sent. */
    method ChunkWrite(chunkId: seq<Byte>, data: seq<Byte>, w: WriteOutcome) returns (err: Option<ClientError>)
      requires connected || |chunkId| != GuidSize || |data| != ChunkSize
      modifies this`sent, this`incoming
      ensures |chunkId| != GuidSize ==> err == Some(InvalidChunkIdSize) && sent == old(sent) && incoming == old(incoming)
      ensures |chunkId| == GuidSize && |data| != ChunkSize ==>
                err == Some(InvalidDataSize) && sent == old(sent) && incoming == old(incoming)
      ensures |chunkId| == GuidSize && |data| == ChunkSize ==>
        && sent == old(sent) + Transferred(FrameBytes(CreatePacket(PacketTypeChunkWrite, ChunkWriteRequest(chunkId, data))), WriteOn(closed, w))
        && var (reply, rest) := Exchange(old(incoming), PacketTypeChunkWrite, ChunkWriteRequest(chunkId, data), 0, WriteOn(closed, w));
           incoming == rest && err == ErrorOf(reply)
    {
      if |chunkId| != GuidSize {
        return Some(InvalidChunkIdSize);
      }
      if |data| != ChunkSize {
        return Some(InvalidDataSize);
      }
      var req := ChunkWriteRequest(chunkId, data);
      var resp := SendRecv(PacketTypeChunkWrite, req, 0, w);
      return ErrorOf(resp);
    }

    /** Reads a chunk: a 16-byte id is required before anything is sent; the reply's
        65536-byte data block is returned as it is. */
    method ChunkRead(chunkId: seq<Byte>, w: WriteOutcome) returns (r: Result<seq<Byte>, ClientError>)
      requires connected || |chunkId| != GuidSize
      modifies this`sent, this`incoming
      ensures |chunkId| != GuidSize ==> r == Err(InvalidChunkIdSize) && sent == old(sent) && incoming == old(incoming)
      ensures |chunkId| == GuidSize ==>
        && sent == old(sent) + Transferred(FrameBytes(CreatePacket(PacketTypeChunkRead, chunkId)), WriteOn(closed, w))
        && (r, incoming) == Exchange(old(incoming), PacketTypeChunkRead, chunkId, ChunkSize, WriteOn(closed, w))
      ensures r.Ok? ==> |r.value| == ChunkSize
    {
      if |chunkId| != GuidSize {
        return Err(InvalidChunkIdSize);
      }
      r := SendRecv(PacketTypeChunkRead, chunkId, ChunkSize, w);
    }

    /** Deletes a chunk: a 16-byte id is required before anything is sent. */
    method ChunkDelete(chunkId: seq<Byte>, w: WriteOutcome) returns (err: Option<ClientError>)
      requires connected || |chunkId| != GuidSize
      modifies this`sent, this`incoming
      ensures |chunkId| != GuidSize ==> err == Some(InvalidChunkIdSize) && sent == old(sent) && incoming == old(incoming)
      ensures |chunkId| == GuidSize ==>
        && sent == old(sent) + Transferred(FrameBytes(CreatePacket(PacketTypeChunkDelete, chunkId)), WriteOn(closed, w))
        && var (reply, rest) := Exchange(old(incoming), PacketTypeChunkDelete, chunkId, 0, WriteOn(closed, w));
           incoming == rest && err == ErrorOf(reply)
    {
      if |chunkId| != GuidSize {
        return Some(InvalidChunkIdSize);
      }
      var resp := SendRecv(PacketTypeChunkDelete, chunkId, 0, w);
      return ErrorOf(resp);
    }

    /** Closes the connection if there is one; harmless otherwise. Afterwards every write
        and read on it fails. */
    method Close()
      modifies this`closed
      ensures closed == (old(closed) || connected)
    {
      if connected {
        closed := true;
      }
    }
  }
}
