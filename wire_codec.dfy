/** The chunk protocol's wire format: a 16-byte little-endian packet header followed by
    a body of DataSize bytes, the fixed-size request/response records, and the checks
    a receiver applies to what arrives. Everything here is a pure function of bytes. */
module WireCodec {
  import opened Types

  const PacketMaxDataSize: nat := 2 * 65536
  const PacketMagic: U32 := 0xCCBECCBE
  const PacketTypePing: U32 := 1
  const PacketTypeChunkWrite: U32 := 2
  const PacketTypeChunkRead: U32 := 3
  const PacketTypeChunkDelete: U32 := 4
  const ChunkSize: nat := 65536
  /** Four uint32 fields, no padding. */
  const HeaderSize: nat := 16

  datatype PacketHeader = PacketHeader(magic: U32, packetType: U32, dataSize: U32, result: U32)

  datatype Packet = Packet(header: PacketHeader, body: seq<Byte>)

  /** Every way an operation of the client can fail. */
  datatype ClientError =
    | ConnectionError                       // dialing the server failed
    | IoError                               // the connection reported an error or ended early
    | IncompleteIo                          // a write transferred fewer bytes than the buffer holds
    | InvalidMagic                          // received header with a foreign magic number
    | DataSizeTooBig                        // received header announcing more than PacketMaxDataSize
    | UnexpectedType(got: U32, expected: U32)
    | PacketFailed(code: int)               // the server's result code, read as int32
    | Truncated                             // body shorter than the response record
    | KeyTooBig                             // ping input longer than the ping buffer
    | InvalidChunkIdSize
    | InvalidDataSize

  // ---------------------------------------------------------------- uint32, little-endian

  function EncodeU32(x: U32): (b: seq<Byte>)
    ensures |b| == 4
  {
    [x % 0x100, x / 0x100 % 0x100, x / 0x1_0000 % 0x100, x / 0x100_0000]
  }

  /** Little-endian: the first byte is the lowest-order one, the last the highest.
      U32RoundTrip and U32Canonical make it the inverse of EncodeU32. */
  function DecodeU32(b: seq<Byte>): (x: U32)
    requires |b| == 4
  {
    var b0: int, b1: int, b2: int, b3: int := b[0], b[1], b[2], b[3];
    b0 + 0x100 * b1 + 0x1_0000 * b2 + 0x100_0000 * b3
  }

  lemma U32RoundTrip(x: U32)
    ensures DecodeU32(EncodeU32(x)) == x
  {
    var b := EncodeU32(x);
    assert x == x % 0x100 + 0x100 * (x / 0x100);
    assert x / 0x100 == x / 0x100 % 0x100 + 0x100 * (x / 0x1_0000);
    assert x / 0x1_0000 == x / 0x1_0000 % 0x100 + 0x100 * (x / 0x100_0000);
  }

  lemma U32Canonical(b: seq<Byte>)
    requires |b| == 4
    ensures EncodeU32(DecodeU32(b)) == b
  {
    var x := DecodeU32(b);
    var b0: int, b1: int, b2: int, b3: int := b[0], b[1], b[2], b[3];
    assert x % 0x100 == b0;
    assert x / 0x100 == b1 + 0x100 * b2 + 0x1_0000 * b3;
    assert x / 0x1_0000 == b2 + 0x100 * b3;
    assert x / 0x100_0000 == b3;
  }

  // ---------------------------------------------------------------- header

  /** Magic, Type, DataSize, Result in that order, each as four little-endian bytes. */
  function EncodeHeader(h: PacketHeader): (b: seq<Byte>)
    ensures |b| == HeaderSize
  {
    EncodeU32(h.magic) + EncodeU32(h.packetType) + EncodeU32(h.dataSize) + EncodeU32(h.result)
  }

  /** The fields start at offsets 0, 4, 8 and 12. HeaderRoundTrip and HeaderCanonical make
      it the inverse of EncodeHeader. */
  function DecodeHeader(b: seq<Byte>): (h: PacketHeader)
    requires |b| == HeaderSize
  {
    PacketHeader(DecodeU32(b[0..4]), DecodeU32(b[4..8]), DecodeU32(b[8..12]), DecodeU32(b[12..16]))
  }

  /** Decoding the 16 bytes written for a header gives back the same four fields. */
  lemma HeaderRoundTrip(h: PacketHeader)
    ensures DecodeHeader(EncodeHeader(h)) == h
  {
    var b := EncodeHeader(h);
    assert b[0..4] == EncodeU32(h.magic);
    assert b[4..8] == EncodeU32(h.packetType);
    assert b[8..12] == EncodeU32(h.dataSize);
    assert b[12..16] == EncodeU32(h.result);
    U32RoundTrip(h.magic);
    U32RoundTrip(h.packetType);
    U32RoundTrip(h.dataSize);
    U32RoundTrip(h.result);
  }

  /** Every 16-byte string is the encoding of exactly one header. */
  lemma HeaderCanonical(b: seq<Byte>)
    requires |b| == HeaderSize
    ensures EncodeHeader(DecodeHeader(b)) == b
  {
    U32Canonical(b[0..4]);
    U32Canonical(b[4..8]);
    U32Canonical(b[8..12]);
    U32Canonical(b[12..16]);
    assert b == b[0..4] + b[4..8] + b[8..12] + b[12..16];
  }

  // ---------------------------------------------------------------- packets

  /** A request packet: the protocol magic, the given type, the body length (as uint32)
      and a zero result, with the body kept as given. */
  function CreatePacket(packetType: U32, body: seq<Byte>): (p: Packet)
    ensures p.header.magic == PacketMagic && p.header.packetType == packetType && p.header.result == 0
    ensures p.header.dataSize == |body| % U32Modulus
    ensures |body| < U32Modulus ==> p.header.dataSize == |body|
    ensures p.body == body
  {
    Packet(PacketHeader(PacketMagic, packetType, |body| % U32Modulus, 0), body)
  }

  /** The bytes put on the wire for a packet: the encoded header, then the body, no gap. */
  function FrameBytes(p: Packet): (b: seq<Byte>)
    ensures |b| == HeaderSize + |p.body|
  {
    EncodeHeader(p.header) + p.body
  }

  /** Where the header fields and the body sit in a frame. */
  lemma FrameLayout(p: Packet)
    ensures var b := FrameBytes(p);
      && DecodeU32(b[0..4]) == p.header.magic
      && DecodeU32(b[4..8]) == p.header.packetType
      && DecodeU32(b[8..12]) == p.header.dataSize
      && DecodeU32(b[12..16]) == p.header.result
      && b[HeaderSize..] == p.body
  {
    var b := FrameBytes(p);
    assert b[..HeaderSize] == EncodeHeader(p.header);
    HeaderRoundTrip(p.header);
    assert b[0..4] == EncodeHeader(p.header)[0..4];
    assert b[4..8] == EncodeHeader(p.header)[4..8];
    assert b[8..12] == EncodeHeader(p.header)[8..12];
    assert b[12..16] == EncodeHeader(p.header)[12..16];
  }

  /** What receiving one packet from a byte stream yields, together with the bytes left
      in the stream. The stream holds everything the peer sends before it closes the
      connection, so a stream shorter than requested is an I/O error that drains it.
      Checks, in order: a full header; the magic; the size cap (before any body is read);
      then exactly DataSize body bytes, none read when DataSize is zero. */
  function ReceivePacket(stream: seq<Byte>): (r: (Result<Packet, ClientError>, seq<Byte>))
    ensures r.0.Ok? ==> && r.0.value.header.magic == PacketMagic
                        && r.0.value.header.dataSize <= PacketMaxDataSize
                        && |r.0.value.body| == r.0.value.header.dataSize
                        && stream == FrameBytes(r.0.value) + r.1
    ensures |stream| >= HeaderSize && DecodeHeader(stream[..HeaderSize]).magic != PacketMagic ==>
              r == (Err(InvalidMagic), stream[HeaderSize..])
    ensures |stream| >= HeaderSize && DecodeHeader(stream[..HeaderSize]).magic == PacketMagic &&
            DecodeHeader(stream[..HeaderSize]).dataSize > PacketMaxDataSize ==>
              r == (Err(DataSizeTooBig), stream[HeaderSize..])
    ensures |stream| >= HeaderSize && DecodeHeader(stream[..HeaderSize]).magic == PacketMagic &&
            0 < DecodeHeader(stream[..HeaderSize]).dataSize <= PacketMaxDataSize &&
            |stream| - HeaderSize < DecodeHeader(stream[..HeaderSize]).dataSize ==>
              r == (Err(IoError), [])
    ensures |stream| < HeaderSize ==> r == (Err(IoError), [])
  {
    if |stream| < HeaderSize then (Err(IoError), [])
    else
      var h := DecodeHeader(stream[..HeaderSize]);
      var rest := stream[HeaderSize..];
      if h.magic != PacketMagic then (Err(InvalidMagic), rest)
      else if h.dataSize > PacketMaxDataSize then (Err(DataSizeTooBig), rest)
      else if h.dataSize == 0 then
        HeaderCanonical(stream[..HeaderSize]);
        assert stream == EncodeHeader(h) + [] + rest;
        (Ok(Packet(h, [])), rest)
      else if |rest| < h.dataSize then (Err(IoError), [])
      else
        HeaderCanonical(stream[..HeaderSize]);
        assert stream == EncodeHeader(h) + rest[..h.dataSize] + rest[h.dataSize..];
        (Ok(Packet(h, rest[..h.dataSize])), rest[h.dataSize..])
  }

  /** A receiver reads back exactly the packet a sender framed, whatever follows it. */
  lemma ReceiveFramed(p: Packet, rest: seq<Byte>)
    requires p.header.magic == PacketMagic
    requires p.header.dataSize == |p.body| <= PacketMaxDataSize
    ensures ReceivePacket(FrameBytes(p) + rest) == (Ok(p), rest)
  {
    var stream := FrameBytes(p) + rest;
    assert stream[..HeaderSize] == EncodeHeader(p.header);
    HeaderRoundTrip(p.header);
    assert stream[HeaderSize..] == p.body + rest;
    assert (p.body + rest)[..|p.body|] == p.body;
    assert (p.body + rest)[|p.body|..] == rest;
  }

  /** In particular, every packet built by CreatePacket with a body within the cap. */
  lemma ReceiveCreated(packetType: U32, body: seq<Byte>, rest: seq<Byte>)
    requires |body| <= PacketMaxDataSize
    ensures ReceivePacket(FrameBytes(CreatePacket(packetType, body)) + rest) == (Ok(CreatePacket(packetType, body)), rest)
  {
    ReceiveFramed(CreatePacket(packetType, body), rest);
  }

  // ---------------------------------------------------------------- responses

  /** Go's int32(x) on a uint32: the two's-complement reading of the same 32 bits. */
  function ToInt32(x: U32): (r: int)
    ensures -0x8000_0000 <= r < 0x8000_0000
    ensures (r - x) % U32Modulus == 0
    ensures x < 0x8000_0000 ==> r == x
  {
    if x < 0x8000_0000 then x else x - U32Modulus
  }

  /** The checks on a received response packet, in the source's order: the type first,
      then the result code; only a packet passing both has its body handed on. */
  function CheckResponse(p: Packet, respType: U32): (r: Result<seq<Byte>, ClientError>)
    ensures p.header.packetType != respType ==> r == Err(UnexpectedType(p.header.packetType, respType))
    ensures p.header.packetType == respType && p.header.result != 0 ==> r == Err(PacketFailed(ToInt32(p.header.result)))
    ensures r.Ok? <==> p.header.packetType == respType && p.header.result == 0
    ensures r.Ok? ==> r.value == p.body
  {
    if p.header.packetType != respType then Err(UnexpectedType(p.header.packetType, respType))
    else if p.header.result != 0 then Err(PacketFailed(ToInt32(p.header.result)))
    else Ok(p.body)
  }

  /** Reading a fixed-size record of `size` bytes from a body, as binary.Read does:
      a shorter body fails, extra bytes are ignored, a zero-size record always succeeds. */
  function ParseFixed(body: seq<Byte>, size: nat): (r: Result<seq<Byte>, ClientError>)
    ensures r.Ok? <==> size <= |body|
    ensures r.Ok? ==> |r.value| == size && r.value == body[..size]
    ensures r.Err? ==> r.error == Truncated
  {
    if |body| < size then Err(Truncated) else Ok(body[..size])
  }

  /** One response: receive a packet, check it against the expected type, decode it. */
  function ReceiveResponse(stream: seq<Byte>, respType: U32, respSize: nat): (r: (Result<seq<Byte>, ClientError>, seq<Byte>))
    ensures r.0.Ok? ==> |r.0.value| == respSize
    ensures r.1 == ReceivePacket(stream).1
    ensures ReceivePacket(stream).0.Err? ==> r.0 == Err(ReceivePacket(stream).0.error)
    ensures ReceivePacket(stream).0.Ok? && CheckResponse(ReceivePacket(stream).0.value, respType).Err? ==>
              r.0 == Err(CheckResponse(ReceivePacket(stream).0.value, respType).error)
    ensures ReceivePacket(stream).0.Ok? && CheckResponse(ReceivePacket(stream).0.value, respType).Ok? ==>
              r.0 == ParseFixed(ReceivePacket(stream).0.value.body, respSize)
  {
    var (received, rest) := ReceivePacket(stream);
    match received
    case Err(e) => (Err(e), rest)
    case Ok(p) =>
      match CheckResponse(p, respType)
      case Err(e) => (Err(e), rest)
      case Ok(body) => (ParseFixed(body, respSize), rest)
  }

  /** A well-formed successful response of the expected type decodes to the first
      respSize bytes of its body, and fails as truncated when the body is shorter. */
  lemma ResponseAccepted(respType: U32, body: seq<Byte>, respSize: nat, rest: seq<Byte>)
    requires |body| <= PacketMaxDataSize
    ensures respSize <= |body| ==>
              ReceiveResponse(FrameBytes(Packet(PacketHeader(PacketMagic, respType, |body|, 0), body)) + rest, respType, respSize)
              == (Ok(body[..respSize]), rest)
    ensures |body| < respSize ==>
              ReceiveResponse(FrameBytes(Packet(PacketHeader(PacketMagic, respType, |body|, 0), body)) + rest, respType, respSize)
              == (Err(Truncated), rest)
  {
    ReceiveFramed(Packet(PacketHeader(PacketMagic, respType, |body|, 0), body), rest);
  }

  /** A response of another type fails with both type codes, and a response of the right
      type with a non-zero result fails with exactly that code, whatever the body holds. */
  lemma ResponseRejected(header: PacketHeader, body: seq<Byte>, respType: U32, respSize: nat, rest: seq<Byte>)
    requires header.magic == PacketMagic && header.dataSize == |body| <= PacketMaxDataSize
    requires header.packetType != respType || header.result != 0
    ensures var r := ReceiveResponse(FrameBytes(Packet(header, body)) + rest, respType, respSize);
      && r.1 == rest
      && (header.packetType != respType ==> r.0 == Err(UnexpectedType(header.packetType, respType)))
      && (header.packetType == respType ==> r.0 == Err(PacketFailed(ToInt32(header.result))))
  {
    ReceiveFramed(Packet(header, body), rest);
  }

  // ---------------------------------------------------------------- payload records

  /** The ping request buffer: the input copied to the front of a zeroed 131072-byte array. */
  function PingRequest(value: seq<Byte>): (buf: seq<Byte>)
    requires |value| <= PacketMaxDataSize
    ensures |buf| == PacketMaxDataSize
    ensures buf[..|value|] == value
    ensures forall i :: |value| <= i < PacketMaxDataSize ==> buf[i] == 0
  {
    value + Zeros(PacketMaxDataSize - |value|)
  }

  /** The chunk write request: the 16-byte id followed by the 65536-byte data block. */
  function ChunkWriteRequest(chunkId: Guid, data: seq<Byte>): (buf: seq<Byte>)
    requires |data| == ChunkSize
    ensures |buf| == GuidSize + ChunkSize
  {
    chunkId + data
  }

  /** The server's reading of a chunk write request splits it back into id and data. */
  lemma ChunkWriteRequestRoundTrip(chunkId: Guid, data: seq<Byte>)
    requires |data| == ChunkSize
    ensures ParseFixed(ChunkWriteRequest(chunkId, data), GuidSize) == Ok(chunkId)
    ensures ChunkWriteRequest(chunkId, data)[GuidSize..] == data
  {
    assert (chunkId + data)[..GuidSize] == chunkId;
  }

  // ---------------------------------------------------------------- zero-terminated strings

  /** The bytes before the first zero byte, or all of them when there is none. */
  function TrimAtZero(b: seq<Byte>): (s: seq<Byte>)
    ensures |s| <= |b| && s == b[..|s|]
    ensures forall i :: 0 <= i < |s| ==> s[i] != 0
    ensures |s| < |b| ==> b[|s|] == 0
  {
    if b == [] || b[0] == 0 then [] else [b[0]] + TrimAtZero(b[1..])
  }

  /** Those three properties pin the result down: any zero-free prefix that ends at a
      zero byte or at the end of the buffer is TrimAtZero's result. */
  lemma {:induction false} TrimAtZeroUnique(b: seq<Byte>, s: seq<Byte>)
    requires |s| <= |b| && s == b[..|s|]
    requires forall i :: 0 <= i < |s| ==> s[i] != 0
    requires |s| < |b| ==> b[|s|] == 0
    ensures TrimAtZero(b) == s
  {
    if s != [] {
      assert b[0] == s[0] != 0;
      assert s[1..] == b[1..][..|s| - 1];
      TrimAtZeroUnique(b[1..], s[1..]);
      assert s == [b[0]] + s[1..];
    }
  }

  /** A ping input free of zero bytes survives being padded into the ping buffer and
      trimmed again: an echoing server gives the caller back its own string. */
  lemma PingBufferTrimsBack(value: seq<Byte>)
    requires |value| <= PacketMaxDataSize
    requires forall i :: 0 <= i < |value| ==> value[i] != 0
    ensures TrimAtZero(PingRequest(value)) == value
  {
    TrimAtZeroUnique(PingRequest(value), value);
  }
}
