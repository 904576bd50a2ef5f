/** The UDP gateway's packet format and its three decoders (src/udpgw.rs).

    LEN(2) FLAGS(1) CONN_ID(2) [ATYP DST.ADDR DST.PORT] DATA, all numbers big-endian; the address
    has the form of section 5 of RFC 1928 and is present exactly when the DATA flag is set.
 */
module GatewayCodec {
  import opened Base

  type Bytes = seq<Byte>

  const LENGTH_FIELD: nat := 2
  const HEADER: nat := 3

  const ATYP_V4: Byte := 1
  const ATYP_DOMAIN: Byte := 3
  const ATYP_V6: Byte := 4

  const KEEPALIVE: Byte := 0x01
  const DATA: Byte := 0x02
  const CLOSE: Byte := 0x04
  const ERR: Byte := 0x20

  /** Whether `flags & bit == bit` for a one-bit mask. */
  predicate HasFlag(flags: Byte, bit: Byte)
    requires bit > 0
  {
    flags / bit % 2 == 1
  }

  datatype Address =
    | V4(octets: Bytes, port: Word)
    | V6(octets: Bytes, port: Word)
    | Domain(name: Bytes, port: Word)

  predicate ValidAddress(address: Address) {
    match address
    case V4(octets, _) => |octets| == 4
    case V6(octets, _) => |octets| == 16
    case Domain(name, _) => |name| <= 255
  }

  datatype Packet = Packet(flags: Byte, conn: Word, address: Option<Address>, data: Bytes)

  // ---------------------------------------------------------------- encoding

  function EncodeAddress(address: Address): Bytes
    requires ValidAddress(address)
  {
    match address
    case V4(octets, port) => [ATYP_V4] + octets + WordBytes(port)
    case V6(octets, port) => [ATYP_V6] + octets + WordBytes(port)
    case Domain(name, port) => [ATYP_DOMAIN, |name|] + name + WordBytes(port)
  }

  function Body(packet: Packet): Bytes
    requires packet.address.Some? ==> ValidAddress(packet.address.value)
  {
    [packet.flags] + WordBytes(packet.conn)
    + (if packet.address.Some? then EncodeAddress(packet.address.value) else [])
    + packet.data
  }

  /** What `write_to_buf` appends: the length field holds the low 16 bits of the body length. */
  function Encode(packet: Packet): Bytes
    requires packet.address.Some? ==> ValidAddress(packet.address.value)
  {
    WordBytes(|Body(packet)| % 0x1_0000) + Body(packet)
  }

  predicate WellFormed(packet: Packet) {
    && (packet.address.Some? <==> HasFlag(packet.flags, DATA))
    && (packet.address.Some? ==> ValidAddress(packet.address.value))
    && |Body(packet)| < 0x1_0000
  }

  datatype BuildError = NameTooLong | FrameTooLong

  /** A data packet for an address is well-formed, or refused because it does not fit a frame. */
  method BuildPacketFromAddress(conn: Word, address: Address, data: Bytes) returns (r: Result<Packet, BuildError>)
    requires !address.Domain? ==> ValidAddress(address)
    ensures r.Ok? ==> WellFormed(r.value) && r.value == Packet(DATA, conn, Some(address), data)
    ensures r == Err(NameTooLong) <==> !ValidAddress(address)
    ensures r == Err(FrameTooLong) <==>
      ValidAddress(address) && HEADER + |EncodeAddress(address)| + |data| > 0xFFFF
  {
    if address.Domain? && |address.name| > 255 {
      return Err(NameTooLong);
    }
    var packet := Packet(DATA, conn, Some(address), data);
    if |Encode(packet)| - LENGTH_FIELD > 0xFFFF {
      return Err(FrameTooLong);
    }
    return Ok(packet);
  }

  // ---------------------------------------------------------------- addresses

  datatype AddressParse = Short | Unsupported | Parsed(address: Address, length: nat)

  function ParsePort(bytes: Bytes, at: nat): Word
    requires at + 2 <= |bytes|
  {
    BigEndian(bytes[at], bytes[at + 1])
  }

  /** Reads an address from the front of a stream. */
  function ParseAddress(bytes: Bytes): (parse: AddressParse)
    ensures parse.Parsed? ==> parse.length <= |bytes| && ValidAddress(parse.address)
  {
    if bytes == [] then Short
    else if bytes[0] == ATYP_V4 then
      if |bytes| < 7 then Short else Parsed(V4(bytes[1..5], ParsePort(bytes, 5)), 7)
    else if bytes[0] == ATYP_V6 then
      if |bytes| < 19 then Short else Parsed(V6(bytes[1..17], ParsePort(bytes, 17)), 19)
    else if bytes[0] == ATYP_DOMAIN then
      if |bytes| < 2 then Short
      else
        var n: nat := bytes[1];
        if |bytes| < 4 + n then Short else Parsed(Domain(bytes[2..2 + n], ParsePort(bytes, 2 + n)), 4 + n)
    else Unsupported
  }

  lemma SliceOfPrefix(bytes: Bytes, n: nat, i: nat, j: nat)
    requires i <= j <= n <= |bytes|
    ensures bytes[..n][i..j] == bytes[i..j]
  {
  }

  /** The two parses, of a prefix and of the whole, agree as soon as the prefix holds the address. */
  ghost predicate LocalParse(bytes: Bytes, n: nat)
    requires n <= |bytes|
  {
    && (ParseAddress(bytes[..n]).Parsed? ==> ParseAddress(bytes) == ParseAddress(bytes[..n]))
    && (ParseAddress(bytes).Parsed? && ParseAddress(bytes).length <= n ==> ParseAddress(bytes[..n]) == ParseAddress(bytes))
  }

  lemma ParseV4Local(bytes: Bytes, n: nat)
    requires 0 < n <= |bytes| && bytes[0] == ATYP_V4
    ensures LocalParse(bytes, n)
  {
    hide BigEndian;
    if n >= 7 {
      SliceOfPrefix(bytes, n, 1, 5);
      assert bytes[..n][5] == bytes[5] && bytes[..n][6] == bytes[6];
    }
  }

  lemma ParseV6Local(bytes: Bytes, n: nat)
    requires 0 < n <= |bytes| && bytes[0] == ATYP_V6
    ensures LocalParse(bytes, n)
  {
    hide BigEndian;
    if n >= 19 {
      SliceOfPrefix(bytes, n, 1, 17);
      assert bytes[..n][17] == bytes[17] && bytes[..n][18] == bytes[18];
    }
  }

  lemma ParseDomainLocal(bytes: Bytes, n: nat)
    requires 0 < n <= |bytes| && bytes[0] == ATYP_DOMAIN
    ensures LocalParse(bytes, n)
  {
    hide BigEndian;
    if n >= 2 {
      var length: nat := bytes[1];
      assert bytes[..n][1] == bytes[1];
      if n >= 4 + length {
        SliceOfPrefix(bytes, n, 2, 2 + length);
        assert bytes[..n][2 + length] == bytes[2 + length] && bytes[..n][3 + length] == bytes[3 + length];
      }
    }
  }

  /** An address is decided by its own bytes. */
  lemma ParseAddressLocal(bytes: Bytes, n: nat)
    requires n <= |bytes|
    ensures ParseAddress(bytes[..n]).Parsed? ==> ParseAddress(bytes) == ParseAddress(bytes[..n])
    ensures ParseAddress(bytes).Parsed? && ParseAddress(bytes).length <= n ==> ParseAddress(bytes[..n]) == ParseAddress(bytes)
  {
    assert LocalParse(bytes, n) by {
      if 0 < n {
        if bytes[0] == ATYP_V4 {
          ParseV4Local(bytes, n);
        } else if bytes[0] == ATYP_V6 {
          ParseV6Local(bytes, n);
        } else if bytes[0] == ATYP_DOMAIN {
          ParseDomainLocal(bytes, n);
        }
      }
    }
    hide ParseAddress;
  }

  lemma ParseEncodedAddress(address: Address, tail: Bytes)
    requires ValidAddress(address)
    ensures ParseAddress(EncodeAddress(address) + tail) == Parsed(address, |EncodeAddress(address)|)
  {
    var bytes := EncodeAddress(address) + tail;
    match address
    case V4(octets, port) =>
      assert bytes[1..5] == octets;
      assert bytes[5..7] == WordBytes(port);
    case V6(octets, port) =>
      assert bytes[1..17] == octets;
      assert bytes[17..19] == WordBytes(port);
    case Domain(name, port) =>
      assert bytes[2..2 + |name|] == name;
      assert bytes[2 + |name|..4 + |name|] == WordBytes(port);
  }

  // ---------------------------------------------------------------- decoding

  /** Decodes a complete frame body. */
  function ParseBody(body: Bytes): Option<Packet> {
    if |body| < HEADER then None
    else
      var conn := BigEndian(body[1], body[2]);
      if !HasFlag(body[0], DATA) then Some(Packet(body[0], conn, None, body[HEADER..]))
      else
        match ParseAddress(body[HEADER..])
        case Parsed(address, length) => Some(Packet(body[0], conn, Some(address), body[HEADER + length..]))
        case _ => None
  }

  datatype Next = Wait | Invalid | Got(packet: Packet, length: nat)

  function FrameLength(buffer: Bytes): nat
    requires |buffer| >= LENGTH_FIELD
  {
    LENGTH_FIELD + BigEndian(buffer[0], buffer[1])
  }

  /** The cancellation-safe reader's view of its buffer. */
  function NextPacket(buffer: Bytes): (next: Next)
    ensures next.Got? ==> LENGTH_FIELD + HEADER <= next.length <= |buffer|
  {
    if |buffer| < LENGTH_FIELD then Wait
    else if FrameLength(buffer) < LENGTH_FIELD + HEADER then Invalid
    else if |buffer| < FrameLength(buffer) then Wait
    else
      match ParseBody(buffer[LENGTH_FIELD..FrameLength(buffer)])
      case Some(packet) => Got(packet, FrameLength(buffer))
      case None => Invalid
  }

  /** More bytes are waited for exactly until the length is there and then, unless it is too small for
      a header, as many bytes as it says. */
  lemma WaitsByLength(buffer: Bytes)
    ensures |buffer| < 2 ==> NextPacket(buffer).Wait?
    ensures |buffer| >= 2 ==>
      var high: int, low: int := buffer[0], buffer[1];
      var length := high * 256 + low;
      && (NextPacket(buffer).Wait? <==> length >= 3 && |buffer| < 2 + length)
      && (NextPacket(buffer).Got? ==> NextPacket(buffer).length == 2 + length)
  {
  }

  /** `Packet::try_from`: the packet at the front of a slice, ignoring what follows it. */
  function TryFrom(buffer: Bytes): Option<Packet> {
    if |buffer| < LENGTH_FIELD || |buffer| < FrameLength(buffer) then None
    else ParseBody(buffer[LENGTH_FIELD..FrameLength(buffer)])
  }

  /** `retrieve_from_stream`: reads field by field, checking the length field only afterwards. */
  function Retrieve(stream: Bytes): Next {
    if |stream| < LENGTH_FIELD + HEADER then Wait
    else
      var flags, conn := stream[2], BigEndian(stream[3], stream[4]);
      if !HasFlag(flags, DATA) then RetrieveData(stream, flags, conn, None, HEADER)
      else
        match ParseAddress(stream[LENGTH_FIELD + HEADER..])
        case Short => Wait
        case Unsupported => Invalid
        case Parsed(address, length) => RetrieveData(stream, flags, conn, Some(address), HEADER + length)
  }

  function RetrieveData(stream: Bytes, flags: Byte, conn: Word, address: Option<Address>, readLength: nat): Next
    requires |stream| >= LENGTH_FIELD
  {
    var end := FrameLength(stream);
    if end < LENGTH_FIELD + readLength then Invalid
    else if |stream| < end then Wait
    else Got(Packet(flags, conn, address, stream[LENGTH_FIELD + readLength..end]), end)
  }

  /** The slice decoder and the stream decoder succeed on the same inputs as the incremental one,
      with the same packet and length. */
  lemma DecodersAgree(buffer: Bytes)
    ensures TryFrom(buffer) == if NextPacket(buffer).Got? then Some(NextPacket(buffer).packet) else None
    ensures Retrieve(buffer).Got? <==> NextPacket(buffer).Got?
    ensures Retrieve(buffer).Got? ==> Retrieve(buffer) == NextPacket(buffer)
  {
    hide ParseAddress, HasFlag, BigEndian, ParseBody, Retrieve;
    if |buffer| >= LENGTH_FIELD + HEADER && LENGTH_FIELD + HEADER <= FrameLength(buffer) <= |buffer| {
      RetrieveWhole(buffer);
    } else {
      RetrieveShort(buffer);
      ShortBody(buffer);
    }
  }

  lemma ShortBody(buffer: Bytes)
    ensures |buffer| >= LENGTH_FIELD && FrameLength(buffer) < LENGTH_FIELD + HEADER && FrameLength(buffer) <= |buffer| ==>
      ParseBody(buffer[LENGTH_FIELD..FrameLength(buffer)]).None?
  {
  }

  lemma RetrieveShort(buffer: Bytes)
    requires |buffer| < LENGTH_FIELD + HEADER || !(LENGTH_FIELD + HEADER <= FrameLength(buffer) <= |buffer|)
    ensures !Retrieve(buffer).Got?
  {
    hide ParseAddress, HasFlag, BigEndian;
  }

  /** With a whole frame in the buffer, reading it field by field gives what decoding its body does. */
  lemma RetrieveWhole(buffer: Bytes)
    requires |buffer| >= LENGTH_FIELD + HEADER && LENGTH_FIELD + HEADER <= FrameLength(buffer) <= |buffer|
    ensures var end := FrameLength(buffer);
      match ParseBody(buffer[LENGTH_FIELD..end])
      case Some(packet) => Retrieve(buffer) == Got(packet, end)
      case None => !Retrieve(buffer).Got?
  {
    hide ParseAddress, HasFlag, BigEndian;
    var end := FrameLength(buffer);
    var body, rest := buffer[LENGTH_FIELD..end], buffer[LENGTH_FIELD + HEADER..];
    assert body[0] == buffer[2] && body[1] == buffer[3] && body[2] == buffer[4];
    BodyTail(buffer, end, HEADER);
    if HasFlag(buffer[2], DATA) {
      assert body[HEADER..] == rest[..|body| - HEADER];
      ParseAddressLocal(rest, |body| - HEADER);
      if ParseAddress(body[HEADER..]).Parsed? {
        BodyTail(buffer, end, HEADER + ParseAddress(body[HEADER..]).length);
      }
    }
  }

  lemma BodyTail(buffer: Bytes, end: nat, n: nat)
    requires LENGTH_FIELD + n <= end <= |buffer|
    ensures buffer[LENGTH_FIELD..end][n..] == buffer[LENGTH_FIELD + n..end]
  {
  }

  /** Decoding undoes encoding, whatever follows the packet. */
  lemma RoundTrip(packet: Packet, tail: Bytes)
    requires WellFormed(packet)
    ensures NextPacket(Encode(packet) + tail) == Got(packet, |Encode(packet)|)
  {
    var body := Body(packet);
    var buffer := Encode(packet) + tail;
    assert buffer[..LENGTH_FIELD] == WordBytes(|body|);
    assert buffer[LENGTH_FIELD..LENGTH_FIELD + |body|] == body;
    ParseEncodedBody(packet);
  }

  lemma ParseEncodedBody(packet: Packet)
    requires WellFormed(packet)
    ensures ParseBody(Body(packet)) == Some(packet)
  {
    var body := Body(packet);
    assert body[1..3] == WordBytes(packet.conn);
    if packet.address.Some? {
      var encoded := EncodeAddress(packet.address.value);
      assert body[HEADER..] == encoded + packet.data;
      ParseEncodedAddress(packet.address.value, packet.data);
      assert body[HEADER + |encoded|..] == packet.data;
    } else {
      assert body[HEADER..] == packet.data;
    }
  }

  /** A decoded packet is well-formed and re-encodes to the bytes it was read from. */
  lemma EncodeDecoded(buffer: Bytes)
    requires NextPacket(buffer).Got?
    ensures WellFormed(NextPacket(buffer).packet)
    ensures Encode(NextPacket(buffer).packet) == buffer[..NextPacket(buffer).length]
  {
    hide ParseBody, Body, WellFormed, WordBytes;
    var length := ParsePort(buffer, 0);
    var body := buffer[LENGTH_FIELD..LENGTH_FIELD + length];
    assert |body| == length && length % 0x1_0000 == length;
    EncodeParsedBody(body);
    PortBytes(buffer, 0);
    assert buffer[..LENGTH_FIELD + length] == buffer[0..LENGTH_FIELD] + body;
  }

  lemma EncodeParsedBody(body: Bytes)
    requires ParseBody(body).Some? && |body| < 0x1_0000
    ensures var packet := ParseBody(body).value;
      && WellFormed(packet)
      && (packet.address.Some? ==> ValidAddress(packet.address.value))
      && Body(packet) == body
  {
    var packet := ParseBody(body).value;
    assert WordBytes(packet.conn) == body[1..3];
    if packet.address.Some? {
      EncodeParsedAddress(body[HEADER..]);
      var length := ParseAddress(body[HEADER..]).length;
      assert body[HEADER..][..length] == body[HEADER..HEADER + length];
      assert body == [body[0]] + body[1..3] + body[HEADER..HEADER + length] + body[HEADER + length..];
    } else {
      assert body == [body[0]] + body[1..3] + [] + body[HEADER..];
    }
  }

  lemma EncodeParsedAddress(bytes: Bytes)
    requires ParseAddress(bytes).Parsed?
    ensures EncodeAddress(ParseAddress(bytes).address) == bytes[..ParseAddress(bytes).length]
  {
    if bytes[0] == ATYP_V4 {
      PortBytes(bytes, 5);
      assert bytes[..7] == [bytes[0]] + bytes[1..5] + bytes[5..7];
    } else if bytes[0] == ATYP_V6 {
      PortBytes(bytes, 17);
      assert bytes[..19] == [bytes[0]] + bytes[1..17] + bytes[17..19];
    } else {
      var n: nat := bytes[1];
      PortBytes(bytes, 2 + n);
      assert bytes[..4 + n] == [bytes[0], bytes[1]] + bytes[2..2 + n] + bytes[2 + n..4 + n];
    }
  }

  lemma PortBytes(bytes: Bytes, at: nat)
    requires at + 2 <= |bytes|
    ensures WordBytes(ParsePort(bytes, at)) == bytes[at..at + 2]
  {
    hide WordBytes, BigEndian;
    BytesOfWord(bytes[at], bytes[at + 1]);
  }
}
