/** The DoIP generic header and frame encoding (ISO 13400-2:2012). */
module DoipFrame {
  import opened Bytes

  const PROTOCOL_VERSION: Byte := 0x02
  const HEADER_SIZE: nat := 8
  const MAX_PAYLOAD_LENGTH: nat := 0x00FF_FFFF

  const GENERIC_NACK := 0x0000
  const VEHICLE_IDENTIFICATION_REQUEST := 0x0001
  const VEHICLE_IDENTIFICATION_REQUEST_EID := 0x0002
  const VEHICLE_IDENTIFICATION_REQUEST_VIN := 0x0003
  const VEHICLE_ANNOUNCEMENT := 0x0004
  const ROUTING_ACTIVATION_REQUEST := 0x0005
  const ROUTING_ACTIVATION_RESPONSE := 0x0006
  const ALIVE_CHECK_REQUEST := 0x0007
  const ALIVE_CHECK_RESPONSE := 0x0008
  const ENTITY_STATUS_REQUEST := 0x4001
  const ENTITY_STATUS_RESPONSE := 0x4002
  const POWER_MODE_REQUEST := 0x4003
  const POWER_MODE_RESPONSE := 0x4004
  const DIAG_MESSAGE := 0x8001
  const DIAG_MESSAGE_NEGATIVE_ACK := 0x8003

  datatype Header = Header(version: Byte, inverseVersion: Byte, payloadType: nat, payloadLength: nat)

  datatype Frame = Frame(payloadType: nat, payload: seq<Byte>)

  /** A frame that can travel: 16-bit type, payload within the accepted maximum. */
  predicate Wire(f: Frame) {
    f.payloadType < U16 && |f.payload| <= MAX_PAYLOAD_LENGTH
  }

  function ParseHeader(data: seq<Byte>): Option<Header> {
    if |data| < HEADER_SIZE then None
    else Some(Header(data[0], data[1], FromBe16(data[2..4]), FromBe32(data[4..8])))
  }

  function HeaderBytes(payloadType: int, length: int): (r: seq<Byte>)
    ensures |r| == HEADER_SIZE
  {
    [PROTOCOL_VERSION, 255 - PROTOCOL_VERSION] + Be16(payloadType) + Be32(length)
  }

  function FrameBytes(payloadType: int, payload: seq<Byte>): (r: seq<Byte>)
    ensures |r| == HEADER_SIZE + |payload|
  {
    HeaderBytes(payloadType, |payload|) + payload
  }

  function Encode(f: Frame): (r: seq<Byte>)
    ensures |r| == HEADER_SIZE + |f.payload|
  {
    FrameBytes(f.payloadType, f.payload)
  }

  /** Writes a whole frame at the front of a caller's buffer; touches nothing when it does not fit. */
  method BuildFrame(out: array<Byte>, payloadType: nat, payload: seq<Byte>) returns (n: nat)
    modifies out
    ensures out.Length < HEADER_SIZE + |payload| ==> n == 0 && out[..] == old(out[..])
    ensures out.Length >= HEADER_SIZE + |payload| ==>
      n == HEADER_SIZE + |payload| &&
      out[..] == FrameBytes(payloadType, payload) + old(out[n..])
  {
    if out.Length < HEADER_SIZE + |payload| {
      return 0;
    }
    ghost var was := out[..];
    var len := |payload|;
    out[0], out[1] := PROTOCOL_VERSION, 255 - PROTOCOL_VERSION;
    out[2], out[3] := payloadType / 256 % 256, payloadType % 256;
    out[4], out[5] := len / 0x100_0000 % 256, len / 0x1_0000 % 256;
    out[6], out[7] := len / 256 % 256, len % 256;
    forall i | 0 <= i < len {
      out[HEADER_SIZE + i] := payload[i];
    }
    n := HEADER_SIZE + len;
    assert out[..HEADER_SIZE] == HeaderBytes(payloadType, len);
    assert out[HEADER_SIZE..n] == payload;
    assert out[n..] == was[n..];
    assert out[..] == out[..HEADER_SIZE] + out[HEADER_SIZE..n] + out[n..];
  }

  /** What the receiver reads back from the front of a stream that starts with a built frame. */
  lemma HeaderRoundTrip(payloadType: nat, length: nat, rest: seq<Byte>)
    requires payloadType < U16 && length < U32
    ensures ParseHeader(HeaderBytes(payloadType, length) + rest)
         == Some(Header(PROTOCOL_VERSION, 255 - PROTOCOL_VERSION, payloadType, length))
  {
    var s := HeaderBytes(payloadType, length) + rest;
    assert s[2..4] == Be16(payloadType);
    assert s[4..8] == Be32(length);
    Be16RoundTrip(payloadType);
    Be32RoundTrip(length);
  }
}
