// RDT segments and their wire format (RDTSegment.h, RDTSegment.cpp).

module Segments {
  import opened Prelude

  const MAX_SEG_SIZE := 1400
  const HEADER_SIZE := 6   // three bytes, one byte of padding, a 16-bit size
  const MAX_DATA_SIZE := MAX_SEG_SIZE - HEADER_SIZE

  datatype MessageType = Data | Ack | Conn | Close

  datatype Segment = Segment(sequenceNumber: byte, ackNumber: byte, kind: MessageType, payload: seq<byte>)

  function DataSegment(sequenceNumber: byte, payload: seq<byte>): Segment { Segment(sequenceNumber, 0, Data, payload) }
  function AckSegment(ackNumber: byte): Segment { Segment(0, ackNumber, Ack, []) }
  const CONN_SEGMENT := Segment(0, 0, Conn, [])
  const CLOSE_SEGMENT := Segment(4, 0, Close, [])

  function TypeCode(kind: MessageType): byte {
    match kind
    case Data => 0
    case Ack => 1
    case Conn => 2
    case Close => 3
  }

  // The header holds a raw byte; a value above 3 names no message type.
  function TypeOf(code: byte): Option<MessageType> {
    if code == 0 then Some(Data) else
    if code == 1 then Some(Ack) else
    if code == 2 then Some(Conn) else
    if code == 3 then Some(Close) else None
  }

  // ntohs
  function NetworkOrder(high: int, low: int): int { high * 256 + low }

  // The bytes of a header; htons keeps sixteen bits of the payload size. The padding byte is whatever
  // the sender's stack held.
  function Header(s: Segment, padding: byte): seq<byte> {
    var size := |s.payload| % 0x1_0000;
    [s.sequenceNumber, s.ackNumber, TypeCode(s.kind), padding, size / 256, size % 256]
  }

  function Wire(s: Segment, padding: byte): seq<byte> { Header(s, padding) + s.payload }

  // RDTSegment(span source). None stands for an unknown type and for a payload span that would run past
  // the end of the source.
  function Parse(source: seq<byte>): Option<Segment>
    requires HEADER_SIZE <= |source|
  {
    var size := NetworkOrder(source[4], source[5]);
    var kind := TypeOf(source[2]);
    if kind.None? || |source| < HEADER_SIZE + size then None
    else Some(Segment(source[0], source[1], kind.value, source[HEADER_SIZE..HEADER_SIZE + size]))
  }

  // The receive buffer after recv() has put a datagram into it: cut at MAX_SEG_SIZE, stale bytes behind.
  function ReceiveBuffer(datagram: seq<byte>, stale: seq<byte>): (buffer: seq<byte>)
    requires |stale| == MAX_SEG_SIZE
    ensures |buffer| == MAX_SEG_SIZE
  {
    if |datagram| <= MAX_SEG_SIZE then datagram + stale[|datagram|..] else datagram[..MAX_SEG_SIZE]
  }

  // memcpy and std::copy: overwrite the destination from one offset on.
  method CopyBytes(source: seq<byte>, destination: array<byte>, at: nat)
    requires at + |source| <= destination.Length
    modifies destination
    ensures destination[..] == old(destination[..at]) + source + old(destination[at + |source|..])
  {
    for i := 0 to |source|
      invariant destination[at..at + i] == source[..i]
      invariant destination[..at] == old(destination[..at])
      invariant destination[at + i..] == old(destination[at + i..])
    {
      destination[at + i] := source[i];
    }
    assert destination[..] == destination[..at] + destination[at..at + |source|] + destination[at + |source|..];
  }

  // RDTSegment::copy_to
  method CopyTo(s: Segment, padding: byte, destination: array<byte>)
    requires |Wire(s, padding)| <= destination.Length
    modifies destination
    ensures destination[..] == Wire(s, padding) + old(destination[|Wire(s, padding)|..])
  {
    var header := Header(s, padding);
    CopyBytes(header, destination, 0);
    assert destination[..HEADER_SIZE] == header;
    assert destination[HEADER_SIZE + |s.payload|..] == old(destination[HEADER_SIZE + |s.payload|..]);
    CopyBytes(s.payload, destination, HEADER_SIZE);
  }

  // RDTSegment::copy_payload_to
  method CopyPayloadTo(s: Segment, destination: array<byte>)
    requires |s.payload| <= destination.Length
    modifies destination
    ensures destination[..] == s.payload + old(destination[|s.payload|..])
  {
    CopyBytes(s.payload, destination, 0);
  }

  // The bytes of a segment: the header's fields in their places, the size in network order, and the payload.
  lemma WireBytes(s: Segment, padding: byte)
    requires |s.payload| < 0x1_0000
    ensures var bytes := Wire(s, padding);
            && |bytes| == 6 + |s.payload| && bytes[0] == s.sequenceNumber && bytes[1] == s.ackNumber
            && bytes[2] == (match s.kind case Data => 0 case Ack => 1 case Conn => 2 case Close => 3)
            && (bytes[4] as int) * 256 + bytes[5] == |s.payload| && bytes[6..] == s.payload
  {
  }

  // Parsing yields exactly the segment that the buffer starts with, if its type is known and it is all there.
  lemma ParseExact(source: seq<byte>, s: Segment)
    requires HEADER_SIZE <= |source|
    ensures Parse(source) == Some(s) <==> |s.payload| < 0x1_0000 && Wire(s, source[3]) <= source
    ensures Parse(source).Some? <==> source[2] < 4 && 6 + (source[4] as int) * 256 + source[5] <= |source|
  {
    if |s.payload| < 0x1_0000 && Wire(s, source[3]) <= source {
      assert source == Wire(s, source[3]) + source[|Wire(s, source[3])|..];
      WireRoundTrip(s, source[3], source[|Wire(s, source[3])|..]);
    }
    if Parse(source) == Some(s) {
      var size := (source[4] as int) * 256 + source[5];
      assert |s.payload| == size && size / 256 == source[4] && size % 256 == source[5];
      assert Wire(s, source[3]) == source[..HEADER_SIZE + size];
    }
  }

  // Parsing what copy_to wrote, with anything behind it, gives the segment back.
  lemma WireRoundTrip(s: Segment, padding: byte, trailing: seq<byte>)
    requires |s.payload| < 0x1_0000
    ensures Parse(Wire(s, padding) + trailing) == Some(s)
  {
    var source := Wire(s, padding) + trailing;
    assert source[HEADER_SIZE..HEADER_SIZE + |s.payload|] == s.payload;
  }

  // A segment crosses one datagram and the peer's stale 1400-byte buffer unharmed exactly when its payload
  // is at most MAX_DATA_SIZE bytes. (total size is a uint16_t; beyond it the sender's own buffer is short)
  lemma ReceiveBufferRoundTrip(s: Segment, padding: byte, stale: seq<byte>)
    requires |stale| == MAX_SEG_SIZE
    requires HEADER_SIZE + |s.payload| < 0x1_0000
    ensures Parse(ReceiveBuffer(Wire(s, padding), stale)) == Some(s) <==> |s.payload| <= MAX_DATA_SIZE
  {
    if |s.payload| <= MAX_DATA_SIZE {
      WireRoundTrip(s, padding, stale[|Wire(s, padding)|..]);
    }
  }

  // The proxy's view of a header, struct.unpack('!BBBBH', data[:6]), agrees with the endpoints'.
  lemma ProxyReadsTheSameHeader(s: Segment, padding: byte)
    requires |s.payload| < 0x1_0000
    ensures var data := Wire(s, padding);
            && data[0] == s.sequenceNumber && data[1] == s.ackNumber && TypeOf(data[2]) == Some(s.kind)
            && NetworkOrder(data[4], data[5]) == |s.payload|
  {
    assert Wire(s, padding)[..HEADER_SIZE] == Header(s, padding);
  }
}
