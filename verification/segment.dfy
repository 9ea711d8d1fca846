/** The transport segment and its wire codec (backend/src/Segment.cpp): a
    20-byte header laid out as in section 3.1 of RFC 793, followed by the
    payload. */
module Segments {
  import opened Bytes
  import opened Wrappers
  import opened Checksum
  import opened Flags

  const HEADER_SIZE: nat := 20
  /** `header_length` is always 5 words; byte 12 carries it in its high nibble. */
  const HEADER_LENGTH: nat := 5
  const OFFSET_BYTE: byte := 0x50

  datatype Segment = Segment(
    srcPort: uint16,
    dstPort: uint16,
    seqNum: uint32,
    ackNum: uint32,
    flags: byte,
    window: uint16,
    checksum: uint16,
    urgentPtr: uint16,
    /** The peer address the segment is for (sending) or came from (receiving). */
    destinationIP: uint32,
    data: seq<byte>)

  /** A freshly constructed segment: checksum zero until it is encoded. */
  function NewSegment(srcPort: uint16, dstPort: uint16, seqNum: uint32, ackNum: uint32, flags: byte,
                      window: uint16, urgentPtr: uint16, destinationIP: uint32, data: seq<byte>): (s: Segment)
    ensures s.checksum == 0
    ensures s.srcPort == srcPort && s.dstPort == dstPort && s.seqNum == seqNum && s.ackNum == ackNum
    ensures s.flags == flags && s.window == window && s.urgentPtr == urgentPtr
    ensures s.destinationIP == destinationIP && s.data == data
  {
    Segment(srcPort, dstPort, seqNum, ackNum, flags, window, 0, urgentPtr, destinationIP, data)
  }

  /** The first 16 header bytes: ports, sequence and acknowledgement numbers,
      offset byte, flags and window. */
  function HeaderPrefix(s: Segment): (r: seq<byte>)
    ensures |r| == 16
  {
    BigEndian(s.srcPort, 2) + BigEndian(s.dstPort, 2) + BigEndian(s.seqNum, 4) + BigEndian(s.ackNum, 4)
    + [OFFSET_BYTE, s.flags] + BigEndian(s.window, 2)
  }

  /** The bytes after the checksum word: urgent pointer and payload. */
  function HeaderSuffix(s: Segment): (r: seq<byte>)
    ensures |r| == 2 + |s.data|
  {
    BigEndian(s.urgentPtr, 2) + s.data
  }

  /** The packet with its checksum word zeroed, over which the checksum is taken. */
  function ZeroedPacket(s: Segment): seq<byte> {
    HeaderPrefix(s) + [0, 0] + HeaderSuffix(s)
  }

  datatype Encoded = Encoded(packet: seq<byte>, stamped: Segment)

  /** `encode`: the wire bytes, and the segment with its checksum field set to
      the value written into bytes 16-17. */
  function Encode(s: Segment, sourceIP: uint32, destinationIP: uint32, protocol: byte): (r: Encoded)
    ensures |r.packet| == HEADER_SIZE + |s.data|
    ensures r.packet[0..2] == BigEndian(s.srcPort, 2)
    ensures r.packet[2..4] == BigEndian(s.dstPort, 2)
    ensures r.packet[4..8] == BigEndian(s.seqNum, 4)
    ensures r.packet[8..12] == BigEndian(s.ackNum, 4)
    ensures r.packet[12] == HEADER_LENGTH * 16 && r.packet[13] == s.flags
    ensures r.packet[14..16] == BigEndian(s.window, 2)
    ensures r.packet[16..18] == BigEndian(r.stamped.checksum, 2)
    ensures r.packet[18..20] == BigEndian(s.urgentPtr, 2)
    ensures r.packet[20..] == s.data
    ensures r.stamped == s.(checksum := r.stamped.checksum)
    ensures r.stamped.checksum + CalculateCheckSum(sourceIP, destinationIP, protocol, ZeroedPacket(s)) == 0xFFFF
  {
    var c := CreateChecksum(sourceIP, destinationIP, protocol, ZeroedPacket(s));
    var packet := HeaderPrefix(s) + [c / 256, c % 256] + HeaderSuffix(s);
    BigEndian16(c);
    Encoded(packet, s.(checksum := c))
  }

  /** `decode`: null for short input or a bad checksum; otherwise the header
      fields, the payload after byte 20, and the sender's address as the
      segment's peer address. Byte 12 is never read. */
  function Decode(sourceIP: uint32, destinationIP: uint32, protocol: byte, bytes: seq<byte>): (r: Option<Segment>)
    ensures r.None? <==> |bytes| < HEADER_SIZE || !CheckChecksum(sourceIP, destinationIP, protocol, bytes)
    ensures r.Some? ==> r.value.data == bytes[HEADER_SIZE..] && r.value.destinationIP == sourceIP
    ensures r.Some? ==> r.value.flags == bytes[13]
  {
    if |bytes| < HEADER_SIZE || !CheckChecksum(sourceIP, destinationIP, protocol, bytes) then None
    else Some(Segment(
      Combine16(bytes, 0), Combine16(bytes, 2), Combine32(bytes, 4), Combine32(bytes, 8),
      bytes[13], Combine16(bytes, 14), Combine16(bytes, 16), Combine16(bytes, 18),
      sourceIP, bytes[HEADER_SIZE..]))
  }

  /** Encoding passes its own checksum test for the same addresses and protocol. */
  lemma {:induction false} EncodeChecksumValid(s: Segment, sourceIP: uint32, destinationIP: uint32, protocol: byte)
    requires HEADER_SIZE + |s.data| < 0x1_0000
    ensures CheckChecksum(sourceIP, destinationIP, protocol, Encode(s, sourceIP, destinationIP, protocol).packet)
  {
    ChecksumSound(sourceIP, destinationIP, protocol, HeaderPrefix(s), HeaderSuffix(s));
  }

  /** Round trip: decoding an encoded segment recovers every field, with the
      checksum that was written and the sender's address as peer address. */
  lemma {:induction false} DecodeEncode(s: Segment, sourceIP: uint32, destinationIP: uint32, protocol: byte)
    requires HEADER_SIZE + |s.data| < 0x1_0000
    ensures var e := Encode(s, sourceIP, destinationIP, protocol);
            Decode(sourceIP, destinationIP, protocol, e.packet) == Some(e.stamped.(destinationIP := sourceIP))
  {
    var e := Encode(s, sourceIP, destinationIP, protocol);
    EncodeChecksumValid(s, sourceIP, destinationIP, protocol);
    var b := e.packet;
    Combine16Of(b, 0, s.srcPort);
    Combine16Of(b, 2, s.dstPort);
    Combine32Of(b, 4, s.seqNum);
    Combine32Of(b, 8, s.ackNum);
    Combine16Of(b, 14, s.window);
    Combine16Of(b, 16, e.stamped.checksum);
    Combine16Of(b, 18, s.urgentPtr);
  }

  /** Two packets that differ only in byte 12 and both pass the checksum decode
      to the same segment: the header-length byte is ignored. */
  lemma {:induction false} DecodeIgnoresOffsetByte(sourceIP: uint32, destinationIP: uint32, protocol: byte, bytes: seq<byte>, x: byte)
    requires |bytes| >= HEADER_SIZE
    requires CheckChecksum(sourceIP, destinationIP, protocol, bytes)
    requires CheckChecksum(sourceIP, destinationIP, protocol, bytes[12 := x])
    ensures Decode(sourceIP, destinationIP, protocol, bytes[12 := x]) == Decode(sourceIP, destinationIP, protocol, bytes)
  {
    var b' := bytes[12 := x];
    assert b'[0..2] == bytes[0..2] && b'[2..4] == bytes[2..4] && b'[4..8] == bytes[4..8];
    assert b'[8..12] == bytes[8..12] && b'[14..16] == bytes[14..16] && b'[16..18] == bytes[16..18];
    assert b'[18..20] == bytes[18..20] && b'[HEADER_SIZE..] == bytes[HEADER_SIZE..];
  }

  /** The receive filter in front of both connection generations: a datagram
      becomes an incoming segment only if it decodes and its flag byte is not
      INVALID; the segment's peer address is the sender's. */
  function Receive(sourceIP: uint32, selfIP: uint32, protocol: byte, bytes: seq<byte>): (r: Option<Segment>)
    ensures r.Some? <==> Decode(sourceIP, selfIP, protocol, bytes).Some? && bytes[13] < 0x40
    ensures r.Some? ==> r == Decode(sourceIP, selfIP, protocol, bytes)
    ensures r.Some? ==> DecodeFlags(r.value.flags) != INVALID
  {
    match Decode(sourceIP, selfIP, protocol, bytes)
    case None => None
    case Some(seg) =>
      if DecodeFlags(seg.flags) != INVALID then Some(seg.(destinationIP := sourceIP)) else None
  }
}
