/** The VIM message packet of the C++ relay (backend/VIM-MESSAGE/src/
    VIMPacket.cpp): three fixed big-endian layouts behind a one-byte type.

      type 1, 2  message       [type] ++ BE32(userId) ++ BE16(msgId) ++ data
      type 3     user request  [type] ++ BE32(ip) ++ BE16(port)
      type 4     confirmation  [type] ++ BE32(ip) ++ BE16(port) ++ BE32(userId) */
module VimPacket {
  import opened Bytes
  import opened Wrappers

  const HEADER_SIZE: nat := 7
  const USER_CONFIRMATION_SIZE: nat := 11

  const SEND_MESSAGE: byte := 1
  const RECEIVE_MESSAGE: byte := 2
  const USER_CREATION: byte := 3
  const USER_CONFIRMATION: byte := 4

  /** A decoded packet; the fields a form does not carry keep their default
      of zero (or no data). */
  datatype Packet = Packet(kind: byte, userId: uint32, msgId: uint16, ip: uint32, port: uint16, msgData: seq<byte>)

  /** The three constructors of the packet class. */
  function MessagePacket(kind: byte, userId: uint32, msgId: uint16, data: seq<byte>): (p: Packet)
    ensures p.ip == 0 && p.port == 0
  {
    Packet(kind, userId, msgId, 0, 0, data)
  }

  function UserPacket(kind: byte, ip: uint32, port: uint16): (p: Packet)
    ensures p.userId == 0 && p.msgId == 0 && p.msgData == []
  {
    Packet(kind, 0, 0, ip, port, [])
  }

  function ConfirmationPacket(kind: byte, ip: uint32, port: uint16, userId: uint32): (p: Packet)
    ensures p.msgId == 0 && p.msgData == []
  {
    Packet(kind, userId, 0, ip, port, [])
  }

  // ---------------------------------------------------------------------
  // createPacket
  // ---------------------------------------------------------------------

  /** The message form: the header, then the data as given. */
  function CreateMessage(kind: byte, userId: uint32, msgId: uint16, data: seq<byte>): (r: seq<byte>)
    ensures |r| == HEADER_SIZE + |data| && r[0] == kind && r[HEADER_SIZE..] == data
  {
    [kind] + BigEndian(userId, 4) + BigEndian(msgId, 2) + data
  }

  /** The user-request form: always seven bytes. */
  function CreateUser(kind: byte, ip: uint32, port: uint16): (r: seq<byte>)
    ensures |r| == HEADER_SIZE && r[0] == kind
  {
    [kind] + BigEndian(ip, 4) + BigEndian(port, 2)
  }

  /** The confirmation form: the user-request form followed by the user id,
      always eleven bytes. */
  function CreateConfirmation(kind: byte, ip: uint32, port: uint16, userId: uint32): (r: seq<byte>)
    ensures |r| == USER_CONFIRMATION_SIZE && r[..HEADER_SIZE] == CreateUser(kind, ip, port)
  {
    CreateUser(kind, ip, port) + BigEndian(userId, 4)
  }

  // ---------------------------------------------------------------------
  // decodePacket
  // ---------------------------------------------------------------------

  /** The message decoder with the length check it needs: a message packet
      shorter than its header is rejected. */
  function DecodeMessage(p: seq<byte>): (r: Option<Packet>)
    ensures r.Some? <==> |p| >= HEADER_SIZE
  {
    if |p| < HEADER_SIZE then None
    else Some(MessagePacket(p[0], Combine32(p, 1), Combine16(p, 5), p[HEADER_SIZE..]))
  }

  /** The user-request decoder: at least seven bytes; more are ignored. */
  function DecodeUserCreation(p: seq<byte>): (r: Option<Packet>)
    ensures r.Some? <==> |p| >= HEADER_SIZE
  {
    if |p| < HEADER_SIZE then None
    else Some(UserPacket(p[0], Combine32(p, 1), Combine16(p, 5)))
  }

  /** The confirmation decoder: at least eleven bytes; more are ignored. */
  function DecodeUserConfirmation(p: seq<byte>): (r: Option<Packet>)
    ensures r.Some? <==> |p| >= USER_CONFIRMATION_SIZE
  {
    if |p| < USER_CONFIRMATION_SIZE then None
    else Some(ConfirmationPacket(p[0], Combine32(p, 1), Combine16(p, 5), Combine32(p, 7)))
  }

  /** The packets `decodePacket` accepts: a known type and at least the
      bytes its form needs. */
  predicate Accepted(p: seq<byte>) {
    && |p| > 0
    && (|| ((p[0] == SEND_MESSAGE || p[0] == RECEIVE_MESSAGE) && |p| >= HEADER_SIZE)
        || (p[0] == USER_CREATION && |p| >= HEADER_SIZE)
        || (p[0] == USER_CONFIRMATION && |p| >= USER_CONFIRMATION_SIZE))
  }

  /** `decodePacket`: nothing from an empty packet; otherwise dispatch on the
      type byte, 1 and 2 to the message form, 3 to the user request, 4 to
      the confirmation, anything else to nothing. */
  function DecodePacket(p: seq<byte>): (r: Option<Packet>)
    ensures |p| == 0 ==> r.None?
    ensures r.Some? ==> 1 <= p[0] <= 4 && r.value.kind == p[0]
    ensures r.Some? <==> Accepted(p)
  {
    if |p| == 0 then None
    else if p[0] == SEND_MESSAGE || p[0] == RECEIVE_MESSAGE then DecodeMessage(p)
    else if p[0] == USER_CREATION then DecodeUserCreation(p)
    else if p[0] == USER_CONFIRMATION then DecodeUserConfirmation(p)
    else None
  }

  // ---------------------------------------------------------------------
  // The decoder as written
  // ---------------------------------------------------------------------

  /** The outcome of a decoder that may read outside the packet: a packet,
      a rejection, or the first index it reads past the end. */
  datatype Read = Decoded(packet: Packet) | Rejected | ReadsPast(index: nat)

  /** `decodeMsgPacket` as written: it reads bytes 1 to 6 without checking
      the length, so a message packet shorter than seven bytes is read past
      its end, first at index |p|. */
  function DecodeMessageAsWritten(p: seq<byte>): (r: Read)
    requires |p| > 0
    ensures |p| < HEADER_SIZE <==> r.ReadsPast?
    ensures r.ReadsPast? ==> r.index == |p|
  {
    if |p| < HEADER_SIZE then ReadsPast(|p|)
    else Decoded(MessagePacket(p[0], Combine32(p, 1), Combine16(p, 5), p[HEADER_SIZE..]))
  }

  /** `decodePacket` as written, over `DecodeMessageAsWritten`. */
  function DecodePacketAsWritten(p: seq<byte>): (r: Read)
    ensures r.ReadsPast? <==> |p| > 0 && (p[0] == SEND_MESSAGE || p[0] == RECEIVE_MESSAGE) && |p| < HEADER_SIZE
  {
    if |p| == 0 then Rejected
    else if p[0] == SEND_MESSAGE || p[0] == RECEIVE_MESSAGE then DecodeMessageAsWritten(p)
    else match DecodePacket(p)
      case Some(x) => Decoded(x)
      case None => Rejected
  }

  /** The packet [1]: the type says message, and the decoder reads index 1 of
      a one-byte packet. */
  lemma {:induction false} ShortMessageReadsPast()
    ensures DecodePacketAsWritten([SEND_MESSAGE]) == ReadsPast(1)
    ensures DecodePacket([SEND_MESSAGE]) == None
  {
  }

  /** Wherever the decoder as written stays inside the packet it agrees with
      `DecodePacket`; where it reads past the end, `DecodePacket` rejects. */
  lemma {:induction false} AsWrittenAgrees(p: seq<byte>)
    ensures var w := DecodePacketAsWritten(p);
      && (w.Decoded? <==> DecodePacket(p).Some?)
      && (w.Decoded? ==> DecodePacket(p) == Some(w.packet))
      && (w.ReadsPast? ==> DecodePacket(p).None?)
  {
  }

  // ---------------------------------------------------------------------
  // Round trips
  // ---------------------------------------------------------------------

  /** A message packet decodes to its type, user id, message id and data,
      empty data included. */
  lemma {:induction false} MessageRoundTrip(kind: byte, userId: uint32, msgId: uint16, data: seq<byte>)
    requires kind == SEND_MESSAGE || kind == RECEIVE_MESSAGE
    ensures DecodePacket(CreateMessage(kind, userId, msgId, data)) == Some(MessagePacket(kind, userId, msgId, data))
  {
    var p := CreateMessage(kind, userId, msgId, data);
    assert p[1..5] == BigEndian(userId, 4);
    assert p[5..7] == BigEndian(msgId, 2);
    Combine32Of(p, 1, userId);
    Combine16Of(p, 5, msgId);
  }

  /** A user request decodes to its type, address and port. */
  lemma {:induction false} UserRoundTrip(ip: uint32, port: uint16)
    ensures DecodePacket(CreateUser(USER_CREATION, ip, port)) == Some(UserPacket(USER_CREATION, ip, port))
  {
    var p := CreateUser(USER_CREATION, ip, port);
    assert p[1..5] == BigEndian(ip, 4);
    assert p[5..7] == BigEndian(port, 2);
    Combine32Of(p, 1, ip);
    Combine16Of(p, 5, port);
  }

  /** A confirmation decodes to its type, address, port and user id. */
  lemma {:induction false} ConfirmationRoundTrip(ip: uint32, port: uint16, userId: uint32)
    ensures DecodePacket(CreateConfirmation(USER_CONFIRMATION, ip, port, userId))
      == Some(ConfirmationPacket(USER_CONFIRMATION, ip, port, userId))
  {
    var p := CreateConfirmation(USER_CONFIRMATION, ip, port, userId);
    assert p[1..5] == BigEndian(ip, 4);
    assert p[5..7] == BigEndian(port, 2);
    assert p[7..11] == BigEndian(userId, 4);
    Combine32Of(p, 1, ip);
    Combine16Of(p, 5, port);
    Combine32Of(p, 7, userId);
  }

  /** Conversely, every packet the decoder accepts is the encoding of what it
      decoded: a message exactly, a user request or a confirmation in its
      first seven or eleven bytes. */
  lemma {:induction false} DecodedReencodes(p: seq<byte>)
    requires DecodePacket(p).Some?
    ensures var x := DecodePacket(p).value;
      && (x.kind == SEND_MESSAGE || x.kind == RECEIVE_MESSAGE ==> CreateMessage(x.kind, x.userId, x.msgId, x.msgData) == p)
      && (x.kind == USER_CREATION ==> CreateUser(x.kind, x.ip, x.port) == p[..HEADER_SIZE])
      && (x.kind == USER_CONFIRMATION ==>
            CreateConfirmation(x.kind, x.ip, x.port, x.userId) == p[..USER_CONFIRMATION_SIZE])
  {
    FromBigEndianRoundTrip(p[1..5]);
    FromBigEndianRoundTrip(p[5..7]);
    if p[0] == USER_CONFIRMATION {
      FromBigEndianRoundTrip(p[7..11]);
      assert p[..USER_CONFIRMATION_SIZE] == [p[0]] + p[1..5] + p[5..7] + p[7..11];
    } else if p[0] == USER_CREATION {
      assert p[..HEADER_SIZE] == [p[0]] + p[1..5] + p[5..7];
    } else {
      assert p == [p[0]] + p[1..5] + p[5..7] + p[HEADER_SIZE..];
    }
  }

  /** Bytes after the seven of a user request, or the eleven of a
      confirmation, do not change what is decoded. */
  lemma {:induction false} TrailingBytesIgnored(p: seq<byte>)
    requires |p| > 0 && (p[0] == USER_CREATION || p[0] == USER_CONFIRMATION)
    ensures p[0] == USER_CREATION && |p| >= HEADER_SIZE ==> DecodePacket(p) == DecodePacket(p[..HEADER_SIZE])
    ensures p[0] == USER_CONFIRMATION && |p| >= USER_CONFIRMATION_SIZE ==>
      DecodePacket(p) == DecodePacket(p[..USER_CONFIRMATION_SIZE])
  {
    if |p| >= HEADER_SIZE {
      assert p[..HEADER_SIZE][1..5] == p[1..5] && p[..HEADER_SIZE][5..7] == p[5..7];
    }
    if |p| >= USER_CONFIRMATION_SIZE {
      var q := p[..USER_CONFIRMATION_SIZE];
      assert q[1..5] == p[1..5] && q[5..7] == p[5..7] && q[7..11] == p[7..11];
    }
  }
}
