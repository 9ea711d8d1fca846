/** The WebSocket frame of the relay server (backend/WEBSOCKET/src/
    WebSocketFrame.cpp), laid out as in section 5.2 of RFC 6455:

      byte 0     FIN RSV1 RSV2 RSV3 opcode(4)
      byte 1     MASK length-code(7)
      2 or 8     extended length, big-endian, for codes 126 and 127
      4          masking key, when present
      payload    xor-ed with key byte i mod 4 when masked

    The frame object keeps the two header bytes as packed bytes, next to the
    64-bit length, the 32-bit key and the payload. */
module WebSocketFrame {
  import opened Bytes
  import opened Wrappers

  const MSG_FRAG: byte := 0x0
  const TEXT: byte := 0x1
  const BINARY: byte := 0x2
  const CLOSED: byte := 0x8
  const PING: byte := 0x9
  const PONG: byte := 0xA

  /** `validateOpcode`: the six opcodes the server knows. */
  predicate ValidOpcode(op: int) {
    op == MSG_FRAG || op == TEXT || op == BINARY || op == CLOSED || op == PING || op == PONG
  }

  datatype Frame = Frame(finOpcode: byte, maskLength: byte, payloadLength: uint64, maskKey: uint32, payload: seq<byte>)

  // ---------------------------------------------------------------------
  // Header bytes
  // ---------------------------------------------------------------------

  function Flag(b: bool): nat {
    if b then 1 else 0
  }

  /** Byte 0 as the constructor packs it: the four flag bits (distinct, so
      or-ing them is adding them), then `|= OPCODE`, which spills into the
      flag bits for an opcode of 16 or more. */
  function FinOpcodeByte(fin: bool, rsv1: bool, rsv2: bool, rsv3: bool, opcode: byte): (r: byte)
    ensures opcode < 16 ==> r == 16 * (8 * Flag(fin) + 4 * Flag(rsv1) + 2 * Flag(rsv2) + Flag(rsv3)) + opcode
  {
    var high := 8 * Flag(fin) + 4 * Flag(rsv1) + 2 * Flag(rsv2) + Flag(rsv3);
    FlagsOr(high, opcode);
    Or(16 * high, opcode)
  }

  lemma {:induction false} FlagsOr(high: nat, opcode: byte)
    requires high < 16
    ensures Or(16 * high, opcode) < 256
    ensures opcode < 16 ==> Or(16 * high, opcode) == 16 * high + opcode
  {
    HeaderPowers();
    OrBound(16 * high, opcode, 8);
    if opcode < 16 {
      OrLow(high, opcode, 4);
    }
  }

  lemma {:induction false} HeaderPowers()
    ensures Pow2(4) == 16 && Pow2(5) == 32 && Pow2(6) == 64 && Pow2(7) == 128 && Pow2(8) == 256
  {
    Pow2Values();
  }

  /** The accessors of the two header structs, as digits of the byte's
      binary expansion; `AccessorsAreMasks` shows each is the `&` test of
      the struct. */
  predicate Fin(b: byte) { (b / 0x80) % 2 == 1 }
  predicate Rsv1(b: byte) { (b / 0x40) % 2 == 1 }
  predicate Rsv2(b: byte) { (b / 0x20) % 2 == 1 }
  predicate Rsv3(b: byte) { (b / 0x10) % 2 == 1 }
  predicate MaskBit(b: byte) { (b / 0x80) % 2 == 1 }

  function Opcode(b: byte): byte {
    b % 0x10
  }

  function PayloadCode(b: byte): byte {
    b % 0x80
  }

  /** `byte & 0x80`, `& 0x40`, `& 0x20`, `& 0x10` test the flags, `& 0x0F`
      is the opcode and `& 0x7F` the length code (also what `no_mask`
      leaves). */
  lemma {:induction false} AccessorsAreMasks(b: byte)
    ensures Fin(b) <==> And(b, 0x80) != 0
    ensures Rsv1(b) <==> And(b, 0x40) != 0
    ensures Rsv2(b) <==> And(b, 0x20) != 0
    ensures Rsv3(b) <==> And(b, 0x10) != 0
    ensures MaskBit(b) <==> And(b, 0x80) != 0
    ensures Opcode(b) == And(b, 0x0F) && PayloadCode(b) == And(b, 0x7F)
  {
    HeaderPowers();
    AndBitDiv(b, 7);
    AndBitDiv(b, 6);
    AndBitDiv(b, 5);
    AndBitDiv(b, 4);
    AndLow(b, 4);
    AndLow(b, 7);
  }

  /** The accessors read back every field packed with an opcode below 16. */
  lemma {:induction false} HeaderFields(fin: bool, rsv1: bool, rsv2: bool, rsv3: bool, opcode: byte)
    requires opcode < 16
    ensures var b := FinOpcodeByte(fin, rsv1, rsv2, rsv3, opcode);
      && Fin(b) == fin && Rsv1(b) == rsv1 && Rsv2(b) == rsv2 && Rsv3(b) == rsv3
      && Opcode(b) == opcode
  {
    HeaderDigits(FinOpcodeByte(fin, rsv1, rsv2, rsv3, opcode), Flag(fin), Flag(rsv1), Flag(rsv2), Flag(rsv3), opcode);
  }

  lemma {:induction false} HeaderDigits(b: int, f: int, r1: int, r2: int, r3: int, op: int)
    requires 0 <= f < 2 && 0 <= r1 < 2 && 0 <= r2 < 2 && 0 <= r3 < 2 && 0 <= op < 16
    requires b == 16 * (8 * f + 4 * r1 + 2 * r2 + r3) + op
    ensures (b / 128) % 2 == f && (b / 64) % 2 == r1 && (b / 32) % 2 == r2 && (b / 16) % 2 == r3
    ensures b % 16 == op
  {
  }

  /** Conversely every byte is the packing of what its accessors read. */
  lemma {:induction false} HeaderByteRepacks(b: byte)
    ensures FinOpcodeByte(Fin(b), Rsv1(b), Rsv2(b), Rsv3(b), Opcode(b)) == b
  {
    assert b % 128 == 64 * ((b / 64) % 2) + b % 64;
    assert b % 64 == 32 * ((b / 32) % 2) + b % 32;
    assert b % 32 == 16 * ((b / 16) % 2) + b % 16;
  }

  /** Byte 1 as the constructor packs it: `MASK << 7`, or-ed with the code. */
  function MaskLengthByte(mask: bool, code: byte): (r: byte)
    requires code < 128
    ensures r == 128 * Flag(mask) + code
  {
    HeaderPowers();
    OrLow(Flag(mask), code, 7);
    Or(128 * Flag(mask), code)
  }

  lemma {:induction false} MaskLengthFields(mask: bool, code: byte)
    requires code < 128
    ensures MaskBit(MaskLengthByte(mask, code)) == mask
    ensures PayloadCode(MaskLengthByte(mask, code)) == code
  {
  }

  lemma {:induction false} MaskLengthRepacks(b: byte)
    ensures MaskLengthByte(MaskBit(b), PayloadCode(b)) == b
  {
  }

  /** The 7-bit length code: the length itself up to 125, 126 for a 16-bit
      length, 127 for anything longer. */
  function LengthCode(length: uint64): (code: byte)
    ensures code <= 127
    ensures code <= 125 <==> length <= 125
    ensures code <= 125 ==> code == length
    ensures code == 126 <==> 126 <= length <= 0xFFFF
  {
    if length <= 125 then length
    else if length <= 0xFFFF then 126
    else 127
  }

  /** The constructor: both header bytes packed from their fields. */
  function NewFrame(fin: bool, rsv1: bool, rsv2: bool, rsv3: bool, opcode: byte, mask: bool,
                    payloadLength: uint64, maskKey: uint32, payload: seq<byte>): (f: Frame)
    ensures MaskBit(f.maskLength) == mask
    ensures PayloadCode(f.maskLength) == LengthCode(payloadLength)
    ensures f.payloadLength == payloadLength && f.maskKey == maskKey && f.payload == payload
  {
    MaskLengthFields(mask, LengthCode(payloadLength));
    Frame(FinOpcodeByte(fin, rsv1, rsv2, rsv3, opcode), MaskLengthByte(mask, LengthCode(payloadLength)),
          payloadLength, maskKey, payload)
  }

  /** A frame as the decoder builds it: a known opcode, the length of its
      payload, and the shortest length code for it. */
  predicate Canonical(f: Frame) {
    && ValidOpcode(Opcode(f.finOpcode))
    && f.payloadLength == |f.payload|
    && PayloadCode(f.maskLength) == LengthCode(f.payloadLength)
  }

  /** The MASK bit is set exactly when there is a key to mask with. */
  predicate MaskAgrees(f: Frame) {
    MaskBit(f.maskLength) <==> f.maskKey != 0
  }

  lemma {:induction false} NewFrameCanonical(fin: bool, rsv1: bool, rsv2: bool, rsv3: bool, opcode: byte, maskKey: uint32, payload: seq<byte>)
    requires ValidOpcode(opcode) && |payload| < TWO_TO_THE_64
    ensures var f := NewFrame(fin, rsv1, rsv2, rsv3, opcode, maskKey != 0, |payload|, maskKey, payload);
      Canonical(f) && MaskAgrees(f)
  {
    HeaderFields(fin, rsv1, rsv2, rsv3, opcode);
  }

  // ---------------------------------------------------------------------
  // Masking
  // ---------------------------------------------------------------------

  /** Byte i xor-ed with byte i mod 4 of the big-endian key. */
  function Mask(data: seq<byte>, key: uint32): (r: seq<byte>)
    ensures |r| == |data|
  {
    var k := BigEndian(key, 4);
    seq(|data|, i requires 0 <= i < |data| => XorByte(data[i], k[i % 4]))
  }

  /** Masking is its own inverse: the decoder undoes what the encoder did. */
  lemma {:induction false} MaskTwice(data: seq<byte>, key: uint32)
    ensures Mask(Mask(data, key), key) == data
  {
    var k := BigEndian(key, 4);
    forall i | 0 <= i < |data|
      ensures Mask(Mask(data, key), key)[i] == data[i]
    {
      XorInvolutive(data[i], k[i % 4]);
    }
  }

  // ---------------------------------------------------------------------
  // Encoding
  // ---------------------------------------------------------------------

  function ExtendedSize(code: byte): nat {
    if code == 126 then 2 else if code == 127 then 8 else 0
  }

  /** The extended length `encodeFrame` writes for a code: the low 16 bits,
      or all 64, of the stored length. */
  function ExtendedLength(code: byte, length: uint64): (r: seq<byte>)
    ensures |r| == ExtendedSize(code)
  {
    if code == 126 then BigEndian(length, 2)
    else if code == 127 then BigEndian(length, 8)
    else []
  }

  /** What follows the length: the key and the masked payload when the key
      is non-zero (whatever the MASK bit says), else the payload as is. */
  function Body(key: uint32, payload: seq<byte>): (r: seq<byte>)
    ensures |r| == (if key != 0 then 4 else 0) + |payload|
  {
    if key != 0 then BigEndian(key, 4) + Mask(payload, key) else payload
  }

  /** `encodeFrame`. */
  function Encode(f: Frame): (r: seq<byte>)
    ensures |r| == 2 + ExtendedSize(PayloadCode(f.maskLength)) + (if f.maskKey != 0 then 4 else 0) + |f.payload|
    ensures r[0] == f.finOpcode && r[1] == f.maskLength
  {
    var code := PayloadCode(f.maskLength);
    [f.finOpcode, f.maskLength] + ExtendedLength(code, f.payloadLength) + Body(f.maskKey, f.payload)
  }

  /** `removeMask`: no key and no MASK bit; the length code stays. */
  function RemoveMask(f: Frame): (r: Frame)
    ensures r.maskKey == 0 && !MaskBit(r.maskLength)
    ensures PayloadCode(r.maskLength) == PayloadCode(f.maskLength)
    ensures r == f.(maskKey := 0, maskLength := r.maskLength)
    ensures Canonical(f) ==> Canonical(r) && MaskAgrees(r)
  {
    var second := PayloadCode(f.maskLength);
    MaskLengthFields(false, second);
    f.(maskKey := 0, maskLength := second)
  }

  // ---------------------------------------------------------------------
  // Decoding
  // ---------------------------------------------------------------------

  /** What `decodeFrame` has read before the payload: both header bytes,
      the payload length, the key (0 when the MASK bit is clear) and the
      index where the payload starts. */
  datatype Header = Header(first: byte, second: byte, length: uint64, maskKey: uint32, start: nat)

  function HeaderSize(second: byte): nat {
    2 + ExtendedSize(PayloadCode(second)) + (if MaskBit(second) then 4 else 0)
  }

  /** The header part of `decodeFrame`: fewer than two bytes, an unknown
      opcode, or a truncated extended length or key give nothing. */
  function ParseHeader(frame: seq<byte>): (r: Option<Header>)
    ensures r.Some? <==> |frame| >= 2 && ValidOpcode(Opcode(frame[0])) && |frame| >= HeaderSize(frame[1])
    ensures r.Some? ==> r.value.first == frame[0] && r.value.second == frame[1]
    ensures r.Some? ==> r.value.start == HeaderSize(frame[1]) <= |frame|
    ensures r.Some? && !MaskBit(frame[1]) ==> r.value.maskKey == 0
  {
    if |frame| < 2 then None
    else if !ValidOpcode(Opcode(frame[0])) then None
    else
      var code := PayloadCode(frame[1]);
      var pos := 2 + ExtendedSize(code);
      if |frame| < pos then None
      else
        var length: uint64 :=
          if code == 126 then Combine16(frame, 2)
          else if code == 127 then Combine64(frame, 2)
          else code;
        if !MaskBit(frame[1]) then Some(Header(frame[0], frame[1], length, 0, pos))
        else if |frame| < pos + 4 then None
        else Some(Header(frame[0], frame[1], length, Combine32(frame, pos), pos + 4))
  }

  /** The payload: `length` bytes from `start`, unmasked when the MASK bit
      is set. */
  function Payload(frame: seq<byte>, h: Header): (r: seq<byte>)
    requires h.start + h.length <= |frame|
    ensures |r| == h.length
  {
    var data := frame[h.start..h.start + h.length];
    if MaskBit(h.second) then Mask(data, h.maskKey) else data
  }

  /** The frame `decodeFrame` constructs from what it read. */
  function Assemble(h: Header, payload: seq<byte>): (f: Frame)
    requires |payload| == h.length
    ensures f.payloadLength == h.length && f.maskKey == h.maskKey && f.payload == payload
    ensures MaskBit(f.maskLength) == MaskBit(h.second)
    ensures f.finOpcode == h.first
    ensures ValidOpcode(Opcode(h.first)) ==> Canonical(f)
  {
    HeaderByteRepacks(h.first);
    NewFrame(Fin(h.first), Rsv1(h.first), Rsv2(h.first), Rsv3(h.first), Opcode(h.first), MaskBit(h.second),
             h.length, h.maskKey, payload)
  }

  /** `decodeFrame`, with the final size test done on unbounded integers. */
  function Decode(frame: seq<byte>): (r: Option<Frame>)
    ensures |frame| < 2 ==> r.None?
    ensures |frame| >= 2 && !ValidOpcode(Opcode(frame[0])) ==> r.None?
    ensures r.Some? ==> Canonical(r.value) && r.value.finOpcode == frame[0]
    ensures r.Some? ==> MaskBit(r.value.maskLength) == MaskBit(frame[1])
  {
    match ParseHeader(frame)
    case None => None
    case Some(h) => if |frame| < h.start + h.length then None else Some(Assemble(h, Payload(frame, h)))
  }

  /** The number of bytes a frame occupies, as its header announces it. */
  function FrameEnd(frame: seq<byte>): nat
    requires ParseHeader(frame).Some?
  {
    ParseHeader(frame).value.start + ParseHeader(frame).value.length
  }

  // ---------------------------------------------------------------------
  // Properties of the decoder
  // ---------------------------------------------------------------------

  /** The header is read from the first `start` bytes alone: a longer input
      gives the same header. */
  lemma {:induction false} HeaderExtends(a: seq<byte>, t: seq<byte>)
    requires ParseHeader(a).Some?
    ensures ParseHeader(a + t) == ParseHeader(a)
  {
    var b := a + t;
    var start := ParseHeader(a).value.start;
    assert b[..start] == a[..start];
    HeaderOfPrefix(a, start);
    HeaderOfPrefix(b, start);
  }

  /** The header depends only on the bytes it covers. */
  lemma {:induction false} HeaderOfPrefix(a: seq<byte>, k: nat)
    requires ParseHeader(a).Some? && ParseHeader(a).value.start <= k <= |a|
    ensures ParseHeader(a[..k]) == ParseHeader(a)
  {
    var p := a[..k];
    var code := PayloadCode(a[1]);
    var pos := 2 + ExtendedSize(code);
    assert p[0] == a[0] && p[1] == a[1];
    assert p[2..pos] == a[2..pos];
    if MaskBit(a[1]) {
      assert p[pos..pos + 4] == a[pos..pos + 4];
    }
  }

  /** A prefix shorter than the header has no header. */
  lemma {:induction false} HeaderTruncated(a: seq<byte>, k: nat)
    requires ParseHeader(a).Some? && k < ParseHeader(a).value.start
    ensures ParseHeader(a[..k]).None?
  {
    if k >= 2 {
      assert a[..k][0] == a[0] && a[..k][1] == a[1];
    }
  }

  /** Bytes after the announced end of a frame are ignored. */
  lemma {:induction false} TrailingIgnored(a: seq<byte>, t: seq<byte>)
    requires Decode(a).Some?
    ensures Decode(a + t) == Decode(a)
  {
    var h := ParseHeader(a).value;
    HeaderExtends(a, t);
    assert (a + t)[h.start..h.start + h.length] == a[h.start..h.start + h.length];
    assert Payload(a + t, h) == Payload(a, h);
  }

  /** Every input cut short of the announced end is rejected. */
  lemma {:induction false} TruncatedRejected(a: seq<byte>, k: nat)
    requires ParseHeader(a).Some? && k <= |a| && k < FrameEnd(a)
    ensures Decode(a[..k]).None?
  {
    var h := ParseHeader(a).value;
    if k >= h.start {
      HeaderOfPrefix(a, k);
    } else {
      HeaderTruncated(a, k);
    }
  }

  // ---------------------------------------------------------------------
  // Round trip
  // ---------------------------------------------------------------------

  /** The extended length field reads back the length it was written from. */
  lemma {:induction false} ExtendedLengthReads(f: Frame, rest: seq<byte>)
    requires Canonical(f)
    ensures var e := Encode(f) + rest; var code := PayloadCode(f.maskLength);
      && 2 + ExtendedSize(code) <= |e|
      && (code == 126 ==> Combine16(e, 2) == f.payloadLength)
      && (code == 127 ==> Combine64(e, 2) == f.payloadLength)
      && (code < 126 ==> code == f.payloadLength)
  {
    var e := Encode(f) + rest;
    var code := PayloadCode(f.maskLength);
    var ext := ExtendedLength(code, f.payloadLength);
    assert e == [f.finOpcode, f.maskLength] + ext + (Body(f.maskKey, f.payload) + rest);
    if code == 126 {
      assert e[2..4] == ext;
      Combine16Of(e, 2, f.payloadLength);
    } else if code == 127 {
      assert e[2..10] == ext;
      Combine64Of(e, 2, f.payloadLength);
    }
  }

  /** The header of an encoded frame reads back its fields. */
  lemma {:induction false} HeaderRoundTrip(f: Frame, rest: seq<byte>)
    requires Canonical(f) && MaskAgrees(f)
    ensures var pos := 2 + ExtendedSize(PayloadCode(f.maskLength));
      ParseHeader(Encode(f) + rest)
        == Some(Header(f.finOpcode, f.maskLength, f.payloadLength, f.maskKey,
                       pos + (if f.maskKey != 0 then 4 else 0)))
  {
    var e := Encode(f) + rest;
    var code := PayloadCode(f.maskLength);
    var pos := 2 + ExtendedSize(code);
    ExtendedLengthReads(f, rest);
    if f.maskKey != 0 {
      var ext := ExtendedLength(code, f.payloadLength);
      assert e == [f.finOpcode, f.maskLength] + ext + BigEndian(f.maskKey, 4) + (Mask(f.payload, f.maskKey) + rest);
      assert e[pos..pos + 4] == BigEndian(f.maskKey, 4);
      Combine32Of(e, pos, f.maskKey);
    }
  }

  /** The payload of an encoded frame reads back, unmasked. */
  lemma {:induction false} PayloadRoundTrip(f: Frame, rest: seq<byte>)
    requires Canonical(f) && MaskAgrees(f)
    ensures ParseHeader(Encode(f) + rest).Some?
    ensures var e := Encode(f) + rest; var h := ParseHeader(e).value;
      h.start + h.length <= |e| && Payload(e, h) == f.payload
  {
    var e := Encode(f) + rest;
    HeaderRoundTrip(f, rest);
    var h := ParseHeader(e).value;
    var code := PayloadCode(f.maskLength);
    var ext := ExtendedLength(code, f.payloadLength);
    var body := Body(f.maskKey, f.payload);
    assert e == [f.finOpcode, f.maskLength] + ext + body + rest;
    if f.maskKey != 0 {
      assert e[h.start..h.start + h.length] == Mask(f.payload, f.maskKey);
      MaskTwice(f.payload, f.maskKey);
    } else {
      assert e[h.start..h.start + h.length] == f.payload;
    }
  }

  /** Decoding an encoded frame gives it back, whatever follows it; the
      frame ends exactly where the encoding does. */
  lemma {:induction false} RoundTrip(f: Frame, rest: seq<byte>)
    requires Canonical(f) && MaskAgrees(f)
    ensures Decode(Encode(f) + rest) == Some(f)
    ensures ParseHeader(Encode(f)).Some? && FrameEnd(Encode(f)) == |Encode(f)|
  {
    var e := Encode(f) + rest;
    PayloadRoundTrip(f, rest);
    HeaderRoundTrip(f, rest);
    HeaderRoundTrip(f, []);
    assert Encode(f) + [] == Encode(f);
    var h := ParseHeader(e).value;
    HeaderByteRepacks(f.finOpcode);
    MaskLengthRepacks(f.maskLength);
    assert Assemble(h, f.payload) == f;
  }

  /** Every proper prefix of an encoded frame is rejected. */
  lemma {:induction false} EncodedTruncated(f: Frame, k: nat)
    requires Canonical(f) && MaskAgrees(f) && k < |Encode(f)|
    ensures Decode(Encode(f)[..k]).None?
  {
    RoundTrip(f, []);
    TruncatedRejected(Encode(f), k);
  }

  /** The relay path: a decoded client frame, unmasked, re-encodes to bytes
      that decode to it. */
  lemma {:induction false} RelayRoundTrip(frame: seq<byte>)
    requires Decode(frame).Some?
    ensures var f := RemoveMask(Decode(frame).value);
      Decode(Encode(f)) == Some(f) && Encode(f)[2 + ExtendedSize(PayloadCode(f.maskLength))..] == f.payload
  {
    var f := RemoveMask(Decode(frame).value);
    RoundTrip(f, []);
    assert Encode(f) + [] == Encode(f);
  }

  // ---------------------------------------------------------------------
  // The final size test as written
  // ---------------------------------------------------------------------

  /** How `decodeFrame` as written ends: a frame, null, or a payload range
      past the end of the input (undefined behaviour). */
  datatype Outcome = Decoded(frame: Frame) | Rejected | OutOfRange

  /** `decodeFrame` as written: `frame.size() < pos + payloadLength` is
      computed in 64-bit unsigned arithmetic, so a length near 2^64 wraps
      the sum below the input size and passes the test. */
  function DecodeAsWritten(frame: seq<byte>): (r: Outcome)
    ensures r.OutOfRange? ==> ParseHeader(frame).Some? && ParseHeader(frame).value.length >= TWO_TO_THE_64 - 14
  {
    match ParseHeader(frame)
    case None => Rejected
    case Some(h) =>
      if |frame| < Wrap64(h.start + h.length) then Rejected
      else if |frame| < h.start + h.length then OutOfRange
      else Decoded(Assemble(h, Payload(frame, h)))
  }

  /** A BINARY frame announcing a 64-bit length of 2^64 - 1 with no payload:
      the wrapped sum is 9, the input has 10 bytes, and the payload range
      runs far past the end. The corrected decoder rejects it. */
  lemma {:induction false} HugeLengthWraps()
    ensures var frame := [0x82, 0x7F, 0xFF, 0xFF, 0xFF, 0xFF, 0xFF, 0xFF, 0xFF, 0xFF];
      DecodeAsWritten(frame) == OutOfRange && Decode(frame).None?
  {
    var frame: seq<byte> := [0x82, 0x7F, 0xFF, 0xFF, 0xFF, 0xFF, 0xFF, 0xFF, 0xFF, 0xFF];
    AllOnes(frame[2..10]);
    Pow256Values();
    assert Combine64(frame, 2) == TWO_TO_THE_64 - 1;
    assert ParseHeader(frame) == Some(Header(0x82, 0x7F, TWO_TO_THE_64 - 1, 0, 10));
    assert Wrap64(10 + (TWO_TO_THE_64 - 1)) == 9;
  }

  lemma {:induction false} AllOnes(s: seq<byte>)
    requires forall i :: 0 <= i < |s| ==> s[i] == 0xFF
    ensures FromBigEndian(s) == Pow256(|s|) - 1
  {
    if |s| > 0 {
      AllOnes(s[..|s| - 1]);
    }
  }

  /** Everywhere else the decoder as written agrees with the corrected one. */
  lemma {:induction false} AsWrittenAgrees(frame: seq<byte>)
    ensures DecodeAsWritten(frame).Decoded? ==> Decode(frame) == Some(DecodeAsWritten(frame).frame)
    ensures DecodeAsWritten(frame).Rejected? ==> Decode(frame).None?
    ensures Decode(frame).Some? ==> DecodeAsWritten(frame) == Decoded(Decode(frame).value)
    ensures ParseHeader(frame).Some? && ParseHeader(frame).value.length < TWO_TO_THE_64 - 14
      ==> !DecodeAsWritten(frame).OutOfRange?
  {
    match ParseHeader(frame)
    case None =>
    case Some(h) =>
      if h.start + h.length < TWO_TO_THE_64 {
        assert Wrap64(h.start + h.length) == h.start + h.length;
      }
  }
}
