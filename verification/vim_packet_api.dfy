/** The TypeScript twin of the VIM packet (frontend/sprite-colab/src/api/
    VIMPacketApi.ts). The ids and the port handed to the packet builders
    are JavaScript numbers: NaN, an infinity or a finite value, fractions
    included. The shift operators go through ToInt32, which truncates toward
    zero and wraps modulo 2^32, so `>>` is a floor division of the signed
    32-bit value and `& 0xFF` its remainder modulo 256. Text is modelled by
    its UTF-8 bytes: the encoder and decoder calls are left out. */
module VimPacketApi {
  import opened Bytes
  import opened Wrappers
  import VimPacket

  const HEADER_SIZE: nat := 7
  const USER_CONFIRMATION_SIZE: nat := 11

  /** The packet types the class declares. */
  type PacketType = x: int | 0 <= x <= 4

  /** A decoded packet; fields a form does not carry keep the constructor's
      defaults (0, or the empty string). */
  datatype ApiPacket = ApiPacket(kind: byte, userId: int, msgId: int, ip: string, port: int, msgData: seq<byte>)

  // ---------------------------------------------------------------------
  // JavaScript integer operators
  // ---------------------------------------------------------------------

  /** ToInt32 of an integral number: its value modulo 2^32, read as a
      two's-complement 32-bit integer. */
  function ToInt32(v: int): (r: int)
    ensures -0x8000_0000 <= r < 0x8000_0000
    ensures (r - v) % TWO_TO_THE_32 == 0
    ensures 0 <= v < 0x8000_0000 ==> r == v
    ensures 0x8000_0000 <= v < TWO_TO_THE_32 ==> r == v - TWO_TO_THE_32
  {
    var m := v % TWO_TO_THE_32;
    if m >= 0x8000_0000 then m - TWO_TO_THE_32 else m
  }

  /** A JavaScript number as a caller may pass it. */
  datatype JsNumber = NotANumber | Infinity(negative: bool) | Finite(value: real)

  /** An integer as a JavaScript number. */
  function FromInt(i: int): (x: JsNumber)
    ensures x.Finite? && Truncated(x) == i
  {
    Finite(i as real)
  }

  /** `x > c`: false for NaN. */
  predicate Above(x: JsNumber, c: int) {
    match x
    case NotANumber => false
    case Infinity(negative) => !negative
    case Finite(v) => v > c as real
  }

  /** `x < c`: false for NaN. */
  predicate Below(x: JsNumber, c: int) {
    match x
    case NotANumber => false
    case Infinity(negative) => negative
    case Finite(v) => v < c as real
  }

  /** `x <= c`: false for NaN. */
  predicate AtMost(x: JsNumber, c: int) {
    match x
    case NotANumber => false
    case Infinity(negative) => negative
    case Finite(v) => v <= c as real
  }

  /** The integer ToInt32 starts from: a finite value truncated toward
      zero, and 0 for NaN and the infinities. */
  function Truncated(x: JsNumber): (r: int)
    ensures x.Finite? && x.value >= 0.0 ==> 0 <= r && r as real <= x.value < r as real + 1.0
    ensures x.Finite? && x.value < 0.0 ==> r <= 0 && r as real - 1.0 < x.value <= r as real
    ensures !x.Finite? ==> r == 0
  {
    match x
    case Finite(v) => if v >= 0.0 then v.Floor else -((-v).Floor)
    case _ => 0
  }

  /** `numberToBytes(val, size)` once ToInt32 has truncated `val` to an
      integer: byte i is `(val >> 8*(size-1-i)) & 0xFF`. */
  function NumberToBytes(v: int, size: nat): (r: seq<byte>)
    requires size <= 4
    ensures |r| == size
  {
    seq(size, i requires 0 <= i < size => (ToInt32(v) / Pow256(size - 1 - i)) % 256)
  }

  lemma {:induction false} Pow256Add(a: nat, b: nat)
    ensures Pow256(a + b) == Pow256(a) * Pow256(b)
  {
    if a > 0 {
      Pow256Add(a - 1, b);
    }
  }

  /** Byte i of a big-endian encoding, read off the integer. */
  lemma {:induction false} BigEndianAt(v: nat, n: nat, i: nat)
    requires i < n
    ensures BigEndian(v, n)[i] == (v / Pow256(n - 1 - i)) % 256
  {
    if i < n - 1 {
      BigEndianAt(v / 256, n - 1, i);
      DivDiv(v, 256, Pow256(n - 2 - i));
    }
  }

  /** Subtracting 2^32 leaves every one of the low four bytes alone. */
  lemma {:induction false} WrapKeepsByte(v: int, k: nat)
    requires k <= 3
    ensures ((v - TWO_TO_THE_32) / Pow256(k)) % 256 == (v / Pow256(k)) % 256
  {
    var d := Pow256(k);
    var e := Pow256(3 - k);
    Pow256Add(k, 4 - k);
    Pow256Values();
    assert TWO_TO_THE_32 == d * (256 * e);
    DivModUnique(v - TWO_TO_THE_32, d, v / d - 256 * e, v % d);
    DivModUnique(v / d - 256 * e, 256, v / d / 256 - e, v / d % 256);
  }

  /** `numberToBytes` is the big-endian encoding of an unsigned 32-bit
      value's low `size` bytes, whether or not ToInt32 makes it negative. */
  lemma {:induction false} NumberToBytesBigEndian(v: uint32, size: nat)
    requires size <= 4
    ensures NumberToBytes(v, size) == BigEndian(v, size)
  {
    forall i | 0 <= i < size
      ensures NumberToBytes(v, size)[i] == BigEndian(v, size)[i]
    {
      var k := size - 1 - i;
      assert NumberToBytes(v, size)[i] == (ToInt32(v) / Pow256(k)) % 256;
      BigEndianAt(v, size, i);
      if v >= 0x8000_0000 {
        WrapKeepsByte(v, k);
      }
    }
  }

  // ---------------------------------------------------------------------
  // IP strings
  // ---------------------------------------------------------------------

  /** `String.prototype.split` with a one-character separator: the pieces
      between separators, empty ones included; never an empty list. */
  function Split(s: string, sep: char): (r: seq<string>)
    ensures |r| >= 1
    ensures sep !in s ==> r == [s]
    decreases |s|
  {
    if |s| == 0 then [""]
    else
      var rest := Split(s[1..], sep);
      if s[0] == sep then [""] + rest
      else
        assert [s[0]] + s[1..] == s;
        [[s[0]] + rest[0]] + rest[1..]
  }

  /** Splitting after a piece without separators yields that piece first. */
  lemma {:induction false} SplitAfter(a: string, sep: char, rest: string)
    requires sep !in a
    ensures Split(a + [sep] + rest, sep) == [a] + Split(rest, sep)
    decreases |a|
  {
    if |a| > 0 {
      var x := a + [sep] + rest;
      assert x[0] == a[0] && x[1..] == a[1..] + [sep] + rest;
      SplitAfter(a[1..], sep, rest);
      assert [a[0]] + a[1..] == a;
    } else {
      assert (a + [sep] + rest)[1..] == rest;
    }
  }

  /** What parseInt returns: NaN or an integer. */
  datatype Number = NaN | Int(value: int)

  predicate IsSpace(c: char) {
    c == ' ' || c == '\t' || c == '\n' || c == '\r' || c == '\U{000B}' || c == '\U{000C}'
  }

  predicate IsDigit(c: char) {
    '0' as int <= c as int <= '9' as int
  }

  function TrimLeading(s: string): (r: string)
    ensures |r| <= |s| && r == s[|s| - |r|..]
    ensures |r| > 0 ==> !IsSpace(r[0])
    decreases |s|
  {
    if |s| > 0 && IsSpace(s[0]) then TrimLeading(s[1..]) else s
  }

  /** The number of decimal digits `s` starts with. */
  function DigitRun(s: string): (n: nat)
    ensures n <= |s| && forall i :: 0 <= i < n ==> IsDigit(s[i])
    ensures n < |s| ==> !IsDigit(s[n])
    decreases |s|
  {
    if |s| > 0 && IsDigit(s[0]) then 1 + DigitRun(s[1..]) else 0
  }

  function DigitsValue(s: string): nat
    requires forall i :: 0 <= i < |s| ==> IsDigit(s[i])
  {
    if |s| == 0 then 0 else DigitsValue(s[..|s| - 1]) * 10 + DigitValue(s[|s| - 1])
  }

  function DigitValue(c: char): (d: nat)
    requires IsDigit(c)
  {
    c as int - '0' as int
  }

  /** `parseInt(s, 10)`: leading white space, an optional sign, then the
      longest run of decimal digits; NaN when there are none. */
  function ParseInt(s: string): (r: Number)
    ensures r.NaN? <==> DigitRun(SignDropped(TrimLeading(s))) == 0
  {
    var t := TrimLeading(s);
    var u := SignDropped(t);
    var n := DigitRun(u);
    if n == 0 then NaN
    else
      var magnitude: int := DigitsValue(u[..n]);
      Int(if |t| > 0 && t[0] == '-' then -magnitude else magnitude)
  }

  function SignDropped(t: string): (u: string)
    ensures |u| <= |t|
  {
    if |t| > 0 && (t[0] == '-' || t[0] == '+') then t[1..] else t
  }

  /** The test `p < 0 || p > 255`: false for NaN. */
  predicate OutOfByte(n: Number) {
    n.Int? && (n.value < 0 || n.value > 255)
  }

  /** What `new Uint8Array(vals)` stores for a value that passed the test:
      NaN becomes 0. */
  function StoredByte(n: Number): (b: byte)
    requires !OutOfByte(n)
    ensures n.Int? ==> b == n.value
  {
    if n.NaN? then 0 else n.value
  }

  /** `ipToBytes`: four dot-separated parts, none parsing to a number outside
      0..255; a part that parses to NaN passes and is stored as 0. */
  function IpToBytes(ip: string): (r: Option<seq<byte>>)
    ensures r.Some? ==> |r.value| == 4
    ensures |Split(ip, '.')| != 4 ==> r.None?
    ensures r.Some? <==> |Split(ip, '.')| == 4 && forall i :: 0 <= i < 4 ==> !OutOfByte(ParseInt(Split(ip, '.')[i]))
  {
    var parts := Split(ip, '.');
    if |parts| != 4 then None
    else if exists i :: 0 <= i < 4 && OutOfByte(ParseInt(parts[i])) then None
    else Some(seq(4, i requires 0 <= i < 4 => StoredByte(ParseInt(parts[i]))))
  }

  /** The decimal text of a number, as a template literal prints it. */
  function Decimal(n: nat): (s: string)
    ensures |s| > 0 && forall i :: 0 <= i < |s| ==> IsDigit(s[i])
  {
    if n < 10 then [('0' as int + n) as char] else Decimal(n / 10) + [('0' as int + n % 10) as char]
  }

  /** Decimal text reads back as the number it prints. */
  lemma {:induction false} DecimalValue(n: nat)
    ensures DigitsValue(Decimal(n)) == n
  {
    if n >= 10 {
      var s := Decimal(n);
      assert s[..|s| - 1] == Decimal(n / 10);
      DecimalValue(n / 10);
    }
  }

  lemma {:induction false} DecimalParses(n: nat)
    ensures ParseInt(Decimal(n)) == Int(n)
  {
    ParseDigits(Decimal(n));
    DecimalValue(n);
  }

  /** A non-empty run of digits parses as its decimal value. */
  lemma {:induction false} ParseDigits(s: string)
    requires |s| > 0 && forall i :: 0 <= i < |s| ==> IsDigit(s[i])
    ensures ParseInt(s) == Int(DigitsValue(s))
  {
    DigitNotSpace(s[0]);
    assert TrimLeading(s) == s;
    assert SignDropped(s) == s;
    DigitRunAll(s);
    assert s[..|s|] == s;
  }

  lemma {:induction false} DigitNotSpace(c: char)
    requires IsDigit(c)
    ensures !IsSpace(c) && c != '-' && c != '+'
  {
  }

  lemma {:induction false} DigitRunAll(s: string)
    requires forall i :: 0 <= i < |s| ==> IsDigit(s[i])
    ensures DigitRun(s) == |s|
    decreases |s|
  {
    if |s| > 0 {
      DigitRunAll(s[1..]);
    }
  }

  lemma {:induction false} DecimalHasNoDot(n: nat)
    ensures '.' !in Decimal(n)
  {
  }

  /** The address text the decoders build: `${b1}.${b2}.${b3}.${b4}`. */
  function FormatIp(b: seq<byte>): (s: string)
    requires |b| == 4
  {
    Decimal(b[0]) + "." + Decimal(b[1]) + "." + Decimal(b[2]) + "." + Decimal(b[3])
  }

  /** The address text a decoder builds names the same four bytes again. */
  lemma {:induction false} FormatIpParses(b: seq<byte>)
    requires |b| == 4
    ensures IpToBytes(FormatIp(b)) == Some(b)
  {
    var ip := FormatIp(b);
    FormatIpSplits(b);
    forall i | 0 <= i < 4
      ensures ParseInt(Split(ip, '.')[i]) == Int(b[i])
    {
      assert Split(ip, '.')[i] == Decimal(b[i]);
      DecimalParses(b[i]);
    }
    PartsGiveBytes(ip, b);
  }

  /** The address text splits at its dots into the four decimals. */
  lemma {:induction false} FormatIpSplits(b: seq<byte>)
    requires |b| == 4
    ensures Split(FormatIp(b), '.') == [Decimal(b[0]), Decimal(b[1]), Decimal(b[2]), Decimal(b[3])]
  {
    var d0, d1, d2, d3 := Decimal(b[0]), Decimal(b[1]), Decimal(b[2]), Decimal(b[3]);
    DecimalHasNoDot(b[0]);
    DecimalHasNoDot(b[1]);
    DecimalHasNoDot(b[2]);
    DecimalHasNoDot(b[3]);
    var t2 := d2 + ['.'] + d3;
    var t1 := d1 + ['.'] + t2;
    assert FormatIp(b) == d0 + ['.'] + t1;
    SplitAfter(d2, '.', d3);
    assert Split(t2, '.') == [d2, d3];
    SplitAfter(d1, '.', t2);
    assert Split(t1, '.') == [d1, d2, d3];
    SplitAfter(d0, '.', t1);
  }

  /** Four parts that parse to the four bytes give those bytes. */
  lemma {:induction false} PartsGiveBytes(ip: string, b: seq<byte>)
    requires |b| == 4 && |Split(ip, '.')| == 4
    requires forall i :: 0 <= i < 4 ==> ParseInt(Split(ip, '.')[i]) == Int(b[i])
    ensures IpToBytes(ip) == Some(b)
  {
    assert IpToBytes(ip).value == b;
  }

  // ---------------------------------------------------------------------
  // Creating packets
  // ---------------------------------------------------------------------

  /** An id that the test `x > max || x <= 0` of `createMsgPacket` lets
      through: NaN, or a finite value above 0 and at most `max`. */
  predicate PassesIdTest(x: JsNumber, max: int) {
    x.NotANumber? || (x.Finite? && 0.0 < x.value <= max as real)
  }

  /** A port that the test `port > 0xFFFF || port < 0` of
      `createUserPacket` lets through: NaN, or a finite value in 0..0xFFFF. */
  predicate PassesPortTest(x: JsNumber) {
    x.NotANumber? || (x.Finite? && 0.0 <= x.value <= 0xFFFF as real)
  }

  /** `createMsgPacket`: undefined unless both ids pass their tests;
      otherwise the type, the two ids big-endian as the shifts compute them,
      and the data. */
  function CreateMsgPacket(kind: PacketType, userId: JsNumber, msgId: JsNumber, data: seq<byte>)
    : (r: Option<seq<byte>>)
    ensures r.Some? <==> PassesIdTest(userId, 0xFFFF_FFFF) && PassesIdTest(msgId, 0xFFFF)
    ensures r.Some? ==> |r.value| == HEADER_SIZE + |data| && r.value[0] == kind && r.value[HEADER_SIZE..] == data
  {
    if Above(userId, 0xFFFF_FFFF) || AtMost(userId, 0) then None
    else if Above(msgId, 0xFFFF) || AtMost(msgId, 0) then None
    else Some([kind] + NumberToBytes(Truncated(userId), 4) + NumberToBytes(Truncated(msgId), 2) + data)
  }

  /** `createUserPacket`: undefined for a port that fails its test or an
      address `ipToBytes` rejects; otherwise seven bytes. */
  function CreateUserPacket(kind: PacketType, ip: string, port: JsNumber): (r: Option<seq<byte>>)
    ensures r.Some? <==> PassesPortTest(port) && IpToBytes(ip).Some?
    ensures r.Some? ==> |r.value| == HEADER_SIZE && r.value[0] == kind && r.value[1..5] == IpToBytes(ip).value
  {
    if Above(port, 0xFFFF) || Below(port, 0) then None
    else match IpToBytes(ip)
      case None => None
      case Some(ipBytes) => Some([kind] + ipBytes + NumberToBytes(Truncated(port), 2))
  }

  /** Within their ranges `createMsgPacket` writes the same bytes as the
      C++ `createPacket`. */
  lemma {:induction false} CreateMsgAgreesWithNative(kind: PacketType, userId: uint32, msgId: uint16, data: seq<byte>)
    requires 1 <= userId && 1 <= msgId
    ensures CreateMsgPacket(kind, FromInt(userId), FromInt(msgId), data)
      == Some(VimPacket.CreateMessage(kind, userId, msgId, data))
  {
    NumberToBytesBigEndian(userId, 4);
    NumberToBytesBigEndian(msgId, 2);
  }

  /** `createUserPacket` given the printed form of four address bytes writes
      the same bytes as the C++ `createPacket` given their 32-bit value. */
  lemma {:induction false} CreateUserAgreesWithNative(kind: PacketType, ipBytes: seq<byte>, port: uint16)
    requires |ipBytes| == 4
    ensures CreateUserPacket(kind, FormatIp(ipBytes), FromInt(port))
      == Some(VimPacket.CreateUser(kind, Combine32(ipBytes, 0), port))
  {
    NumberToBytesBigEndian(port, 2);
    FormatIpParses(ipBytes);
    Combine32Bytes(ipBytes);
  }

  // ---------------------------------------------------------------------
  // Decoding packets
  // ---------------------------------------------------------------------

  /** How a decoder reads a user id: `(b1 << 24) | ...` as written gives the
      signed 32-bit value; the unsigned reading is what the encoder wrote. */
  datatype IdReading = Signed | Unsigned

  function ReadId(b: seq<byte>, reading: IdReading): (r: int)
    requires |b| == 4
    ensures reading == Unsigned ==> r == FromBigEndian(b)
    ensures reading == Signed ==> r == ToInt32(FromBigEndian(b))
    ensures reading == Unsigned ==> 0 <= r < TWO_TO_THE_32
  {
    FromBigEndianBound(b);
    Pow256Values();
    if reading == Signed then ToInt32(FromBigEndian(b)) else FromBigEndian(b)
  }

  /** `decodeMsgPacket`: more than seven bytes, or nothing. */
  function DecodeMsgPacket(p: seq<byte>, reading: IdReading): (r: Option<ApiPacket>)
    ensures r.Some? <==> |p| > HEADER_SIZE
  {
    if |p| <= HEADER_SIZE then None
    else Some(ApiPacket(p[0], ReadId(p[1..5], reading), FromBigEndian(p[5..7]), "", 0, p[HEADER_SIZE..]))
  }

  /** `decodeUserCreation`: exactly seven bytes, or nothing. */
  function DecodeUserCreation(p: seq<byte>): (r: Option<ApiPacket>)
    ensures r.Some? <==> |p| == HEADER_SIZE
  {
    if |p| != HEADER_SIZE then None
    else Some(ApiPacket(p[0], 0, 0, FormatIp(p[1..5]), FromBigEndian(p[5..7]), []))
  }

  /** `decodeUserConfirmation`: exactly eleven bytes, or nothing. */
  function DecodeUserConfirmation(p: seq<byte>, reading: IdReading): (r: Option<ApiPacket>)
    ensures r.Some? <==> |p| == USER_CONFIRMATION_SIZE
  {
    if |p| != USER_CONFIRMATION_SIZE then None
    else Some(ApiPacket(p[0], ReadId(p[7..11], reading), 0, FormatIp(p[1..5]), FromBigEndian(p[5..7]), []))
  }

  /** The packets the decoders accept: a known type and exactly the length
      of its form (more than the header for a message). */
  predicate Accepted(p: seq<byte>) {
    && |p| > 0
    && (|| ((p[0] == 1 || p[0] == 2) && |p| > HEADER_SIZE)
        || (p[0] == 3 && |p| == HEADER_SIZE)
        || (p[0] == 4 && |p| == USER_CONFIRMATION_SIZE))
  }

  /** `decodePacket`: dispatch on the first byte (an empty packet has none
      and matches no case). */
  function Decode(p: seq<byte>, reading: IdReading): (r: Option<ApiPacket>)
    ensures r.Some? <==> Accepted(p)
    ensures r.Some? ==> r.value.kind == p[0]
  {
    if |p| == 0 then None
    else if p[0] == 1 || p[0] == 2 then DecodeMsgPacket(p, reading)
    else if p[0] == 3 then DecodeUserCreation(p)
    else if p[0] == 4 then DecodeUserConfirmation(p, reading)
    else None
  }

  /** `decodePacket` as written: user ids read signed. */
  function DecodePacketAsWritten(p: seq<byte>): (r: Option<ApiPacket>)
    ensures r.Some? ==> |p| > 0 && 1 <= p[0] <= 4
  {
    Decode(p, Signed)
  }

  /** `decodePacket` with user ids read unsigned, as the encoder wrote them. */
  function DecodePacket(p: seq<byte>): (r: Option<ApiPacket>)
    ensures r.Some? ==> |p| > 0 && 1 <= p[0] <= 4
    ensures r.Some? ==> 0 <= r.value.userId < TWO_TO_THE_32
  {
    Decode(p, Unsigned)
  }

  /** The two readings differ only in the user id, and only when its top bit
      is set: there the signed reading is 2^32 less. */
  lemma {:induction false} ReadingsDiffer(p: seq<byte>)
    ensures DecodePacketAsWritten(p).Some? <==> DecodePacket(p).Some?
    ensures DecodePacket(p).Some? ==>
      var u := DecodePacket(p).value; var s := DecodePacketAsWritten(p).value;
      && s == u.(userId := s.userId)
      && s.userId == (if u.userId >= 0x8000_0000 then u.userId - TWO_TO_THE_32 else u.userId)
  {
  }

  // ---------------------------------------------------------------------
  // Round trips
  // ---------------------------------------------------------------------

  /** A created message holds its type, then the ids truncated toward zero
      (0 for NaN) big-endian, then the data. */
  lemma {:induction false} MsgLayout(kind: PacketType, userId: JsNumber, msgId: JsNumber, data: seq<byte>)
    requires PassesIdTest(userId, 0xFFFF_FFFF) && PassesIdTest(msgId, 0xFFFF)
    ensures var p := CreateMsgPacket(kind, userId, msgId, data).value;
      && p[0] == kind && FromBigEndian(p[1..5]) == Truncated(userId) && FromBigEndian(p[5..7]) == Truncated(msgId)
      && p[HEADER_SIZE..] == data
  {
    var p := CreateMsgPacket(kind, userId, msgId, data).value;
    var u, m := Truncated(userId), Truncated(msgId);
    Pow256Values();
    NumberToBytesBigEndian(u, 4);
    NumberToBytesBigEndian(m, 2);
    assert p[1..5] == BigEndian(u, 4);
    assert p[5..7] == BigEndian(m, 2);
    BigEndianRoundTripInRange(u, 4);
    BigEndianRoundTripInRange(m, 2);
  }

  /** A message with data decodes to its type, ids and data when user ids
      are read unsigned, for every id `createMsgPacket` accepts; an id comes
      back truncated toward zero, and NaN comes back as 0. */
  lemma {:induction false} MsgRoundTrip(kind: PacketType, userId: JsNumber, msgId: JsNumber, data: seq<byte>)
    requires kind == 1 || kind == 2
    requires PassesIdTest(userId, 0xFFFF_FFFF) && PassesIdTest(msgId, 0xFFFF) && |data| > 0
    ensures DecodePacket(CreateMsgPacket(kind, userId, msgId, data).value)
      == Some(ApiPacket(kind, Truncated(userId), Truncated(msgId), "", 0, data))
  {
    MsgLayout(kind, userId, msgId, data);
  }

  /** An integral id comes back as itself. */
  lemma {:induction false} IntegralIdsRoundTrip(kind: PacketType, userId: int, msgId: int, data: seq<byte>)
    requires kind == 1 || kind == 2
    requires 1 <= userId <= 0xFFFF_FFFF && 1 <= msgId <= 0xFFFF && |data| > 0
    ensures DecodePacket(CreateMsgPacket(kind, FromInt(userId), FromInt(msgId), data).value)
      == Some(ApiPacket(kind, userId, msgId, "", 0, data))
  {
    MsgRoundTrip(kind, FromInt(userId), FromInt(msgId), data);
  }

  /** The id tests let NaN and fractions through: a user id of 0.5 and a
      message id of NaN both make a message, and both come back as 0. */
  lemma {:induction false} NonIntegralIdsAccepted()
    ensures var r := CreateMsgPacket(1, Finite(0.5), NotANumber, [0x61]);
      && r.Some? && DecodePacket(r.value) == Some(ApiPacket(1, 0, 0, "", 0, [0x61]))
  {
    MsgRoundTrip(1, Finite(0.5), NotANumber, [0x61]);
  }

  /** As written, the same holds only for user ids below 2^31. */
  lemma {:induction false} MsgRoundTripAsWritten(kind: PacketType, userId: JsNumber, msgId: JsNumber, data: seq<byte>)
    requires kind == 1 || kind == 2
    requires PassesIdTest(userId, 0xFFFF_FFFF) && PassesIdTest(msgId, 0xFFFF) && |data| > 0
    requires Truncated(userId) < 0x8000_0000
    ensures DecodePacketAsWritten(CreateMsgPacket(kind, userId, msgId, data).value)
      == Some(ApiPacket(kind, Truncated(userId), Truncated(msgId), "", 0, data))
  {
    MsgLayout(kind, userId, msgId, data);
  }

  /** The user id 0x80000000, which `createMsgPacket` accepts, comes back as
      -2^31 from the decoder as written. */
  lemma {:induction false} HighUserIdTurnsNegative()
    ensures var p := CreateMsgPacket(1, FromInt(0x8000_0000), FromInt(1), [0x61]).value;
      DecodePacketAsWritten(p).value.userId == -0x8000_0000
  {
    MsgLayout(1, FromInt(0x8000_0000), FromInt(1), [0x61]);
  }

  /** An empty message is created but never decoded: the message decoder
      wants more than seven bytes (the C++ decoder takes seven). */
  lemma {:induction false} EmptyMessageRejected(kind: PacketType, userId: JsNumber, msgId: JsNumber)
    requires kind == 1 || kind == 2
    requires PassesIdTest(userId, 0xFFFF_FFFF) && PassesIdTest(msgId, 0xFFFF)
    ensures var p := CreateMsgPacket(kind, userId, msgId, []).value;
      && DecodePacket(p).None? && DecodePacketAsWritten(p).None?
      && VimPacket.DecodePacket(p).Some?
  {
  }

  /** A user request decodes to its type and its port truncated toward zero
      (0 for NaN), with an address text that names the same four bytes as
      the one it was created from. */
  lemma {:induction false} UserRoundTrip(ip: string, port: JsNumber)
    requires CreateUserPacket(3, ip, port).Some?
    ensures var p := CreateUserPacket(3, ip, port).value; var d := DecodePacket(p);
      && d.Some? && d.value.kind == 3 && d.value.port == Truncated(port) && d.value.userId == 0
      && IpToBytes(d.value.ip) == IpToBytes(ip)
  {
    var p := CreateUserPacket(3, ip, port).value;
    var n := Truncated(port);
    Pow256Values();
    NumberToBytesBigEndian(n, 2);
    assert p[5..7] == BigEndian(n, 2);
    BigEndianRoundTripInRange(n, 2);
    FormatIpParses(p[1..5]);
  }

  /** The decoders accept less than the C++ ones: whatever they decode, the
      C++ `decodePacket` decodes too. */
  lemma {:induction false} StricterThanNative(p: seq<byte>)
    requires DecodePacket(p).Some?
    ensures VimPacket.DecodePacket(p).Some?
  {
  }
}
