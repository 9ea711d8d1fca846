/** Fixed-width integers, big-endian byte layouts and bitwise helpers shared
    by every codec of the system. */
module Bytes {

  type byte = x: int | 0 <= x < 0x100
  type uint16 = x: int | 0 <= x < 0x1_0000
  type uint32 = x: int | 0 <= x < 0x1_0000_0000
  type uint64 = x: int | 0 <= x < 0x1_0000_0000_0000_0000

  const TWO_TO_THE_16: nat := 0x1_0000
  const TWO_TO_THE_32: nat := 0x1_0000_0000
  const TWO_TO_THE_64: nat := 0x1_0000_0000_0000_0000

  /** A `uint64_t` (or `size_t`) result: the value modulo 2^64, so that a
      negative difference wraps to a huge count. */
  function Wrap64(x: int): (r: uint64)
    ensures 0 <= x < TWO_TO_THE_64 ==> r == x
    ensures -(TWO_TO_THE_64 as int) <= x < 0 ==> r == x + TWO_TO_THE_64
  {
    x % TWO_TO_THE_64
  }

  /** `a + b` in `uint32_t` arithmetic. */
  function Add32(a: int, b: int): uint32 {
    (a + b) % TWO_TO_THE_32
  }

  /** `a + b` in `uint16_t` arithmetic. */
  function Add16(a: int, b: int): uint16 {
    (a + b) % TWO_TO_THE_16
  }

  /** Reducing a summand modulo 2^32 first does not change a 32-bit sum. */
  lemma {:induction false} ModAddMod32(x: int, y: int)
    ensures (x % TWO_TO_THE_32 + y) % TWO_TO_THE_32 == (x + y) % TWO_TO_THE_32
  {
    var m := TWO_TO_THE_32;
    DivModUnique(x + y, m, x / m + (x % m + y) / m, (x % m + y) % m);
  }

  /** Adding in two 32-bit steps is adding the sum in one. */
  lemma {:induction false} Add32Assoc(a: int, b: int, c: int)
    ensures Add32(Add32(a, b), c) == Add32(a, b + c)
  {
    ModAddMod32(a + b, c);
  }

  /** A 32-bit sum that stays below 2^32 does not wrap. */
  lemma {:induction false} Add32NoWrap(a: int, b: int)
    requires 0 <= a + b < TWO_TO_THE_32
    ensures Add32(a, b) == a + b
  {
    DivModUnique(a + b, TWO_TO_THE_32, 0, a + b);
  }

  /** A 32-bit sum minus its first summand, taken in 32 bits, gives back the
      second summand. */
  lemma {:induction false} Add32Sub(a: uint32, b: uint32)
    ensures (Add32(a, b) - a) % TWO_TO_THE_32 == b
  {
    var m := TWO_TO_THE_32;
    if a + b < m {
      DivModUnique(a + b, m, 0, a + b);
      DivModUnique(b, m, 0, b);
    } else {
      DivModUnique(a + b, m, 1, a + b - m);
      DivModUnique(b - m, m, -1, b);
    }
  }

  function Pow256(n: nat): (r: nat)
    ensures r > 0
  {
    if n == 0 then 1 else 256 * Pow256(n - 1)
  }

  /** The low `n` bytes of `v`, most significant first: the byte sequence the
      `appendBits` template pushes for an `n`-byte integer. */
  function BigEndian(v: nat, n: nat): (r: seq<byte>)
    ensures |r| == n
  {
    if n == 0 then [] else BigEndian(v / 256, n - 1) + [v % 256]
  }

  /** The integer whose big-endian bytes are `s`: the `combineBytes` template,
      and every `(b[i] << 24) | (b[i+1] << 16) | ...` expression, whose shifted
      bytes never overlap. */
  function FromBigEndian(s: seq<byte>): nat {
    if |s| == 0 then 0 else FromBigEndian(s[..|s| - 1]) * 256 + s[|s| - 1]
  }

  lemma {:induction false} FromBigEndianBound(s: seq<byte>)
    ensures FromBigEndian(s) < Pow256(|s|)
  {
    if |s| > 0 {
      FromBigEndianBound(s[..|s| - 1]);
    }
  }

  lemma {:induction false} MulAwayFromZero(x: int, d: int)
    requires d > 0
    ensures x >= 1 ==> x * d >= d
    ensures x <= -1 ==> x * d <= -d
  {
  }

  /** Euclidean division is determined by a quotient and an in-range remainder. */
  lemma {:induction false} DivModUnique(v: int, d: int, q: int, r: int)
    requires d > 0 && 0 <= r < d && v == q * d + r
    ensures v / d == q && v % d == r
  {
    var q0 := v / d;
    var r0 := v % d;
    assert (q0 - q) * d == r - r0;
    MulAwayFromZero(q0 - q, d);
  }

  lemma {:induction false} DivModStep(v: nat, p: nat)
    requires p > 0
    ensures (v / 256) % p * 256 + v % 256 == v % (256 * p)
  {
    var q := v / 256;
    var r := v % 256;
    var q2 := q / p;
    var r2 := q % p;
    assert q == q2 * p + r2;
    assert v == q * 256 + r;
    assert q * 256 == q2 * (256 * p) + r2 * 256 by {
      assert q * 256 == (q2 * p + r2) * 256;
    }
    assert r2 * 256 + r < 256 * p by {
      assert r2 <= p - 1;
      assert r2 * 256 <= (p - 1) * 256;
    }
    DivModUnique(v, 256 * p, q2, r2 * 256 + r);
  }

  /** Decoding an encoded integer gives back its low `n` bytes. */
  lemma {:induction false} BigEndianRoundTrip(v: nat, n: nat)
    ensures FromBigEndian(BigEndian(v, n)) == v % Pow256(n)
  {
    if n > 0 {
      var s := BigEndian(v, n);
      assert s[..|s| - 1] == BigEndian(v / 256, n - 1);
      BigEndianRoundTrip(v / 256, n - 1);
      DivModStep(v, Pow256(n - 1));
    }
  }

  /** An integer that fits in `n` bytes survives the encode/decode round trip. */
  lemma BigEndianRoundTripInRange(v: nat, n: nat)
    requires v < Pow256(n)
    ensures FromBigEndian(BigEndian(v, n)) == v
  {
    BigEndianRoundTrip(v, n);
  }

  /** Encoding a decoded byte string gives the same bytes back. */
  lemma {:induction false} FromBigEndianRoundTrip(s: seq<byte>)
    ensures BigEndian(FromBigEndian(s), |s|) == s
  {
    if |s| > 0 {
      var init := s[..|s| - 1];
      FromBigEndianRoundTrip(init);
      FromBigEndianBound(init);
      var v := FromBigEndian(s);
      assert v / 256 == FromBigEndian(init);
      assert v % 256 == s[|s| - 1];
      assert s == init + [s[|s| - 1]];
    }
  }

  lemma {:induction false} Pow256Values()
    ensures Pow256(1) == 0x100 && Pow256(2) == 0x1_0000 && Pow256(4) == 0x1_0000_0000
    ensures Pow256(8) == 0x1_0000_0000_0000_0000
  {
  }

  /** The `combineBytes` template: the big-endian integer at `start`. */
  function Combine16(b: seq<byte>, start: nat): uint16
    requires start + 2 <= |b|
  {
    FromBigEndianBound(b[start..start + 2]);
    Pow256Values();
    FromBigEndian(b[start..start + 2])
  }

  function Combine32(b: seq<byte>, start: nat): uint32
    requires start + 4 <= |b|
  {
    FromBigEndianBound(b[start..start + 4]);
    Pow256Values();
    FromBigEndian(b[start..start + 4])
  }

  /** Reading back a written field gives the field. */
  lemma {:induction false} Combine16Of(b: seq<byte>, start: nat, v: uint16)
    requires start + 2 <= |b| && b[start..start + 2] == BigEndian(v, 2)
    ensures Combine16(b, start) == v
  {
    Pow256Values();
    BigEndianRoundTripInRange(v, 2);
  }

  lemma {:induction false} Combine32Of(b: seq<byte>, start: nat, v: uint32)
    requires start + 4 <= |b| && b[start..start + 4] == BigEndian(v, 4)
    ensures Combine32(b, start) == v
  {
    Pow256Values();
    BigEndianRoundTripInRange(v, 4);
  }

  /** Writing back a read field gives the bytes it was read from. */
  lemma {:induction false} Combine32Bytes(b: seq<byte>)
    requires |b| == 4
    ensures BigEndian(Combine32(b, 0), 4) == b
  {
    assert b[0..4] == b;
    FromBigEndianRoundTrip(b);
  }

  function Combine64(b: seq<byte>, start: nat): uint64
    requires start + 8 <= |b|
  {
    FromBigEndianBound(b[start..start + 8]);
    Pow256Values();
    FromBigEndian(b[start..start + 8])
  }

  lemma {:induction false} Combine64Of(b: seq<byte>, start: nat, v: uint64)
    requires start + 8 <= |b| && b[start..start + 8] == BigEndian(v, 8)
    ensures Combine64(b, start) == v
  {
    Pow256Values();
    BigEndianRoundTripInRange(v, 8);
  }

  /** Two-byte and four-byte layouts written out byte by byte. */
  lemma {:induction false} BigEndian16(v: nat)
    ensures BigEndian(v, 2) == [(v / 0x100) % 0x100, v % 0x100]
  {
  }

  lemma {:induction false} DivDiv(v: nat, a: nat, b: nat)
    requires a > 0 && b > 0
    ensures v / a / b == v / (a * b)
  {
    var q := v / a / b;
    var r := v / a % b;
    assert v / a == q * b + r;
    assert v == (q * b + r) * a + v % a;
    assert v == q * (a * b) + (r * a + v % a);
    assert r * a + v % a < a * b by {
      assert r <= b - 1;
      assert r * a <= (b - 1) * a;
    }
    DivModUnique(v, a * b, q, r * a + v % a);
  }

  lemma {:induction false} BigEndian32(v: nat)
    ensures BigEndian(v, 4) ==
      [(v / 0x100_0000) % 0x100, (v / 0x1_0000) % 0x100, (v / 0x100) % 0x100, v % 0x100]
  {
    DivDiv(v, 256, 256);
    DivDiv(v, 0x1_0000, 256);
    assert BigEndian(v, 4) == BigEndian(v / 256, 3) + [v % 256];
    assert BigEndian(v / 256, 3) == BigEndian(v / 256 / 256, 2) + [v / 256 % 256];
    assert BigEndian(v / 256 / 256, 2) == BigEndian(v / 256 / 256 / 256, 1) + [v / 256 / 256 % 256];
  }

  lemma {:induction false} FromBigEndian2(s: seq<byte>)
    requires |s| == 2
    ensures FromBigEndian(s) == s[0] as int * 0x100 + s[1]
  {
    assert s[..1][..0] == [];
    assert FromBigEndian(s[..1]) == s[0];
  }

  lemma {:induction false} FromBigEndian4(s: seq<byte>)
    requires |s| == 4
    ensures FromBigEndian(s) ==
      s[0] as int * 0x100_0000 + s[1] as int * 0x1_0000 + s[2] as int * 0x100 + s[3]
  {
    assert s[..3][..2][..1][..0] == [];
    assert FromBigEndian(s[..3][..2][..1]) == s[0];
    assert FromBigEndian(s[..3][..2]) == s[0] as int * 0x100 + s[1];
    assert FromBigEndian(s[..3]) == s[0] as int * 0x1_0000 + s[1] as int * 0x100 + s[2];
  }

  function Pow2(n: nat): (r: nat)
    ensures r > 0
  {
    if n == 0 then 1 else 2 * Pow2(n - 1)
  }

  /** Bit `k` (weight 2^k) of `v`: the C++ test `v & (1 << k)`. */
  predicate Bit(v: nat, k: nat) {
    if k == 0 then v % 2 == 1 else Bit(v / 2, k - 1)
  }

  /** Bitwise and, or and exclusive or of two naturals, bit by bit from the
      lowest: the `&`, `|` and `^` operators of the source on unsigned values. */
  function And(a: nat, b: nat): nat
    decreases a + b
  {
    if a == 0 && b == 0 then 0 else 2 * And(a / 2, b / 2) + (if a % 2 == 1 && b % 2 == 1 then 1 else 0)
  }

  function Or(a: nat, b: nat): nat
    decreases a + b
  {
    if a == 0 && b == 0 then 0 else 2 * Or(a / 2, b / 2) + (if a % 2 == 1 || b % 2 == 1 then 1 else 0)
  }

  function Xor(a: nat, b: nat): nat
    decreases a + b
  {
    if a == 0 && b == 0 then 0 else 2 * Xor(a / 2, b / 2) + (a % 2 + b % 2) % 2
  }

  lemma {:induction false} AndUnfold(a: nat, b: nat)
    ensures And(a, b) == 2 * And(a / 2, b / 2) + (if a % 2 == 1 && b % 2 == 1 then 1 else 0)
  {
  }

  lemma {:induction false} OrUnfold(a: nat, b: nat)
    ensures Or(a, b) == 2 * Or(a / 2, b / 2) + (if a % 2 == 1 || b % 2 == 1 then 1 else 0)
  {
  }

  lemma {:induction false} XorUnfold(a: nat, b: nat)
    ensures Xor(a, b) == 2 * Xor(a / 2, b / 2) + (a % 2 + b % 2) % 2
  {
  }

  lemma {:induction false} BitStep(h: nat, bit: nat, k: nat)
    requires bit < 2
    ensures Bit(2 * h + bit, k) == if k == 0 then bit == 1 else Bit(h, k - 1)
  {
    DivModUnique(2 * h + bit, 2, h, bit);
  }

  /** Bit `k` of `a & b` is set iff it is set in both. */
  lemma {:induction false} AndBit(a: nat, b: nat, k: nat)
    ensures Bit(And(a, b), k) <==> Bit(a, k) && Bit(b, k)
    decreases k
  {
    AndUnfold(a, b);
    BitStep(And(a / 2, b / 2), if a % 2 == 1 && b % 2 == 1 then 1 else 0, k);
    if k > 0 {
      AndBit(a / 2, b / 2, k - 1);
    }
  }

  /** Bit `k` of `a | b` is set iff it is set in either. */
  lemma {:induction false} OrBit(a: nat, b: nat, k: nat)
    ensures Bit(Or(a, b), k) <==> Bit(a, k) || Bit(b, k)
    decreases k
  {
    OrUnfold(a, b);
    BitStep(Or(a / 2, b / 2), if a % 2 == 1 || b % 2 == 1 then 1 else 0, k);
    if k > 0 {
      OrBit(a / 2, b / 2, k - 1);
    }
  }

  lemma {:induction false} AndZero(a: nat)
    ensures And(a, 0) == 0
    decreases a
  {
    if a != 0 {
      AndZero(a / 2);
    }
  }

  /** Masking with a single bit keeps exactly that bit. */
  lemma {:induction false} AndPow2(v: nat, k: nat)
    ensures And(v, Pow2(k)) == if Bit(v, k) then Pow2(k) else 0
    decreases k
  {
    AndUnfold(v, Pow2(k));
    if k == 0 {
      AndZero(v / 2);
    } else {
      AndPow2(v / 2, k - 1);
    }
  }

  /** On a byte, `v & 0xC0` (the complement of the low six bits) is non-zero
      iff `v` has a bit at or above 0x40. */
  lemma {:induction false} AndHighBits(v: byte)
    ensures And(v, 0xC0) != 0 <==> v >= 0x40
  {
    var a1 := v / 2;
    var a2 := a1 / 2;
    var a3 := a2 / 2;
    var a4 := a3 / 2;
    var a5 := a4 / 2;
    var a6 := a5 / 2;
    AndEven(v, 192);
    AndEven(a1, 96);
    AndEven(a2, 48);
    AndEven(a3, 24);
    AndEven(a4, 12);
    AndEven(a5, 6);
    assert And(v, 192) == 64 * And(a6, 3);
    assert a6 < 4 && (a6 == 0 <==> v < 64);
    AndUnfold(a6, 3);
    AndUnfold(a6 / 2, 1);
    AndZero(a6 / 2 / 2);
  }

  /** An even mask sees the value shifted right by one. */
  lemma {:induction false} AndEven(a: nat, m: nat)
    requires m % 2 == 0
    ensures And(a, m) == 2 * And(a / 2, m / 2)
  {
    AndUnfold(a, m);
  }

  /** Bit `k` is the parity of `v` shifted right by `k`. */
  lemma {:induction false} BitDiv(v: nat, k: nat)
    ensures Bit(v, k) <==> (v / Pow2(k)) % 2 == 1
    decreases k
  {
    if k > 0 {
      BitDiv(v / 2, k - 1);
      DivDiv(v, 2, Pow2(k - 1));
    }
  }

  /** `v & (1 << k)` is non-zero iff bit `k` of `v` is set. */
  lemma {:induction false} AndBitDiv(v: nat, k: nat)
    ensures And(v, Pow2(k)) != 0 <==> (v / Pow2(k)) % 2 == 1
  {
    AndPow2(v, k);
    BitDiv(v, k);
  }

  lemma {:induction false} Mod2Step(v: nat, p: nat)
    requires p > 0
    ensures (v / 2) % p * 2 + v % 2 == v % (2 * p)
  {
    DivModUnique(v, 2 * p, v / 2 / p, (v / 2) % p * 2 + v % 2);
  }

  /** `v & ((1 << n) - 1)` keeps the low `n` bits: it is `v` modulo 2^n. */
  lemma {:induction false} AndLow(v: nat, n: nat)
    ensures And(v, Pow2(n) - 1) == v % Pow2(n)
    decreases n
  {
    if n == 0 {
      AndZero(v);
    } else {
      AndUnfold(v, Pow2(n) - 1);
      AndLow(v / 2, n - 1);
      Mod2Step(v, Pow2(n - 1));
    }
  }

  lemma {:induction false} OrZero(a: nat)
    ensures Or(a, 0) == a
    decreases a
  {
    if a != 0 {
      OrZero(a / 2);
    }
  }

  /** Or-ing a value below 2^n into a multiple of 2^n adds it. */
  lemma {:induction false} OrLow(high: nat, low: nat, n: nat)
    requires low < Pow2(n)
    ensures Or(high * Pow2(n), low) == high * Pow2(n) + low
    decreases n
  {
    if n == 0 {
      OrZero(high);
    } else {
      var a := high * Pow2(n);
      assert a == 2 * (high * Pow2(n - 1));
      OrUnfold(a, low);
      OrLow(high, low / 2, n - 1);
    }
  }

  lemma {:induction false} Pow2Values()
    ensures Pow2(0) == 1 && Pow2(1) == 2 && Pow2(2) == 4 && Pow2(3) == 8
    ensures Pow2(4) == 16 && Pow2(5) == 32 && Pow2(6) == 64 && Pow2(7) == 128 && Pow2(8) == 256
  {
  }

  lemma {:induction false} OrBound(a: nat, b: nat, n: nat)
    requires a < Pow2(n) && b < Pow2(n)
    ensures Or(a, b) < Pow2(n)
    decreases a + b
  {
    if a == 0 && b == 0 {
    } else {
      assert n > 0;
      OrBound(a / 2, b / 2, n - 1);
    }
  }

  lemma {:induction false} XorBound(a: nat, b: nat, n: nat)
    requires a < Pow2(n) && b < Pow2(n)
    ensures Xor(a, b) < Pow2(n)
    decreases a + b
  {
    if a == 0 && b == 0 {
    } else {
      assert n > 0;
      XorBound(a / 2, b / 2, n - 1);
    }
  }

  /** `^` on two bytes is again a byte. */
  function XorByte(a: byte, b: byte): byte {
    XorByteBound(a, b);
    Xor(a, b)
  }

  lemma {:induction false} XorByteBound(a: byte, b: byte)
    ensures Xor(a, b) < 0x100
  {
    Pow2Values();
    XorBound(a, b, 8);
  }

  /** Exclusive or with the same key twice is the identity. */
  lemma {:induction false} XorInvolutive(a: nat, k: nat)
    ensures Xor(Xor(a, k), k) == a
    decreases a + k
  {
    if a != 0 || k != 0 {
      XorUnfold(a, k);
      XorInvolutive(a / 2, k / 2);
      XorTwice(a, k, Xor(a / 2, k / 2), Xor(a, k));
    }
  }

  lemma {:induction false} XorTwice(a: nat, k: nat, h: nat, m: nat)
    requires m == 2 * h + (a % 2 + k % 2) % 2
    requires Xor(h, k / 2) == a / 2
    ensures Xor(m, k) == a
  {
    var bit := (a % 2 + k % 2) % 2;
    XorOfDigits(h, bit, k);
    assert (bit + k % 2) % 2 == a % 2;
  }

  lemma {:induction false} XorOfDigits(h: nat, bit: nat, k: nat)
    requires bit < 2
    ensures Xor(2 * h + bit, k) == 2 * Xor(h, k / 2) + (bit + k % 2) % 2
  {
    DivModUnique(2 * h + bit, 2, h, bit);
    XorUnfold(2 * h + bit, k);
  }

  /** Adding to a total kept modulo 2^16 commutes with the reduction. */
  lemma {:induction false} ModAddCongruent(t: nat, s: nat, x: nat)
    ensures t == s % 0x1_0000 ==> (t + x) % 0x1_0000 == (s + x) % 0x1_0000
  {
    if t == s % 0x1_0000 {
      DivModUnique(s + x, 0x1_0000, s / 0x1_0000 + (t + x) / 0x1_0000, (t + x) % 0x1_0000);
    }
  }

  /** Subtracting a summand from a total kept modulo 2^16. */
  lemma {:induction false} ModSubCongruent(t: nat, s: nat, x: nat)
    ensures t == (x + s) % 0x1_0000 ==> (t - x) % 0x1_0000 == s % 0x1_0000
  {
    if t == (x + s) % 0x1_0000 {
      var q := (x + s) / 0x1_0000;
      assert x + s == q * 0x1_0000 + t;
      assert t - x == s - q * 0x1_0000;
      DivModUnique(t - x, 0x1_0000, s / 0x1_0000 - q, s % 0x1_0000);
    }
  }
}
