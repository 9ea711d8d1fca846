/** The transport checksum: a 16-bit ones'-complement sum over a pseudo-header
    and the segment, folded as in section 1 of RFC 1071
    (backend/src/Segment.cpp, calculateCheckSum / create_checksum /
    check_checksum). */
module Checksum {
  import opened Bytes

  /** Sum of the 16-bit big-endian words of `s`; an odd trailing byte is the
      high byte of a last word whose low byte is zero. */
  function WordSum(s: seq<byte>): nat
    decreases |s|
  {
    if |s| == 0 then 0
    else if |s| == 1 then s[0] * 256
    else (s[0] * 256 + s[1]) + WordSum(s[2..])
  }

  /** Words of an even-length prefix do not straddle the split point. */
  lemma {:induction false} WordSumAppend(a: seq<byte>, b: seq<byte>)
    requires |a| % 2 == 0
    ensures WordSum(a + b) == WordSum(a) + WordSum(b)
    decreases |a|
  {
    if |a| == 0 {
      assert a + b == b;
    } else {
      assert (a + b)[2..] == a[2..] + b;
      WordSumAppend(a[2..], b);
    }
  }

  /** An odd-length segment's last byte counts as the high byte of a word. */
  lemma {:induction false} WordSumOddTail(s: seq<byte>)
    requires |s| % 2 == 1
    ensures WordSum(s) == WordSum(s[..|s| - 1]) + s[|s| - 1] as int * 256
  {
    var init := s[..|s| - 1];
    assert s == init + [s[|s| - 1]];
    WordSumAppend(init, [s[|s| - 1]]);
  }

  lemma {:induction false} WordSumBound(s: seq<byte>)
    ensures WordSum(s) <= (|s| + 1) / 2 * 0xFFFF
    decreases |s|
  {
    if |s| >= 2 {
      WordSumBound(s[2..]);
    }
  }

  /** The pseudo-header contribution: both 16-bit halves of each address, the
      protocol, and the segment length truncated to 16 bits. */
  function PseudoHeaderSum(sourceIP: uint32, destinationIP: uint32, protocol: byte, length: nat): nat {
    sourceIP / 0x1_0000 + sourceIP % 0x1_0000
    + destinationIP / 0x1_0000 + destinationIP % 0x1_0000
    + protocol + length % 0x1_0000
  }

  /** The carry-folding loop: while the sum exceeds 16 bits, add the high half
      to the low half. */
  function Fold(x: nat): (r: nat)
    ensures r <= 0xFFFF
    ensures r % 0xFFFF == x % 0xFFFF
    ensures x > 0 ==> r > 0
    ensures x <= 0xFFFF ==> r == x
    decreases x
  {
    if x > 0xFFFF then
      var y := x / 0x1_0000 + x % 0x1_0000;
      FoldStep(x);
      Fold(y)
    else x
  }

  /** One fold step shrinks the sum, keeps it positive and keeps its residue
      modulo 0xFFFF (2^16 is 1 modulo 0xFFFF). */
  lemma {:induction false} FoldStep(x: nat)
    requires x > 0xFFFF
    ensures 0 < x / 0x1_0000 + x % 0x1_0000 < x
    ensures (x / 0x1_0000 + x % 0x1_0000) % 0xFFFF == x % 0xFFFF
  {
    var q := x / 0x1_0000;
    var r := x % 0x1_0000;
    assert x == q * 0x1_0000 + r;
    assert x == (q + r) + q * 0xFFFF;
    ModAddMultiple(q + r, q, 0xFFFF);
  }

  lemma {:induction false} ModAddMultiple(a: nat, k: nat, m: nat)
    requires m > 0
    ensures (a + k * m) % m == a % m
  {
    DivModUnique(a + k * m, m, a / m + k, a % m);
  }

  /** `calculateCheckSum`: the 32-bit running sum, then folded. */
  function CalculateCheckSum(sourceIP: uint32, destinationIP: uint32, protocol: byte, bytes: seq<byte>): (r: nat)
    ensures r <= 0xFFFF
  {
    Fold((PseudoHeaderSum(sourceIP, destinationIP, protocol, |bytes|) + WordSum(bytes)) % TWO_TO_THE_32)
  }

  /** `create_checksum`: the complement of the folded sum, truncated to 16 bits. */
  function CreateChecksum(sourceIP: uint32, destinationIP: uint32, protocol: byte, bytes: seq<byte>): (r: uint16)
    ensures r + CalculateCheckSum(sourceIP, destinationIP, protocol, bytes) == 0xFFFF
  {
    0xFFFF - CalculateCheckSum(sourceIP, destinationIP, protocol, bytes)
  }

  /** `check_checksum`: the folded sum over the whole segment is all ones. */
  predicate CheckChecksum(sourceIP: uint32, destinationIP: uint32, protocol: byte, bytes: seq<byte>) {
    CalculateCheckSum(sourceIP, destinationIP, protocol, bytes) == 0xFFFF
  }

  /** Segments of at most 65535 bytes never wrap the 32-bit running sum. */
  lemma {:induction false} NoWrap(sourceIP: uint32, destinationIP: uint32, protocol: byte, bytes: seq<byte>)
    requires |bytes| < 0x1_0000
    ensures PseudoHeaderSum(sourceIP, destinationIP, protocol, |bytes|) + WordSum(bytes) < TWO_TO_THE_32
  {
    WordSumBound(bytes);
    assert (|bytes| + 1) / 2 <= 0x8000;
    assert (|bytes| + 1) / 2 * 0xFFFF <= 0x8000 * 0xFFFF;
  }

  /** The checksum word sits at an even offset, so it adds to the word sum as
      one 16-bit word. */
  lemma {:induction false} WordSumWithWord(head: seq<byte>, x: byte, y: byte, tail: seq<byte>)
    requires |head| % 2 == 0
    ensures WordSum(head + [x, y] + tail) == WordSum(head) + x as int * 256 + y + WordSum(tail)
  {
    WordSumAppend(head, [x, y] + tail);
    assert head + ([x, y] + tail) == head + [x, y] + tail;
    assert ([x, y] + tail)[2..] == tail;
  }

  /** A positive multiple of 0xFFFF folds to all ones. */
  lemma {:induction false} FoldMultiple(s: nat)
    requires s > 0 && s % 0xFFFF == 0
    ensures Fold(s) == 0xFFFF
  {
  }

  /** Adding the complement of a folded value to anything congruent to it gives
      a multiple of 0xFFFF. */
  lemma {:induction false} ComplementCancels(s0: nat, f0: nat)
    requires f0 <= 0xFFFF && s0 % 0xFFFF == f0 % 0xFFFF
    ensures (s0 + (0xFFFF - f0)) % 0xFFFF == 0
  {
    var q0 := s0 / 0xFFFF;
    var r := s0 % 0xFFFF;
    var g := f0 / 0xFFFF;
    assert s0 == q0 * 0xFFFF + r;
    assert f0 == g * 0xFFFF + r;
    assert s0 + (0xFFFF - f0) == (q0 - g + 1) * 0xFFFF;
    DivModUnique(s0 + (0xFFFF - f0), 0xFFFF, q0 - g + 1, 0);
  }

  /** Writing the complemented checksum into an even-offset word of a segment
      whose checksum word was zero makes the check succeed: the new sum is
      congruent to 0xFFFF and positive, so it folds to exactly 0xFFFF. */
  lemma {:induction false} ChecksumSound(sourceIP: uint32, destinationIP: uint32, protocol: byte,
                      head: seq<byte>, tail: seq<byte>)
    requires |head| % 2 == 0
    requires |head| + 2 + |tail| < 0x1_0000
    ensures
      var zeroed := head + [0, 0] + tail;
      var c := CreateChecksum(sourceIP, destinationIP, protocol, zeroed);
      CheckChecksum(sourceIP, destinationIP, protocol, head + [c / 256, c % 256] + tail)
  {
    var zeroed := head + [0, 0] + tail;
    var c := CreateChecksum(sourceIP, destinationIP, protocol, zeroed);
    var stamped := head + [c / 256, c % 256] + tail;
    var p := PseudoHeaderSum(sourceIP, destinationIP, protocol, |zeroed|);
    var s0 := p + WordSum(zeroed);
    var s1 := p + WordSum(stamped);
    assert s1 == s0 + c by {
      WordSumWithWord(head, 0, 0, tail);
      WordSumWithWord(head, c / 256, c % 256, tail);
      assert PseudoHeaderSum(sourceIP, destinationIP, protocol, |stamped|) == p;
    }
    NoWrap(sourceIP, destinationIP, protocol, zeroed);
    NoWrap(sourceIP, destinationIP, protocol, stamped);
    var f0 := Fold(s0);
    assert f0 == CalculateCheckSum(sourceIP, destinationIP, protocol, zeroed) by {
      ModOfSmall(s0, TWO_TO_THE_32);
    }
    ComplementCancels(s0, f0);
    assert s1 > 0 by {
      assert p >= |zeroed| % 0x1_0000 == |zeroed|;
    }
    FoldMultiple(s1);
    assert Fold(s1) == CalculateCheckSum(sourceIP, destinationIP, protocol, stamped) by {
      ModOfSmall(s1, TWO_TO_THE_32);
    }
  }

  lemma {:induction false} ModOfSmall(x: nat, m: nat)
    requires x < m
    ensures x % m == x
  {
  }
}
