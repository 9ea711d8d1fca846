/** The control-flag byte of a transport segment and its classification into
    message categories (backend/include/Flags.hpp). */
module Flags {
  import opened Bytes

  /** One control bit; `Value` is its weight in the flag byte. */
  datatype Flag = URG | ACK | PSH | RST | SYN | FIN {
    function Index(): nat {
      match this
      case URG => 5
      case ACK => 4
      case PSH => 3
      case RST => 2
      case SYN => 1
      case FIN => 0
    }

    function Value(): (r: byte)
      ensures r == Pow2(Index())
    {
      Pow2Values();
      match this
      case URG => 32
      case ACK => 16
      case PSH => 8
      case RST => 4
      case SYN => 2
      case FIN => 1
    }
  }

  /** Message categories a flag byte is sorted into. */
  datatype FlagType = INVALID | SYN_ONLY | SYN_ACK | FIN_ONLY | FIN_ACK | ACK_ONLY | PSH_ACK | RST_ONLY | DATA

  /** The OR of all six control bits. */
  const VALID_FLAGS: byte := 0x3F

  /** `v & flag` is non-zero. */
  predicate IsSet(v: byte, f: Flag) {
    And(v, f.Value()) != 0
  }

  lemma {:induction false} IsSetBit(v: byte, f: Flag)
    ensures IsSet(v, f) <==> Bit(v, f.Index())
  {
    AndPow2(v, f.Index());
  }

  lemma {:induction false} AllIsSetBits(v: byte)
    ensures forall f: Flag :: IsSet(v, f) <==> Bit(v, f.Index())
  {
    forall f: Flag
      ensures IsSet(v, f) <==> Bit(v, f.Index())
    {
      IsSetBit(v, f);
    }
  }

  /** The flag byte carrying exactly the two given bits (one, if they coincide). */
  function CreateFlag(f1: Flag, f2: Flag): (r: byte)
    ensures forall k: nat :: Bit(r, k) <==> k == f1.Index() || k == f2.Index()
  {
    var r := Or(f1.Value(), f2.Value());
    OrCreatesBits(f1, f2);
    r
  }

  lemma {:induction false} SingleBit(k: nat, j: nat)
    ensures Bit(Pow2(k), j) <==> j == k
    decreases k
  {
    if k == 0 {
      if j > 0 {
        BitOfZero(0, j - 1);
      }
    } else {
      BitStep(Pow2(k - 1), 0, j);
      if j > 0 {
        SingleBit(k - 1, j - 1);
      }
    }
  }

  lemma {:induction false} BitOfZero(v: nat, j: nat)
    requires v == 0
    ensures !Bit(v, j)
    decreases j
  {
    if j > 0 {
      BitOfZero(v / 2, j - 1);
    }
  }

  lemma {:induction false} OrCreatesBits(f1: Flag, f2: Flag)
    ensures Or(f1.Value(), f2.Value()) < 0x100
    ensures forall k: nat :: Bit(Or(f1.Value(), f2.Value()), k) <==> k == f1.Index() || k == f2.Index()
  {
    forall k: nat
      ensures Bit(Or(f1.Value(), f2.Value()), k) <==> k == f1.Index() || k == f2.Index()
    {
      OrBit(f1.Value(), f2.Value(), k);
      SingleBit(f1.Index(), k);
      SingleBit(f2.Index(), k);
    }
    OrOfFlagsIsSmall(f1, f2);
  }

  lemma {:induction false} OrOfFlagsIsSmall(f1: Flag, f2: Flag)
    ensures Or(f1.Value(), f2.Value()) < 0x40
  {
    Pow2Values();
    OrBound(f1.Value(), f2.Value(), 6);
  }

  /** Priority classification of a flag byte: stray bits, then SYN, FIN, RST,
      ACK, and DATA for everything else. */
  function DecodeFlags(v: byte): (r: FlagType)
    ensures r == INVALID <==> v >= 0x40
    ensures v < 0x40 && Bit(v, 1) ==> r == (if Bit(v, 4) then SYN_ACK else SYN_ONLY)
    ensures v < 0x40 && !Bit(v, 1) && Bit(v, 0) ==> r == (if Bit(v, 4) then FIN_ACK else FIN_ONLY)
    ensures v < 0x40 && !Bit(v, 1) && !Bit(v, 0) && Bit(v, 2) ==> r == RST_ONLY
    ensures v < 0x40 && !Bit(v, 1) && !Bit(v, 0) && !Bit(v, 2) && Bit(v, 4) ==>
      r == (if Bit(v, 3) then PSH_ACK else ACK_ONLY)
    ensures r == DATA <==> v < 0x40 && !Bit(v, 0) && !Bit(v, 1) && !Bit(v, 2) && !Bit(v, 4)
  {
    AndHighBits(v);
    AllIsSetBits(v);
    if And(v, 0xFF - VALID_FLAGS) != 0 then INVALID
    else if IsSet(v, SYN) then (if IsSet(v, ACK) then SYN_ACK else SYN_ONLY)
    else if IsSet(v, FIN) then (if IsSet(v, ACK) then FIN_ACK else FIN_ONLY)
    else if IsSet(v, RST) then RST_ONLY
    else if IsSet(v, ACK) then (if IsSet(v, PSH) then PSH_ACK else ACK_ONLY)
    else DATA
  }

  /** Display name of a category. The source's "ERROR" default is unreachable
      for a real category, which the contract records. */
  function FlagsToStr(v: byte): (r: string)
    ensures r != "ERROR"
    ensures r == "INVALID" <==> v >= 0x40
  {
    TypeName(DecodeFlags(v))
  }

  function TypeName(t: FlagType): (r: string)
    ensures r != "ERROR"
  {
    match t
    case INVALID => "INVALID"
    case SYN_ONLY => "SYN"
    case SYN_ACK => "SYN_ACK"
    case FIN_ONLY => "FIN"
    case FIN_ACK => "FIN_ACK"
    case ACK_ONLY => "ACK"
    case PSH_ACK => "PSH_ACK"
    case RST_ONLY => "RST"
    case DATA => "DATA"
  }

  /** Distinct categories get distinct names. */
  lemma {:induction false} TypeNameInjective(a: FlagType, b: FlagType)
    requires TypeName(a) == TypeName(b)
    ensures a == b
  {
  }

  /** The two-flag bytes the connection layer sends: SYN|ACK is 18 and
      FIN|ACK is 17. */
  lemma {:induction false} CreateFlagValues()
    ensures CreateFlag(SYN, ACK) == 18 && CreateFlag(FIN, ACK) == 17
  {
    OrUnfold(2, 16);
    OrUnfold(1, 8);
    OrUnfold(0, 4);
    OrUnfold(0, 2);
    OrUnfold(0, 1);
    OrUnfold(1, 16);
    OrUnfold(0, 8);
  }

  /** Bits 0 to 4 of a constant, read off by halving. */
  lemma {:induction false} LowBits(v: nat)
    ensures Bit(v, 0) == (v % 2 == 1)
    ensures Bit(v, 1) == (v / 2 % 2 == 1)
    ensures Bit(v, 2) == (v / 4 % 2 == 1)
    ensures Bit(v, 3) == (v / 8 % 2 == 1)
    ensures Bit(v, 4) == (v / 16 % 2 == 1)
  {
    assert Bit(v, 4) == Bit(v / 2, 3) == Bit(v / 2 / 2, 2) == Bit(v / 2 / 2 / 2, 1) == Bit(v / 2 / 2 / 2 / 2, 0);
    assert Bit(v, 3) == Bit(v / 2, 2) == Bit(v / 2 / 2, 1) == Bit(v / 2 / 2 / 2, 0);
    assert Bit(v, 2) == Bit(v / 2, 1) == Bit(v / 2 / 2, 0);
    assert v / 2 / 2 == v / 4 && v / 2 / 2 / 2 == v / 8 && v / 2 / 2 / 2 / 2 == v / 16;
  }

  /** The flag bytes the connection layer sends decode to the intended
      category. */
  lemma {:induction false} SentFlagsDecode()
    ensures DecodeFlags(2) == SYN_ONLY && DecodeFlags(18) == SYN_ACK
    ensures DecodeFlags(1) == FIN_ONLY && DecodeFlags(17) == FIN_ACK
    ensures DecodeFlags(16) == ACK_ONLY
  {
    LowBits(2);
    LowBits(18);
    LowBits(1);
    LowBits(17);
    LowBits(16);
  }
}
