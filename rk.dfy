/** RK numbers (the RkNumber structure of MS-XLS): a 32-bit word whose bit 0 says
    "divide by 100", whose bit 1 says "integer", and whose upper 30 bits are either
    a 30-bit integer or the upper 30 bits of an IEEE-754 double whose other 34
    bits are zero. Doubles are kept as their 64-bit pattern; the division by 100
    is kept as a flag, because floating point is not modelled. */
module RK {
  import opened Bits

  datatype RkNumber =
    | RkInteger(value: int, div100: bool)
    | RkFloat(pattern: nat, div100: bool)

  /** What `decodeRK` stores into its `auxData` argument. */
  datatype RkAuxData = RkAuxData(multi100: bool, signedInt: bool)

  const TwoTo29: int := 0x2000_0000
  const TwoTo30: int := 0x4000_0000
  const TwoTo32: int := 0x1_0000_0000

  /** `decodeRK` exactly as written: the integer branch divides the masked word
      by four as an unsigned number, so negative integers come out as large
      positive ones. */
  function DecodeRKAsWritten(rk: nat): RkNumber
  {
    var multi100 := BitAnd(rk, 0x0000_0001) != 0;
    var signedInt := BitAnd(rk, 0x0000_0002) != 0;
    var realVal := BitAnd(rk, 0xFFFF_FFFC);
    if signedInt then RkInteger(realVal / 4, multi100)
    else RkFloat(realVal * TwoTo32, multi100)
  }

  /** The two's-complement reading of the 30-bit integer field. */
  function Signed30(u: nat): (r: int)
    ensures u < TwoTo30 ==> -TwoTo29 <= r < TwoTo29
  {
    if u >= TwoTo29 then u - TwoTo30 else u
  }

  /** `decodeRK` with the integer field read as the signed 30-bit number that
      MS-XLS specifies; the rest of the model uses this one. */
  function DecodeRK(rk: nat): RkNumber
  {
    var multi100 := BitAnd(rk, 0x0000_0001) != 0;
    var signedInt := BitAnd(rk, 0x0000_0002) != 0;
    var realVal := BitAnd(rk, 0xFFFF_FFFC);
    if signedInt then RkInteger(Signed30(realVal / 4), multi100)
    else RkFloat(realVal * TwoTo32, multi100)
  }

  /** `decodeRK` as written when `corrected` is false, and with the signed
      reading of the integer field when it is true. */
  function DecodeRKReading(rk: nat, corrected: bool): RkNumber
  {
    if corrected then DecodeRK(rk) else DecodeRKAsWritten(rk)
  }

  function DecodeRKAux(rk: nat): RkAuxData
  {
    RkAuxData(BitAnd(rk, 0x0000_0001) != 0, BitAnd(rk, 0x0000_0002) != 0)
  }

  lemma MaskConstants()
    ensures Mask(0, 1) == 0x0000_0001 && Mask(1, 1) == 0x0000_0002
    ensures Mask(2, 30) == 0xFFFF_FFFC && Pow2(2) == 4 && Pow2(30) == TwoTo30
  {
    Pow2Table();
    MaskValue(0, 1);
    MaskValue(1, 1);
    MaskValue(2, 30);
  }

  /** Bit 0 is the "divide by 100" flag and bit 1 the "integer" flag, in both
      readings, and `auxData` records exactly these two bits. */
  lemma RKFlags(rk: nat)
    ensures DecodeRK(rk).div100 == Bit(rk, 0) && DecodeRKAsWritten(rk).div100 == Bit(rk, 0)
    ensures DecodeRK(rk).RkInteger? == Bit(rk, 1) && DecodeRKAsWritten(rk).RkInteger? == Bit(rk, 1)
    ensures DecodeRKAux(rk) == RkAuxData(Bit(rk, 0), Bit(rk, 1))
  {
    MaskConstants();
    MaskBit(rk, 0);
    MaskBit(rk, 1);
  }

  /** The integer branch as written yields bits 2..31 of the word, unsigned. */
  lemma IntegerBranchAsWritten(rk: nat)
    requires Bit(rk, 1)
    ensures DecodeRKAsWritten(rk) == RkInteger(Field(rk, 2, 30), Bit(rk, 0))
  {
    RKFlags(rk);
    MaskConstants();
    MaskShiftDiv(rk, 2, 30);
  }

  /** The floating branch places bits 2..31 of the word in the upper word of the
      double: the low 32 bits of the pattern, and the two lowest bits of its
      upper word, are zero. */
  lemma FloatBranch(rk: nat)
    requires !Bit(rk, 1)
    ensures DecodeRK(rk) == DecodeRKAsWritten(rk)
    ensures DecodeRK(rk).RkFloat? && DecodeRK(rk).pattern == Field(rk, 2, 30) * 4 * TwoTo32
    ensures DecodeRK(rk).pattern % (4 * TwoTo32) == 0
    ensures DecodeRK(rk).pattern < TwoTo32 * TwoTo32
  {
    RKFlags(rk);
    MaskConstants();
    MaskShift(rk, 2, 30);
  }

  /** The RK word of a 30-bit integer. */
  function EncodeRKInteger(v: int, div100: bool): (rk: nat)
    requires -TwoTo29 <= v < TwoTo29
    ensures rk < TwoTo32
  {
    (v % TwoTo30) * 4 + 2 + (if div100 then 1 else 0)
  }

  /** The RK word of a double pattern whose 34 low bits are zero. */
  function EncodeRKFloat(pattern: nat, div100: bool): (rk: nat)
    requires pattern % (4 * TwoTo32) == 0 && pattern < TwoTo32 * TwoTo32
    ensures rk < TwoTo32
  {
    pattern / TwoTo32 + (if div100 then 1 else 0)
  }

  lemma LowBits(rk: nat, hi: nat, lo: nat)
    requires rk == hi * 4 + lo && lo < 4
    ensures Bit(rk, 0) == (lo % 2 == 1) && Bit(rk, 1) == (lo >= 2) && Field(rk, 2, 30) == hi % TwoTo30
  {
    LowBit0(rk, hi, lo);
    LowBit1(rk, hi, lo);
    LowField(rk, hi, lo);
  }

  lemma LowBit0(rk: nat, hi: nat, lo: nat)
    requires rk == hi * 4 + lo && lo < 4
    ensures Bit(rk, 0) == (lo % 2 == 1)
  {
    assert Pow2(0) == 1 && Pow2(1) == 2 by { Pow2Table(); }
    assert rk / 1 == rk;
    DivModUnique(rk, 2, 2 * hi + lo / 2, lo % 2);
  }

  lemma LowBit1(rk: nat, hi: nat, lo: nat)
    requires rk == hi * 4 + lo && lo < 4
    ensures Bit(rk, 1) == (lo >= 2)
  {
    assert Pow2(1) == 2 by { Pow2Table(); }
    var half := 2 * hi + lo / 2;
    DivModUnique(rk, 2, half, lo % 2);
    DivModUnique(half, 2, hi, lo / 2);
  }

  lemma LowField(rk: nat, hi: nat, lo: nat)
    requires rk == hi * 4 + lo && lo < 4
    ensures Field(rk, 2, 30) == hi % TwoTo30
  {
    MaskConstants();
    DivModUnique(rk, 4, hi, lo);
  }

  /** The corrected integer branch: the signed reading of bits 2..31. */
  lemma IntegerBranch(rk: nat)
    requires Bit(rk, 1)
    ensures DecodeRK(rk) == RkInteger(Signed30(Field(rk, 2, 30)), Bit(rk, 0))
  {
    RKFlags(rk);
    MaskConstants();
    MaskShiftDiv(rk, 2, 30);
  }

  /** The decoded number is determined by the two flag bits and the 30-bit field. */
  lemma DecodeByFields(rk: nat)
    ensures DecodeRK(rk) == if Bit(rk, 1) then RkInteger(Signed30(Field(rk, 2, 30)), Bit(rk, 0))
                            else RkFloat(Field(rk, 2, 30) * 4 * TwoTo32, Bit(rk, 0))
  {
    if Bit(rk, 1) {
      IntegerBranch(rk);
    } else {
      FloatBranch(rk);
      RKFlags(rk);
    }
  }

  lemma DecodeWord(rk: nat, hi: nat, lo: nat)
    requires rk == hi * 4 + lo && lo < 4
    ensures lo >= 2 ==> DecodeRK(rk) == RkInteger(Signed30(hi % TwoTo30), lo % 2 == 1)
    ensures lo < 2 ==> DecodeRK(rk) == RkFloat(hi % TwoTo30 * 4 * TwoTo32, lo % 2 == 1)
  {
    LowBits(rk, hi, lo);
    DecodeByFields(rk);
  }

  lemma DecodeEncodeInteger(v: int, div100: bool)
    requires -TwoTo29 <= v < TwoTo29
    ensures DecodeRK(EncodeRKInteger(v, div100)) == RkInteger(v, div100)
  {
    var lo := 2 + (if div100 then 1 else 0);
    DecodeWord(EncodeRKInteger(v, div100), v % TwoTo30, lo);
  }

  lemma DecodeEncodeFloat(pattern: nat, div100: bool)
    requires pattern % (4 * TwoTo32) == 0 && pattern < TwoTo32 * TwoTo32
    ensures DecodeRK(EncodeRKFloat(pattern, div100)) == RkFloat(pattern, div100)
  {
    var hi := pattern / (4 * TwoTo32);
    DivDiv(pattern, TwoTo32, 4);
    assert pattern == hi * 4 * TwoTo32;
    assert pattern / TwoTo32 == hi * 4;
    assert hi < TwoTo30;
    DecodeWord(EncodeRKFloat(pattern, div100), hi, if div100 then 1 else 0);
  }

  /** The two readings agree exactly on words whose integer field is
      non-negative; `0xFFFFFFFE` (the integer -1) is read as 2^30 - 1. */
  lemma SignedAgreesWhenSmall(rk: nat)
    requires Bit(rk, 1) && Field(rk, 2, 30) < TwoTo29
    ensures DecodeRK(rk) == DecodeRKAsWritten(rk)
  {
    IntegerBranchAsWritten(rk);
    MaskConstants();
    MaskShiftDiv(rk, 2, 30);
  }

  /** The two readings differ exactly on integer words whose 30-bit field has
      its top bit set, that is on the negative integers. */
  lemma ReadingsAgree(rk: nat)
    ensures DecodeRKReading(rk, false) == DecodeRKReading(rk, true) <==>
      !(Bit(rk, 1) && Field(rk, 2, 30) >= TwoTo29)
  {
    if !Bit(rk, 1) {
      FloatBranch(rk);
    } else if Field(rk, 2, 30) < TwoTo29 {
      SignedAgreesWhenSmall(rk);
    } else {
      IntegerBranchAsWritten(rk);
      IntegerBranch(rk);
    }
  }

  lemma MinusOneAsWritten()
    ensures DecodeRKAsWritten(0xFFFF_FFFE) == RkInteger(0x3FFF_FFFF, false)
    ensures DecodeRK(0xFFFF_FFFE) == RkInteger(-1, false)
  {
    LowBits(0xFFFF_FFFE, 0x3FFF_FFFF, 2);
    IntegerBranchAsWritten(0xFFFF_FFFE);
    DecodeWord(0xFFFF_FFFE, 0x3FFF_FFFF, 2);
  }
}
