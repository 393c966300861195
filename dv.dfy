/** The DV record: one data-validation rule, its messages, its two formulas
    and the ranges it applies to. */
module Dv {
  import opened Bits
  import opened Stream
  import opened Collab
  import opened Workbook
  import opened Cf

  const ValueTypes: seq<string> := [
    "any type of value", "whole number", "decimal value", "matches one in a list of values",
    "date value", "time value", "text value", "custom formula"]

  const ErrorStyles: seq<string> := ["stop icon", "warning icon", "information icon"]

  const OperatorTypes: seq<string> := [
    "Between", "Not Between", "Equals", "Not Equals", "Greater Than", "Less Than",
    "Greater Than or Equal To", "Less Than or Equal To"]

  /** The fields of the leading 32-bit word. */
  datatype DvFlags = DvFlags(
    valType: nat, errStyle: nat, strLookup: bool, allowBlank: bool, noDropDown: bool,
    imeMode: nat, showInputMsg: bool, showErrorMsg: bool, operator: nat)

  function DecodeDvFlags(bits: nat): DvFlags
  {
    DvFlags(BitAnd(bits, 0x0000_000F), BitAnd(bits, 0x0000_0070) / 0x10,
      BitAnd(bits, 0x0000_0080) != 0, BitAnd(bits, 0x0000_0100) != 0, BitAnd(bits, 0x0000_0200) != 0,
      BitAnd(bits, 0x0003_FC00) / 0x400,
      BitAnd(bits, 0x0004_0000) != 0, BitAnd(bits, 0x0008_0000) != 0,
      BitAnd(bits, 0x00F0_0000) / 0x10_0000)
  }

  /** The value type is bits 0-3, the error style 4-6, the list flag bit 7,
      blanks allowed bit 8, no drop-down bit 9, the IME mode bits 10-17, the
      two message flags bits 18 and 19 and the operator bits 20-23. */
  lemma DvFlagFields(bits: nat)
    ensures var f := DecodeDvFlags(bits);
      f.valType == Field(bits, 0, 4) && f.errStyle == Field(bits, 4, 3) &&
      f.strLookup == Bit(bits, 7) && f.allowBlank == Bit(bits, 8) && f.noDropDown == Bit(bits, 9) &&
      f.imeMode == Field(bits, 10, 8) && f.showInputMsg == Bit(bits, 18) &&
      f.showErrorMsg == Bit(bits, 19) && f.operator == Field(bits, 20, 4)
  {
    Pow2Table();
    FlagField(bits, 0, 4, 0x0000_000F, 1);
    assert BitAnd(bits, 0x0000_000F) / 1 == BitAnd(bits, 0x0000_000F);
    FlagField(bits, 4, 3, 0x0000_0070, 0x10);
    FlagBit(bits, 7, 0x0000_0080);
    FlagBit(bits, 8, 0x0000_0100);
    FlagBit(bits, 9, 0x0000_0200);
    FlagField(bits, 10, 8, 0x0003_FC00, 0x400);
    FlagBit(bits, 18, 0x0004_0000);
    FlagBit(bits, 19, 0x0008_0000);
    FlagField(bits, 20, 4, 0x00F0_0000, 0x10_0000);
  }

  const DvWidths: seq<nat> := [4, 3, 1, 1, 1, 8, 1, 1, 4]

  function DvFlagValues(f: DvFlags): seq<nat>
  {
    [f.valType, f.errStyle, B2N(f.strLookup), B2N(f.allowBlank), B2N(f.noDropDown),
     f.imeMode, B2N(f.showInputMsg), B2N(f.showErrorMsg), f.operator]
  }

  function EncodeDvFlags(f: DvFlags): nat
  {
    PackBits(DvWidths, DvFlagValues(f))
  }

  predicate DvFlagsFit(f: DvFlags)
  {
    f.valType < 0x10 && f.errStyle < 8 && f.imeMode < 0x100 && f.operator < 0x10
  }

  lemma DvPackFields(f: DvFlags)
    requires DvFlagsFit(f)
    ensures var w, vs := EncodeDvFlags(f), DvFlagValues(f);
      w < 0x100_0000 && Field(w, 0, 4) == vs[0] && Field(w, 4, 3) == vs[1] &&
      Field(w, 7, 1) == vs[2] && Field(w, 8, 1) == vs[3] && Field(w, 9, 1) == vs[4] &&
      Field(w, 10, 8) == vs[5] && Field(w, 18, 1) == vs[6] && Field(w, 19, 1) == vs[7] &&
      Field(w, 20, 4) == vs[8]
  {
    DvPackBound(f);
    DvPackLow(f);
    DvPackHigh(f);
  }

  lemma DvPackBound(f: DvFlags)
    requires DvFlagsFit(f)
    ensures EncodeDvFlags(f) < 0x100_0000
  {
    var ws, vs := DvWidths, DvFlagValues(f);
    Pow2Table();
    assert FitsWidths(ws, vs);
    assert Offset(ws, 9) == 24;
    PackBitsBound(ws, vs);
  }

  lemma DvPackLow(f: DvFlags)
    requires DvFlagsFit(f)
    ensures var w, vs := EncodeDvFlags(f), DvFlagValues(f);
      Field(w, 0, 4) == vs[0] && Field(w, 4, 3) == vs[1] &&
      Field(w, 7, 1) == vs[2] && Field(w, 8, 1) == vs[3] && Field(w, 9, 1) == vs[4]
  {
    var ws, vs := DvWidths, DvFlagValues(f);
    Pow2Table();
    assert FitsWidths(ws, vs);
    assert Offset(ws, 4) == 9 && Offset(ws, 3) == 8 && Offset(ws, 2) == 7 && Offset(ws, 1) == 4;
    FieldOfPack(ws, vs, 0);
    FieldOfPack(ws, vs, 1);
    FieldOfPack(ws, vs, 2);
    FieldOfPack(ws, vs, 3);
    FieldOfPack(ws, vs, 4);
  }

  lemma DvPackHigh(f: DvFlags)
    requires DvFlagsFit(f)
    ensures var w, vs := EncodeDvFlags(f), DvFlagValues(f);
      Field(w, 10, 8) == vs[5] && Field(w, 18, 1) == vs[6] && Field(w, 19, 1) == vs[7] &&
      Field(w, 20, 4) == vs[8]
  {
    var ws, vs := DvWidths, DvFlagValues(f);
    Pow2Table();
    assert FitsWidths(ws, vs);
    assert Offset(ws, 8) == 20 && Offset(ws, 7) == 19 && Offset(ws, 6) == 18 && Offset(ws, 5) == 10;
    FieldOfPack(ws, vs, 5);
    FieldOfPack(ws, vs, 6);
    FieldOfPack(ws, vs, 7);
    FieldOfPack(ws, vs, 8);
  }

  /** Packing the fields into a word and decoding it gives them back. */
  lemma DvFlagsRoundTrip(f: DvFlags)
    requires DvFlagsFit(f)
    ensures EncodeDvFlags(f) < 0x1_0000_0000 && DecodeDvFlags(EncodeDvFlags(f)) == f
  {
    var w := EncodeDvFlags(f);
    DvPackFields(f);
    DvFlagFields(w);
  }

  datatype Dv = Dv(
    flags: DvFlags, promptTitle: string, errorTitle: string, prompt: string, error: string,
    formula1: seq<Byte>, strFormula1: string, formula2: seq<Byte>, strFormula2: string,
    ranges: seq<Ref8U>)

  /** A string read by `readUnicodeString` from offset `p`, and where it ends. */
  function StringAt(b: seq<Byte>, p: nat, c: Collaborators): (r: Result<(string, nat)>)
    requires p <= |b|
    ensures r.Success? ==> p <= r.value.1 <= |b|
  {
    var t := c.unicodeString(b[p..], None);
    if t.consumed > |b| - p then Failure(BufferUnderrun) else Success((t.text, p + t.consumed))
  }

  /** A formula: its size, two ignored bytes, its tokens, and the tokens
      rendered as text when there are any. */
  function FormulaAt(b: seq<Byte>, p: nat, c: Collaborators): (r: Result<(seq<Byte>, string, nat)>)
    requires p <= |b|
    ensures r.Success? ==> p + 4 + |r.value.0| == r.value.2 <= |b|
  {
    if |b| < p + 4 then Failure(BufferUnderrun)
    else
      var n := UInt(b, p, 2);
      if |b| < p + 4 + n then Failure(BufferUnderrun)
      else
        var f := b[p + 4..p + 4 + n];
        Success((f, if |f| > 0 then c.formulaText(f) else "", p + 4 + n))
  }

  /** Everything before the range count, and the offset of the count. */
  datatype DvFront = DvFront(
    flags: DvFlags, promptTitle: string, errorTitle: string, prompt: string, error: string,
    formula1: seq<Byte>, strFormula1: string, formula2: seq<Byte>, strFormula2: string)

  function DvFrontAt(b: seq<Byte>, c: Collaborators): (r: Result<(DvFront, nat)>)
    ensures r.Success? ==> 4 <= r.value.1 <= |b|
  {
    if |b| < 4 then Failure(BufferUnderrun)
    else
      var pt :- StringAt(b, 4, c);
      var et :- StringAt(b, pt.1, c);
      var pr :- StringAt(b, et.1, c);
      var er :- StringAt(b, pr.1, c);
      var f1 :- FormulaAt(b, er.1, c);
      var f2 :- FormulaAt(b, f1.2, c);
      Success((DvFront(DecodeDvFlags(UInt(b, 0, 4)), pt.0, et.0, pr.0, er.0, f1.0, f1.1, f2.0, f2.1), f2.2))
  }

  /** A 16-bit count and that many eight-byte ranges, and where they end. */
  function RangesAt(b: seq<Byte>, p: nat): (r: Result<(seq<Ref8U>, nat)>)
    ensures r.Success? ==> r.value.1 == p + 2 + 8 * |r.value.0| <= |b|
  {
    if |b| < p + 2 then Failure(BufferUnderrun)
    else
      var n := UInt(b, p, 2);
      if |b| < p + 2 + 8 * n then Failure(BufferUnderrun)
      else Success((RefsAt(b, p + 2, n), p + 2 + 8 * n))
  }

  function EncodeRanges(rs: seq<Ref8U>): seq<Byte>
  {
    Pack16([|rs|]) + Flat(RefParts(rs))
  }

  /** The range list reads back from wherever it is placed; what follows it
      is not read. */
  lemma RangesRoundTrip(pre: seq<Byte>, rs: seq<Ref8U>, junk: seq<Byte>)
    requires RefsFit(rs) && |rs| < 0x1_0000
    ensures RangesAt(pre + EncodeRanges(rs) + junk, |pre|) == Success((rs, |pre| + |EncodeRanges(rs)|))
  {
    var b := pre + EncodeRanges(rs) + junk;
    var f := Flat(RefParts(rs));
    RefPartsWidth(rs);
    Pack16At([|rs|], 0);
    assert b == pre + (Pack16([|rs|]) + (f + junk));
    UIntRight(pre, Pack16([|rs|]) + (f + junk), 0, 2);
    UIntLeft(Pack16([|rs|]), f + junk, 0, 2);
    assert b[|pre| + 2..|pre| + 2 + |f|] == f;
    RefsRoundTrip(b, |pre| + 2, rs);
  }

  /** The count is binding: one byte short of the stated ranges is an underrun. */
  lemma RangesShort(pre: seq<Byte>, rs: seq<Ref8U>)
    requires RefsFit(rs) && 0 < |rs| < 0x1_0000
    ensures var e := EncodeRanges(rs); RangesAt(pre + e[..|e| - 1], |pre|) == Failure(BufferUnderrun)
  {
    var e := EncodeRanges(rs);
    var f := Flat(RefParts(rs));
    RefPartsWidth(rs);
    Pack16At([|rs|], 0);
    var b := pre + e[..|e| - 1];
    assert b == pre + (Pack16([|rs|]) + f[..|f| - 1]);
    UIntRight(pre, Pack16([|rs|]) + f[..|f| - 1], 0, 2);
    UIntLeft(Pack16([|rs|]), f[..|f| - 1], 0, 2);
  }

  function DvLayout(b: seq<Byte>, c: Collaborators): Result<Dv>
  {
    var front :- DvFrontAt(b, c);
    var f := front.0;
    var ranges :- RangesAt(b, front.1);
    Success(Dv(f.flags, f.promptTitle, f.errorTitle, f.prompt, f.error,
      f.formula1, f.strFormula1, f.formula2, f.strFormula2, ranges.0))
  }

  /** The ranges of a DV are the count-prefixed list after the second formula. */
  lemma DvRanges(b: seq<Byte>, c: Collaborators, rs: seq<Ref8U>, junk: seq<Byte>)
    requires RefsFit(rs) && |rs| < 0x1_0000
    requires DvFrontAt(b, c).Success?
    requires var p := DvFrontAt(b, c).value.1; b[p..] == EncodeRanges(rs) + junk
    ensures DvLayout(b, c).Success? && DvLayout(b, c).value.ranges == rs
  {
    var p := DvFrontAt(b, c).value.1;
    assert b == b[..p] + EncodeRanges(rs) + junk;
    RangesRoundTrip(b[..p], rs, junk);
  }

  /** The count and the ranges; the loop of `Dv.__parseBytes`. */
  method ReadRanges(s: ByteStream) returns (r: Result<seq<Ref8U>>)
    requires s.Valid()
    modifies s
    ensures s.Valid()
    ensures var e := RangesAt(s.bytes, old(s.pos));
      (r.Success? <==> e.Success?) &&
      (r.Success? ==> r.value == e.value.0 && s.pos == e.value.1) &&
      (r.Failure? ==> r.error == e.error)
  {
    var rangeCount :- s.ReadUnsignedInt(2);
    r := ReadRefs(s, rangeCount);
  }

  method ReadFormula(s: ByteStream, c: Collaborators) returns (r: Result<(seq<Byte>, string)>)
    requires s.Valid()
    modifies s
    ensures s.Valid()
    ensures var e := FormulaAt(s.bytes, old(s.pos), c);
      (r.Success? <==> e.Success?) &&
      (r.Success? ==> r.value == (e.value.0, e.value.1) && s.pos == e.value.2) &&
      (r.Failure? ==> r.error == e.error)
  {
    var formulaLen :- s.ReadUnsignedInt(2);
    var ignored :- s.ReadUnsignedInt(2);
    var formula :- s.ReadBytes(formulaLen);
    var strFormula := "";
    if |formula| > 0 {
      strFormula := c.formulaText(formula);
    }
    r := Success((formula, strFormula));
  }

  method ReadString(s: ByteStream, c: Collaborators) returns (r: Result<string>)
    requires s.Valid()
    modifies s
    ensures s.Valid()
    ensures var e := StringAt(s.bytes, old(s.pos), c);
      (r.Success? <==> e.Success?) &&
      (r.Success? ==> r.value == e.value.0 && s.pos == e.value.1) &&
      (r.Failure? ==> r.error == e.error)
  {
    r := ReadUnicodeString(s, c, None);
  }

  method ParseDvFront(s: ByteStream, c: Collaborators) returns (r: Result<DvFront>)
    requires s.Valid() && s.pos == 0
    modifies s
    ensures s.Valid()
    ensures var e := DvFrontAt(s.bytes, c);
      (r.Success? <==> e.Success?) &&
      (r.Success? ==> r.value == e.value.0 && s.pos == e.value.1) &&
      (r.Failure? ==> r.error == e.error)
  {
    var bits :- s.ReadUnsignedInt(4);
    var flags := DecodeDvFlags(bits);
    var promptTitle :- ReadString(s, c);
    var errorTitle :- ReadString(s, c);
    var prompt :- ReadString(s, c);
    var error :- ReadString(s, c);
    var f1 :- ReadFormula(s, c);
    var f2 :- ReadFormula(s, c);
    r := Success(DvFront(flags, promptTitle, errorTitle, prompt, error, f1.0, f1.1, f2.0, f2.1));
  }

  /** `Dv.__parseBytes`. */
  method ParseDv(s: ByteStream, c: Collaborators) returns (r: Result<Dv>)
    requires s.Valid() && s.pos == 0
    modifies s
    ensures s.Valid()
    ensures r == DvLayout(s.bytes, c)
  {
    var f :- ParseDvFront(s, c);
    var ranges :- ReadRanges(s);
    r := Success(Dv(f.flags, f.promptTitle, f.errorTitle, f.prompt, f.error,
      f.formula1, f.strFormula1, f.formula2, f.strFormula2, ranges));
  }

  function RangeOf(r: Ref8U): CellRange
  {
    CellRange(r.row1, r.row2, r.col1, r.col2)
  }

  /** The validation object `Dv.fillModel` builds. */
  function Validation(d: Dv, c: Collaborators): (v: DataValidation)
    ensures |v.ranges| == |d.ranges|
    ensures forall i :: 0 <= i < |d.ranges| ==>
      v.ranges[i].firstRow == d.ranges[i].row1 && v.ranges[i].lastRow == d.ranges[i].row2 &&
      v.ranges[i].firstCol == d.ranges[i].col1 && v.ranges[i].lastCol == d.ranges[i].col2
  {
    DataValidation(seq(|d.ranges|, i requires 0 <= i < |d.ranges| => RangeOf(d.ranges[i])),
      c.valueOrUnknown(ValueTypes, d.flags.valType), c.valueOrUnknown(ErrorStyles, d.flags.errStyle),
      c.valueOrUnknown(OperatorTypes, d.flags.operator),
      d.flags.showInputMsg, d.flags.showErrorMsg, d.flags.strLookup, d.flags.allowBlank,
      d.prompt, d.promptTitle, d.error, d.errorTitle, d.strFormula1, d.strFormula2)
  }

  /** `Dv.fillModel`. */
  method FillDv(s: ByteStream, c: Collaborators, m: Model) returns (res: Result<()>)
    requires s.Valid() && s.pos == 0
    modifies s, m
    ensures var d := DvLayout(s.bytes, c);
      d.Success? ==>
        res.Success? && m.ops == old(m.ops) + [SetDataValidation(Validation(d.value, c))]
    ensures var d := DvLayout(s.bytes, c);
      d.Failure? ==> res == Failure(d.error) && m.ops == old(m.ops)
  {
    var r := ParseDv(s, c);
    if r.Failure? {
      return Failure(r.error);
    }
    m.Perform(SetDataValidation(Validation(r.value, c)));
    res := Success(());
  }
}
