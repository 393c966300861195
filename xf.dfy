/** The XF record: the formatting of a cell or of a cell style. Three 16-bit
    words (font, number format, flags) are followed by one of two layouts,
    chosen by the style bit of the flags: a cell XF of six bytes or a cell
    style XF of eight. */
module Xf {
  import opened Bits
  import opened Stream
  import opened Format

  /** `XFBase.parseHeaderBytes`: alignment, rotation, indentation, reading order. */
  datatype XFHeader = XFHeader(
    horAlign: nat, wrapText: bool, verAlign: nat, distributed: bool,
    textRotation: nat, indentLevel: nat, shrinkToFit: bool, readOrder: nat)

  /** `XFBase.parseBorderStyles`. */
  datatype Borders = Borders(left: nat, right: nat, top: nat, bottom: nat)

  datatype XFData =
    | CellXF(header: XFHeader, atrNum: bool, atrFnt: bool, atrAlc: bool, atrBdr: bool,
        atrPat: bool, atrProt: bool, borders: Borders)
    | CellStyleXF(header: XFHeader, borders: Borders, leftColor: nat, rightColor: nat, diagBorder: nat)

  datatype XF = XF(
    fontId: nat, numId: nat, locked: bool, hidden: bool, style: bool, prefix: bool,
    cellStyleXFIndex: nat, data: XFData)

  // ---------------------------------------------------------------------
  // The bytes of the two layouts

  function DecodeHeader(b0: nat, rotation: nat, b2: nat): XFHeader
  {
    XFHeader(BitAnd(b0, 0x07), BitAnd(b0, 0x08) != 0, BitAnd(b0, 0x70) / 16, BitAnd(b0, 0x80) != 0,
      rotation, BitAnd(b2, 0x0F), BitAnd(b2, 0x10) != 0, BitAnd(b2, 0xC0) / 64)
  }

  /** Horizontal alignment is bits 0-2 of the first byte, wrap bit 3,
      vertical alignment bits 4-6 and distributed bit 7; the second byte is
      the rotation; indentation is bits 0-3 of the third, shrink-to-fit bit 4
      and the reading order bits 6-7. */
  lemma HeaderFields(b0: nat, rotation: nat, b2: nat)
    ensures var h := DecodeHeader(b0, rotation, b2);
      h.horAlign == Field(b0, 0, 3) && h.wrapText == Bit(b0, 3) && h.verAlign == Field(b0, 4, 3) &&
      h.distributed == Bit(b0, 7) && h.textRotation == rotation &&
      h.indentLevel == Field(b2, 0, 4) && h.shrinkToFit == Bit(b2, 4) && h.readOrder == Field(b2, 6, 2)
  {
    Pow2Table();
    FlagField(b0, 0, 3, 0x07, 1);
    FlagBit(b0, 3, 0x08);
    FlagField(b0, 4, 3, 0x70, 16);
    FlagBit(b0, 7, 0x80);
    FlagField(b2, 0, 4, 0x0F, 1);
    FlagBit(b2, 4, 0x10);
    FlagField(b2, 6, 2, 0xC0, 64);
  }

  function DecodeBorders(b0: nat, b1: nat): Borders
  {
    Borders(BitAnd(b0, 0x0F), BitAnd(b0, 0xF0) / 16, BitAnd(b1, 0x0F), BitAnd(b1, 0xF0) / 16)
  }

  /** Each border style is one nibble: left and right in the first byte, top
      and bottom in the second. */
  lemma BorderFields(b0: nat, b1: nat)
    ensures var d := DecodeBorders(b0, b1);
      d.left == Field(b0, 0, 4) && d.right == Field(b0, 4, 4) &&
      d.top == Field(b1, 0, 4) && d.bottom == Field(b1, 4, 4)
  {
    Pow2Table();
    FlagField(b0, 0, 4, 0x0F, 1);
    FlagField(b0, 4, 4, 0xF0, 16);
    FlagField(b1, 0, 4, 0x0F, 1);
    FlagField(b1, 4, 4, 0xF0, 16);
  }

  /** `CellXF.parseBytes` once its bytes are read. */
  function DecodeCellXF(header: XFHeader, attr: nat, borders: Borders): XFData
  {
    CellXF(header, BitAnd(attr, 0x04) != 0, BitAnd(attr, 0x08) != 0, BitAnd(attr, 0x10) != 0,
      BitAnd(attr, 0x20) != 0, BitAnd(attr, 0x40) != 0, BitAnd(attr, 0x80) != 0, borders)
  }

  /** The six "attribute used" flags are bits 2 to 7 of the attribute byte. */
  lemma AttrBits(header: XFHeader, attr: nat, borders: Borders)
    ensures var d := DecodeCellXF(header, attr, borders);
      d.atrNum == Bit(attr, 2) && d.atrFnt == Bit(attr, 3) && d.atrAlc == Bit(attr, 4) &&
      d.atrBdr == Bit(attr, 5) && d.atrPat == Bit(attr, 6) && d.atrProt == Bit(attr, 7)
  {
    Pow2Table();
    FlagBit(attr, 2, 0x04);
    FlagBit(attr, 3, 0x08);
    FlagBit(attr, 4, 0x10);
    FlagBit(attr, 5, 0x20);
    FlagBit(attr, 6, 0x40);
    FlagBit(attr, 7, 0x80);
  }

  /** The right colour as `CellStyleXF.parseBytes` extracts it: the mask
      `0x0780` keeps four bits although the comment beside it, and the
      seven-bit colour index it decodes, call for seven. */
  function RightColorAsWritten(w: nat): nat
  {
    BitAnd(w, 0x0780) / 128
  }

  /** `CellStyleXF.parseBytes` once its bytes are read. With `corrected`
      false this is the code as written; with `corrected` true the right
      colour is taken as the seven bits 7-13. */
  function DecodeCellStyleXF(header: XFHeader, borders: Borders, w: nat, corrected: bool): XFData
  {
    CellStyleXF(header, borders, BitAnd(w, 0x007F),
      if corrected then BitAnd(w, 0x3F80) / 128 else RightColorAsWritten(w),
      BitAnd(w, 0xC000) / 16384)
  }

  /** The left colour is bits 0-6 of the colour word and the diagonal border
      bits 14-15; the right colour is bits 7-13 in the corrected reading and
      only bits 7-10 as written. */
  lemma ColorFields(header: XFHeader, borders: Borders, w: nat, corrected: bool)
    ensures var d := DecodeCellStyleXF(header, borders, w, corrected);
      d.leftColor == Field(w, 0, 7) && d.diagBorder == Field(w, 14, 2) &&
      d.rightColor == (if corrected then Field(w, 7, 7) else Field(w, 7, 4))
  {
    Pow2Table();
    FlagField(w, 0, 7, 0x007F, 1);
    FlagField(w, 7, 7, 0x3F80, 128);
    FlagField(w, 7, 4, 0x0780, 128);
    FlagField(w, 14, 2, 0xC000, 16384);
  }

  /** The as-written right colour is the intended seven-bit colour modulo 16. */
  lemma RightColorLowBits(w: nat)
    ensures Field(w, 7, 4) == Field(w, 7, 7) % 16
  {
    Pow2Table();
    var x := w / 128;
    var q, r := x / 128, x % 128;
    DivModUnique(x, 16, 8 * q + r / 16, r % 16);
  }

  /** As written, a right colour of 16 or more loses its upper bits: colour
      16 (bit 11) reads as 0. */
  lemma RightColorCounterexample()
    ensures Field(0x0800, 7, 7) == 16
    ensures RightColorAsWritten(0x0800) == 0
    ensures DecodeCellStyleXF(XFHeader(0, false, 0, false, 0, 0, false, 0), Borders(0, 0, 0, 0), 0x0800, false).rightColor == 0
    ensures DecodeCellStyleXF(XFHeader(0, false, 0, false, 0, 0, false, 0), Borders(0, 0, 0, 0), 0x0800, true).rightColor == 16
  {
    Pow2Table();
    FlagField(0x0800, 7, 4, 0x0780, 128);
    FlagField(0x0800, 7, 7, 0x3F80, 128);
    assert 0x0800 / 128 == 16;
  }

  // ---------------------------------------------------------------------
  // The record layout

  /** The bytes after the three words: 6 for a cell XF, 8 for a cell style XF. */
  function DataSize(style: bool): nat
  {
    if style then 8 else 6
  }

  function HeaderAt(b: seq<Byte>, p: nat): XFHeader
    requires p + 3 <= |b|
  {
    DecodeHeader(UInt(b, p, 1), UInt(b, p + 1, 1), UInt(b, p + 2, 1))
  }

  function BordersAt(b: seq<Byte>, p: nat): Borders
    requires p + 2 <= |b|
  {
    DecodeBorders(UInt(b, p, 1), UInt(b, p + 1, 1))
  }

  /** A cell XF is the header, an attribute byte and the borders; a cell style
      XF is the header, a skipped byte, the borders and the colour word. */
  function DataAt(b: seq<Byte>, p: nat, style: bool, corrected: bool): XFData
    requires p + DataSize(style) <= |b|
  {
    if style then DecodeCellStyleXF(HeaderAt(b, p), BordersAt(b, p + 4), UInt(b, p + 6, 2), corrected)
    else DecodeCellXF(HeaderAt(b, p), UInt(b, p + 3, 1), BordersAt(b, p + 4))
  }

  /** `XF.__parseBytes`, as written or with the corrected right colour. */
  function XFLayout(b: seq<Byte>, corrected: bool): Result<XF>
  {
    if |b| < 6 then Failure(BufferUnderrun)
    else
      var flags := UInt(b, 4, 2);
      var style := BitAnd(flags, 0x0004) != 0;
      if |b| < 6 + DataSize(style) then Failure(BufferUnderrun)
      else
        Success(XF(UInt(b, 0, 2), UInt(b, 2, 2), BitAnd(flags, 0x0001) != 0, BitAnd(flags, 0x0002) != 0,
          style, BitAnd(flags, 0x0008) != 0, BitAnd(flags, 0xFFF0) / 16, DataAt(b, 6, style, corrected)))
  }

  /** The flags word: locked is bit 0, hidden bit 1, style bit 2, prefix
      bit 3 and the parent style index bits 4-15; the style bit alone decides
      which layout follows and how many bytes the record needs. */
  lemma XFFlags(b: seq<Byte>, corrected: bool)
    requires |b| >= 6
    ensures var flags := UInt(b, 4, 2);
      (XFLayout(b, corrected).Success? <==> |b| >= 6 + DataSize(Bit(flags, 2))) &&
      (XFLayout(b, corrected).Success? ==>
        var x := XFLayout(b, corrected).value;
        x.locked == Bit(flags, 0) && x.hidden == Bit(flags, 1) && x.style == Bit(flags, 2) &&
        x.prefix == Bit(flags, 3) && x.cellStyleXFIndex == Field(flags, 4, 12) &&
        x.data.CellStyleXF? == x.style)
  {
    var flags := UInt(b, 4, 2);
    Pow2Table();
    FlagBit(flags, 0, 0x0001);
    FlagBit(flags, 1, 0x0002);
    FlagBit(flags, 2, 0x0004);
    FlagBit(flags, 3, 0x0008);
    FlagField(flags, 4, 12, 0xFFF0, 16);
  }

  // ---------------------------------------------------------------------
  // Encoding

  function HeaderBytes(h: XFHeader): seq<Byte>
    requires HeaderFits(h)
  {
    AlignByte(h.horAlign, h.wrapText, h.verAlign, h.distributed);
    IndentByte(h.indentLevel, h.shrinkToFit, h.readOrder);
    [PackBits([3, 1, 3, 1], [h.horAlign, B2N(h.wrapText), h.verAlign, B2N(h.distributed)]) as Byte,
     h.textRotation as Byte,
     PackBits([4, 1, 1, 2], [h.indentLevel, B2N(h.shrinkToFit), 0, h.readOrder]) as Byte]
  }

  predicate HeaderFits(h: XFHeader)
  {
    h.horAlign < 8 && h.verAlign < 8 && h.textRotation < 256 && h.indentLevel < 16 && h.readOrder < 4
  }

  /** The first header byte packs four fields and stays within a byte. */
  lemma AlignByte(horAlign: nat, wrapText: bool, verAlign: nat, distributed: bool)
    requires horAlign < 8 && verAlign < 8
    ensures var v := PackBits([3, 1, 3, 1], [horAlign, B2N(wrapText), verAlign, B2N(distributed)]);
      v < 256 && Field(v, 0, 3) == horAlign && Bit(v, 3) == wrapText && Field(v, 4, 3) == verAlign &&
      Bit(v, 7) == distributed
  {
    var ws, vs := [3, 1, 3, 1], [horAlign, B2N(wrapText), verAlign, B2N(distributed)];
    Pow2Table();
    assert FitsWidths(ws, vs);
    assert Offset(ws, 4) == 8 && Offset(ws, 3) == 7 && Offset(ws, 2) == 4 && Offset(ws, 1) == 3;
    PackBitsBound(ws, vs);
    FieldOfPack(ws, vs, 0);
    FieldOfPack(ws, vs, 1);
    FieldOfPack(ws, vs, 2);
    FieldOfPack(ws, vs, 3);
  }

  /** The third header byte packs the indentation, shrink-to-fit and the
      reading order. */
  lemma IndentByte(indentLevel: nat, shrinkToFit: bool, readOrder: nat)
    requires indentLevel < 16 && readOrder < 4
    ensures var v := PackBits([4, 1, 1, 2], [indentLevel, B2N(shrinkToFit), 0, readOrder]);
      v < 256 && Field(v, 0, 4) == indentLevel && Bit(v, 4) == shrinkToFit && Field(v, 6, 2) == readOrder
  {
    var ws, vs := [4, 1, 1, 2], [indentLevel, B2N(shrinkToFit), 0, readOrder];
    Pow2Table();
    assert FitsWidths(ws, vs);
    assert Offset(ws, 4) == 8 && Offset(ws, 3) == 6 && Offset(ws, 1) == 4;
    PackBitsBound(ws, vs);
    FieldOfPack(ws, vs, 0);
    FieldOfPack(ws, vs, 1);
    FieldOfPack(ws, vs, 3);
  }

  /** The three header bytes decode to the header they encode. */
  lemma HeaderRoundTrip(h: XFHeader)
    requires HeaderFits(h)
    ensures var e := HeaderBytes(h); DecodeHeader(e[0], e[1], e[2]) == h
  {
    AlignByte(h.horAlign, h.wrapText, h.verAlign, h.distributed);
    IndentByte(h.indentLevel, h.shrinkToFit, h.readOrder);
    var e := HeaderBytes(h);
    HeaderFields(e[0], e[1], e[2]);
  }

  function NibblePair(lo: nat, hi: nat): nat
  {
    PackBits([4, 4], [lo, hi])
  }

  lemma NibbleFields(lo: nat, hi: nat)
    requires lo < 16 && hi < 16
    ensures var v := NibblePair(lo, hi); v < 256 && Field(v, 0, 4) == lo && Field(v, 4, 4) == hi
  {
    var ws, vs := [4, 4], [lo, hi];
    Pow2Table();
    assert FitsWidths(ws, vs);
    assert Offset(ws, 2) == 8 && Offset(ws, 1) == 4;
    PackBitsBound(ws, vs);
    FieldOfPack(ws, vs, 0);
    FieldOfPack(ws, vs, 1);
  }

  predicate BordersFit(d: Borders)
  {
    d.left < 16 && d.right < 16 && d.top < 16 && d.bottom < 16
  }

  function BorderBytes(d: Borders): seq<Byte>
    requires BordersFit(d)
  {
    NibbleFields(d.left, d.right);
    NibbleFields(d.top, d.bottom);
    [NibblePair(d.left, d.right) as Byte, NibblePair(d.top, d.bottom) as Byte]
  }

  lemma BordersRoundTrip(d: Borders)
    requires BordersFit(d)
    ensures var e := BorderBytes(d); DecodeBorders(e[0], e[1]) == d
  {
    var e := BorderBytes(d);
    NibbleFields(d.left, d.right);
    NibbleFields(d.top, d.bottom);
    BorderFields(e[0], e[1]);
  }

  /** The attribute byte's fields, least significant first: two unused bits
      and the six flags. */
  function AttrFlags(d: XFData): seq<nat>
    requires d.CellXF?
  {
    [0, B2N(d.atrNum), B2N(d.atrFnt), B2N(d.atrAlc), B2N(d.atrBdr), B2N(d.atrPat), B2N(d.atrProt)]
  }

  function AttrByte(d: XFData): nat
    requires d.CellXF?
  {
    PackBits([2, 1, 1, 1, 1, 1, 1], AttrFlags(d))
  }

  lemma AttrByteFields(d: XFData)
    requires d.CellXF?
    ensures var v := AttrByte(d);
      v < 256 && Field(v, 2, 1) == B2N(d.atrNum) && Field(v, 3, 1) == B2N(d.atrFnt) &&
      Field(v, 4, 1) == B2N(d.atrAlc) && Field(v, 5, 1) == B2N(d.atrBdr) &&
      Field(v, 6, 1) == B2N(d.atrPat) && Field(v, 7, 1) == B2N(d.atrProt)
  {
    var vs := AttrFlags(d);
    assert FitsWidths([2, 1, 1, 1, 1, 1, 1], vs) by {
      assert Pow2(1) == 2 && Pow2(2) == 4;
    }
    AttrPackLow(vs);
    AttrPackHigh(vs);
  }

  /** Seven fields of widths 2, 1, 1, 1, 1, 1, 1 fit a byte; the first three flags read back. */
  lemma AttrPackLow(vs: seq<nat>)
    requires FitsWidths([2, 1, 1, 1, 1, 1, 1], vs)
    ensures var v := PackBits([2, 1, 1, 1, 1, 1, 1], vs);
      v < 256 && Field(v, 2, 1) == vs[1] && Field(v, 3, 1) == vs[2] && Field(v, 4, 1) == vs[3]
  {
    var ws := [2, 1, 1, 1, 1, 1, 1];
    Pow2Table();
    assert Offset(ws, 7) == 8 && Offset(ws, 3) == 4 && Offset(ws, 2) == 3 && Offset(ws, 1) == 2;
    PackBitsBound(ws, vs);
    FieldOfPack(ws, vs, 1);
    FieldOfPack(ws, vs, 2);
    FieldOfPack(ws, vs, 3);
  }

  lemma AttrPackHigh(vs: seq<nat>)
    requires FitsWidths([2, 1, 1, 1, 1, 1, 1], vs)
    ensures var v := PackBits([2, 1, 1, 1, 1, 1, 1], vs);
      Field(v, 5, 1) == vs[4] && Field(v, 6, 1) == vs[5] && Field(v, 7, 1) == vs[6]
  {
    var ws := [2, 1, 1, 1, 1, 1, 1];
    Pow2Table();
    assert Offset(ws, 6) == 7 && Offset(ws, 5) == 6 && Offset(ws, 4) == 5;
    FieldOfPack(ws, vs, 4);
    FieldOfPack(ws, vs, 5);
    FieldOfPack(ws, vs, 6);
  }

  function ColorWord(d: XFData): nat
    requires d.CellStyleXF?
  {
    PackBits([7, 7, 2], [d.leftColor, d.rightColor, d.diagBorder])
  }

  lemma ColorWordFields(d: XFData)
    requires d.CellStyleXF? && d.leftColor < 128 && d.rightColor < 128 && d.diagBorder < 4
    ensures var w := ColorWord(d);
      w < 0x1_0000 && Field(w, 0, 7) == d.leftColor && Field(w, 7, 7) == d.rightColor &&
      Field(w, 14, 2) == d.diagBorder
  {
    var ws, vs := [7, 7, 2], [d.leftColor, d.rightColor, d.diagBorder];
    Pow2Table();
    assert FitsWidths(ws, vs);
    assert Offset(ws, 3) == 16 && Offset(ws, 2) == 14 && Offset(ws, 1) == 7;
    PackBitsBound(ws, vs);
    FieldOfPack(ws, vs, 0);
    FieldOfPack(ws, vs, 1);
    FieldOfPack(ws, vs, 2);
  }

  predicate DataFits(d: XFData)
  {
    HeaderFits(d.header) && BordersFit(d.borders) &&
    (d.CellStyleXF? ==> d.leftColor < 128 && d.rightColor < 128 && d.diagBorder < 4)
  }

  function EncodeData(d: XFData): (e: seq<Byte>)
    requires DataFits(d)
    ensures |e| == DataSize(d.CellStyleXF?)
  {
    match d
    case CellXF(_, _, _, _, _, _, _, _) =>
      AttrByteFields(d);
      HeaderBytes(d.header) + [AttrByte(d) as Byte] + BorderBytes(d.borders)
    case CellStyleXF(_, _, _, _, _) =>
      ColorWordFields(d);
      HeaderBytes(d.header) + [0] + BorderBytes(d.borders) + ToLE(ColorWord(d), 2)
  }

  predicate XFFits(x: XF)
  {
    x.fontId < 0x1_0000 && x.numId < 0x1_0000 && x.cellStyleXFIndex < 0x1000 &&
    x.style == x.data.CellStyleXF? && DataFits(x.data)
  }

  function FlagsWord(x: XF): nat
  {
    PackBits([1, 1, 1, 1, 12], [B2N(x.locked), B2N(x.hidden), B2N(x.style), B2N(x.prefix), x.cellStyleXFIndex])
  }

  lemma FlagsWordFields(x: XF)
    requires x.cellStyleXFIndex < 0x1000
    ensures var w := FlagsWord(x);
      w < 0x1_0000 && Bit(w, 0) == x.locked && Bit(w, 1) == x.hidden && Bit(w, 2) == x.style &&
      Bit(w, 3) == x.prefix && Field(w, 4, 12) == x.cellStyleXFIndex
  {
    var ws, vs := [1, 1, 1, 1, 12], [B2N(x.locked), B2N(x.hidden), B2N(x.style), B2N(x.prefix), x.cellStyleXFIndex];
    Pow2Table();
    assert FitsWidths(ws, vs);
    FlagsPack(vs);
  }

  /** Four one-bit fields and a 12-bit index fit a 16-bit word and read back. */
  lemma FlagsPack(vs: seq<nat>)
    requires FitsWidths([1, 1, 1, 1, 12], vs)
    ensures var w := PackBits([1, 1, 1, 1, 12], vs);
      w < 0x1_0000 && Field(w, 0, 1) == vs[0] && Field(w, 1, 1) == vs[1] && Field(w, 2, 1) == vs[2] &&
      Field(w, 3, 1) == vs[3] && Field(w, 4, 12) == vs[4]
  {
    var ws := [1, 1, 1, 1, 12];
    Pow2Table();
    assert Offset(ws, 5) == 16 && Offset(ws, 4) == 4 && Offset(ws, 3) == 3 && Offset(ws, 2) == 2;
    assert Offset(ws, 1) == 1;
    PackBitsBound(ws, vs);
    FieldOfPack(ws, vs, 0);
    FieldOfPack(ws, vs, 1);
    FieldOfPack(ws, vs, 2);
    FieldOfPack(ws, vs, 3);
    FieldOfPack(ws, vs, 4);
  }

  function EncodeXF(x: XF): seq<Byte>
    requires XFFits(x)
  {
    Pack16([x.fontId, x.numId, FlagsWord(x)]) + EncodeData(x.data)
  }

  /** The layout bytes, wherever they sit, decode to the data they encode
      in the corrected reading; as written, they do so exactly when the data
      is a cell XF or its right colour is below 16, and otherwise the right
      colour comes back modulo 16. */
  lemma DataRoundTrip(d: XFData, b: seq<Byte>, p: nat)
    requires DataFits(d) && p + DataSize(d.CellStyleXF?) <= |b|
    requires b[p..p + DataSize(d.CellStyleXF?)] == EncodeData(d)
    ensures DataAt(b, p, d.CellStyleXF?, true) == d
    ensures DataAt(b, p, d.CellStyleXF?, false) == d <==> (d.CellXF? || d.rightColor < 16)
    ensures d.CellStyleXF? ==>
      DataAt(b, p, true, false) == d.(rightColor := d.rightColor % 16)
  {
    CommonRoundTrip(d, b, p);
    if d.CellXF? {
      CellRoundTrip(d, b, p);
    } else {
      StyleRoundTrip(d, b, p);
    }
  }

  /** The attribute byte of a cell layout; the colour reading plays no part. */
  lemma CellRoundTrip(d: XFData, b: seq<Byte>, p: nat)
    requires d.CellXF? && DataFits(d) && p + 6 <= |b| && b[p..p + 6] == EncodeData(d)
    requires HeaderAt(b, p) == d.header && BordersAt(b, p + 4) == d.borders
    ensures DataAt(b, p, false, true) == d && DataAt(b, p, false, false) == d
  {
    ByteOf(b, p, EncodeData(d), 3);
    AttrByteFields(d);
    AttrBits(d.header, AttrByte(d), d.borders);
  }

  /** The colour word of a cell style layout, in both readings. */
  lemma StyleRoundTrip(d: XFData, b: seq<Byte>, p: nat)
    requires d.CellStyleXF? && DataFits(d) && p + 8 <= |b| && b[p..p + 8] == EncodeData(d)
    requires HeaderAt(b, p) == d.header && BordersAt(b, p + 4) == d.borders
    ensures DataAt(b, p, true, true) == d
    ensures DataAt(b, p, true, false) == d.(rightColor := d.rightColor % 16)
    ensures DataAt(b, p, true, false) == d <==> d.rightColor < 16
  {
    var w := ColorWord(d);
    ColorWordFields(d);
    ColorAt(b, p, EncodeData(d), w);
    ColorFields(d.header, d.borders, w, true);
    ColorFields(d.header, d.borders, w, false);
    RightColorLowBits(w);
    var rc := d.rightColor;
    assert d.(rightColor := rc % 16) == d <==> rc % 16 == rc;
    SmallModulo(rc, 16);
  }

  lemma SmallModulo(n: nat, m: nat)
    requires m > 0
    ensures n % m == n <==> n < m
  {
    if n >= m {
      assert n % m < m;
    }
  }

  /** Both layouts start with the header bytes and have the border bytes at 4. */
  lemma CommonRoundTrip(d: XFData, b: seq<Byte>, p: nat)
    requires DataFits(d) && p + DataSize(d.CellStyleXF?) <= |b|
    requires b[p..p + DataSize(d.CellStyleXF?)] == EncodeData(d)
    ensures HeaderAt(b, p) == d.header && BordersAt(b, p + 4) == d.borders
  {
    var e := EncodeData(d);
    assert e[..3] == HeaderBytes(d.header) && e[4..6] == BorderBytes(d.borders);
    ByteOf(b, p, e, 0);
    ByteOf(b, p, e, 1);
    ByteOf(b, p, e, 2);
    ByteOf(b, p, e, 4);
    ByteOf(b, p, e, 5);
    HeaderRoundTrip(d.header);
    BordersRoundTrip(d.borders);
  }

  /** The colour word in the last two bytes of a cell style layout. */
  lemma ColorAt(b: seq<Byte>, p: nat, e: seq<Byte>, w: nat)
    requires |e| == 8 && p + 8 <= |b| && b[p..p + 8] == e && e[6..] == ToLE(w, 2) && w < 0x1_0000
    ensures UInt(b, p + 6, 2) == w
  {
    UIntIn(b, p, e, 6, 2);
    assert e == e[..6] + ToLE(w, 2) + [];
    UIntAt(e[..6], w, 2, []);
  }

  /** Byte `k` of a part placed at `p`, read as a one-byte field. */
  lemma ByteOf(b: seq<Byte>, p: nat, e: seq<Byte>, k: nat)
    requires p + |e| <= |b| && b[p..p + |e|] == e && k < |e|
    ensures UInt(b, p + k, 1) == e[k]
  {
    assert b[p + k] == e[k];
    assert b[p + k..p + k + 1] == [e[k]];
  }

  /** An encoded record decodes to the same XF, whatever follows it, in the
      corrected reading; as written, exactly when its right colour (if any)
      is below 16. */
  lemma XFRoundTrip(x: XF, junk: seq<Byte>)
    requires XFFits(x)
    ensures XFLayout(EncodeXF(x) + junk, true) == Success(x)
    ensures XFLayout(EncodeXF(x) + junk, false) == Success(x) <==> (x.data.CellXF? || x.data.rightColor < 16)
  {
    EncodedFields(x, junk, true);
    EncodedFields(x, junk, false);
    LayoutOfData(x, EncodeXF(x) + junk);
  }

  /** A record whose data bytes encode the data of `x`, and whose words are
      those of `x`, decodes to `x` when its data does. */
  lemma LayoutOfData(x: XF, b: seq<Byte>)
    requires XFFits(x) && 6 + DataSize(x.style) <= |b| && b[6..6 + DataSize(x.style)] == EncodeData(x.data)
    requires XFLayout(b, true) == Success(x.(data := DataAt(b, 6, x.style, true)))
    requires XFLayout(b, false) == Success(x.(data := DataAt(b, 6, x.style, false)))
    ensures XFLayout(b, true) == Success(x)
    ensures XFLayout(b, false) == Success(x) <==> (x.data.CellXF? || x.data.rightColor < 16)
  {
    DataRoundTrip(x.data, b, 6);
    SameData(x, XFLayout(b, false), DataAt(b, 6, x.style, false));
  }

  lemma SameData(x: XF, r: Result<XF>, d: XFData)
    requires r == Success(x.(data := d))
    ensures r == Success(x) <==> d == x.data
  {
  }

  /** An encoded record decodes to its three words, and to whatever its data
      bytes decode to in the given reading. */
  lemma EncodedFields(x: XF, junk: seq<Byte>, corrected: bool)
    requires XFFits(x)
    ensures var b := EncodeXF(x) + junk;
      6 + DataSize(x.style) <= |b| && b[6..6 + DataSize(x.style)] == EncodeData(x.data) &&
      XFLayout(b, corrected) == Success(x.(data := DataAt(b, 6, x.style, corrected)))
  {
    var vs := [x.fontId, x.numId, FlagsWord(x)];
    var b := EncodeXF(x) + junk;
    FlagsWordFields(x);
    assert Fit16(vs);
    WordsThenData(vs, EncodeData(x.data), junk);
    XFFlags(b, corrected);
  }

  /** Three packed words, then a block, then anything: the words read back
      and the block sits at offset 6. */
  lemma WordsThenData(vs: seq<nat>, d: seq<Byte>, junk: seq<Byte>)
    requires Fit16(vs) && |vs| == 3
    ensures var b := Pack16(vs) + d + junk;
      |b| == 6 + |d| + |junk| && UInt(b, 0, 2) == vs[0] && UInt(b, 2, 2) == vs[1] && UInt(b, 4, 2) == vs[2] &&
      b[6..6 + |d|] == d
  {
    var b := Pack16(vs) + d + junk;
    assert b == Pack16(vs) + (d + junk);
    Pack16Prefix(vs, d + junk, 0);
    Pack16Prefix(vs, d + junk, 1);
    Pack16Prefix(vs, d + junk, 2);
    Pack16At(vs, 0);
  }

  // ---------------------------------------------------------------------
  // printBorderStyle

  const BorderStyles: seq<(string, string)> := [
    ("NONE", "No border"), ("THIN", "Thin line"), ("MEDIUM", "Medium line"),
    ("DASHED", "Dashed line"), ("DOTTED", "Dotted line"), ("THICK", "Thick line"),
    ("DOUBLE", "Double line"), ("HAIR", "Hairline"), ("MEDIUMDASHED", "Medium dashed line"),
    ("DASHDOT", "Dash-dot line"), ("MEDIUMDASHDOT", "Medium dash-dot line"),
    ("DASHDOTDOT", "Dash-dot-dot line"), ("MEDIUMDASHDOTDOT", "Medium dash-dot-dot line"),
    ("SLANTDASHDOT", "Slanted dash-dot-dot line")]

  function PrintBorderStyle(val: nat): string
  {
    if val >= |BorderStyles| then "(unknown)"
    else BorderStyles[val].0 + " - " + BorderStyles[val].1 + " (0x" + Hex(val, 2, true) + ")"
  }

  /** The table has 14 styles; a value past it is "(unknown)", and a known
      one starts with its style name and ends with its two-digit hex code. */
  lemma BorderStyleNames(val: nat)
    ensures |BorderStyles| == 14
    ensures val >= 14 ==> PrintBorderStyle(val) == "(unknown)"
    ensures val < 14 ==>
      var r, name := PrintBorderStyle(val), BorderStyles[val].0;
      |r| >= |name| + 5 && r[..|name|] == name && r[|r| - 1] == ')' && ValueOf(r[|r| - 3..|r| - 1], 16) == val
  {
    if val < 14 {
      assert Pow16(2) == 256;
      HexWidth(val, 2, true);
      HexRoundTrip(val, 2, true);
      Framed(BorderStyles[val].0, BorderStyles[val].1, Hex(val, 2, true));
    }
  }

  lemma Framed(name: string, desc: string, h: string)
    requires |h| == 2
    ensures var r := name + " - " + desc + " (0x" + h + ")";
      |r| >= |name| + 5 && r[..|name|] == name && r[|r| - 1] == ')' && r[|r| - 3..|r| - 1] == h
  {
    var r := name + " - " + desc + " (0x" + h + ")";
    assert r == name + (" - " + desc + " (0x") + h + ")";
    assert r[..|name|] == name;
    assert r[|r| - 3..|r| - 1] == h;
  }

  // ---------------------------------------------------------------------
  // Parsing

  /** `XFBase.parseHeaderBytes`. */
  method ReadHeaderBytes(s: ByteStream) returns (r: Result<XFHeader>)
    requires s.Valid()
    modifies s
    ensures s.Valid()
    ensures r.Success? <==> old(s.pos) + 3 <= |s.bytes|
    ensures r.Success? ==> s.pos == old(s.pos) + 3 && r.value == HeaderAt(s.bytes, old(s.pos))
    ensures r.Failure? ==> r.error == BufferUnderrun
  {
    var b0 :- s.ReadUnsignedInt(1);
    var textRotation :- s.ReadUnsignedInt(1);
    var b2 :- s.ReadUnsignedInt(1);
    r := Success(XFHeader(BitAnd(b0, 0x07), BitAnd(b0, 0x08) != 0, BitAnd(b0, 0x70) / 16, BitAnd(b0, 0x80) != 0,
      textRotation, BitAnd(b2, 0x0F), BitAnd(b2, 0x10) != 0, BitAnd(b2, 0xC0) / 64));
  }

  /** `XFBase.parseBorderStyles`. */
  method ReadBorderStyles(s: ByteStream) returns (r: Result<Borders>)
    requires s.Valid()
    modifies s
    ensures s.Valid()
    ensures r.Success? <==> old(s.pos) + 2 <= |s.bytes|
    ensures r.Success? ==> s.pos == old(s.pos) + 2 && r.value == BordersAt(s.bytes, old(s.pos))
    ensures r.Failure? ==> r.error == BufferUnderrun
  {
    var b0 :- s.ReadUnsignedInt(1);
    var b1 :- s.ReadUnsignedInt(1);
    r := Success(Borders(BitAnd(b0, 0x0F), BitAnd(b0, 0xF0) / 16, BitAnd(b1, 0x0F), BitAnd(b1, 0xF0) / 16));
  }

  /** `CellXF.parseBytes`. */
  method ReadCellXF(s: ByteStream) returns (r: Result<XFData>)
    requires s.Valid()
    modifies s
    ensures s.Valid()
    ensures r.Success? <==> old(s.pos) + 6 <= |s.bytes|
    ensures r.Success? ==> s.pos == old(s.pos) + 6 && r.value == DataAt(s.bytes, old(s.pos), false, false)
    ensures r.Failure? ==> r.error == BufferUnderrun
  {
    var header :- ReadHeaderBytes(s);
    var attr :- s.ReadUnsignedInt(1);
    var borders :- ReadBorderStyles(s);
    r := Success(DecodeCellXF(header, attr, borders));
  }

  /** `CellStyleXF.parseBytes`, as written or with the corrected right colour. */
  method ReadCellStyleXF(s: ByteStream, corrected: bool) returns (r: Result<XFData>)
    requires s.Valid()
    modifies s
    ensures s.Valid()
    ensures r.Success? <==> old(s.pos) + 8 <= |s.bytes|
    ensures r.Success? ==> s.pos == old(s.pos) + 8 && r.value == DataAt(s.bytes, old(s.pos), true, corrected)
    ensures r.Failure? ==> r.error == BufferUnderrun
  {
    var header :- ReadHeaderBytes(s);
    var skipped :- s.ReadUnsignedInt(1);
    var borders :- ReadBorderStyles(s);
    var w :- s.ReadUnsignedInt(2);
    var rightColor := if corrected then BitAnd(w, 0x3F80) / 128 else BitAnd(w, 0x0780) / 128;
    r := Success(CellStyleXF(header, borders, BitAnd(w, 0x007F), rightColor, BitAnd(w, 0xC000) / 16384));
  }

  /** `XF.__parseBytes`, as written or with the corrected right colour. */
  method ParseXF(s: ByteStream, corrected: bool) returns (r: Result<XF>)
    requires s.Valid() && s.pos == 0
    modifies s
    ensures s.Valid()
    ensures r == XFLayout(s.bytes, corrected)
    ensures r.Success? ==> s.pos == 6 + DataSize(r.value.style)
  {
    var fontId :- s.ReadUnsignedInt(2);
    var numId :- s.ReadUnsignedInt(2);
    var flags :- s.ReadUnsignedInt(2);
    var style := BitAnd(flags, 0x0004) != 0;
    var data: XFData;
    if style {
      data :- ReadCellStyleXF(s, corrected);
    } else {
      data :- ReadCellXF(s);
    }
    r := Success(XF(fontId, numId, BitAnd(flags, 0x0001) != 0, BitAnd(flags, 0x0002) != 0, style,
      BitAnd(flags, 0x0008) != 0, BitAnd(flags, 0xFFF0) / 16, data));
  }
}
