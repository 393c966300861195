/** Conditional formatting: the CONDFMT record that names the formatted range
    and its hit ranges, the CF record that holds one condition and the
    differential format (DXFN) it applies, and the eight-byte range reference
    (Ref8U) both CONDFMT and DV use. */
module Cf {
  import opened Bits
  import opened Stream
  import opened Collab
  import opened Workbook

  // ---------------------------------------------------------------------
  // Ref8U

  datatype Ref8U = Ref8U(row1: nat, row2: nat, col1: nat, col2: nat)

  /** Four 16-bit words: first row, last row, first column, last column. */
  function Ref8UAt(b: seq<Byte>, off: nat): Ref8U
    requires off + 8 <= |b|
  {
    Ref8U(UInt(b, off, 2), UInt(b, off + 2, 2), UInt(b, off + 4, 2), UInt(b, off + 6, 2))
  }

  /** `n` consecutive references starting at `off`. */
  function RefsAt(b: seq<Byte>, off: nat, n: nat): seq<Ref8U>
    requires off + 8 * n <= |b|
  {
    seq(n, i requires 0 <= i < n => Ref8UAt(b, off + 8 * i))
  }

  function Ref8UWords(r: Ref8U): seq<nat>
  {
    [r.row1, r.row2, r.col1, r.col2]
  }

  function RefParts(rs: seq<Ref8U>): seq<seq<Byte>>
  {
    seq(|rs|, i requires 0 <= i < |rs| => Pack16(Ref8UWords(rs[i])))
  }

  predicate RefsFit(rs: seq<Ref8U>)
  {
    forall i :: 0 <= i < |rs| ==> Fit16(Ref8UWords(rs[i]))
  }

  lemma RefPartsWidth(rs: seq<Ref8U>)
    requires RefsFit(rs)
    ensures forall i :: 0 <= i < |rs| ==> |RefParts(rs)[i]| == 8
    ensures |Flat(RefParts(rs))| == 8 * |rs|
  {
    forall i | 0 <= i < |rs|
      ensures |RefParts(rs)[i]| == 8
    {
      Pack16At(Ref8UWords(rs[i]), 0);
    }
    FlatLength(RefParts(rs), 8);
  }

  /** References laid end to end read back in order. */
  lemma RefsRoundTrip(b: seq<Byte>, off: nat, rs: seq<Ref8U>)
    requires RefsFit(rs)
    requires off + |Flat(RefParts(rs))| <= |b| && b[off..off + |Flat(RefParts(rs))|] == Flat(RefParts(rs))
    ensures off + 8 * |rs| <= |b| && RefsAt(b, off, |rs|) == rs
  {
    RefPartsWidth(rs);
    forall i | 0 <= i < |rs|
      ensures Ref8UAt(b, off + 8 * i) == rs[i]
    {
      RefRoundTrip(b, off, rs, i);
    }
  }

  /** The `i`-th of the references laid end to end. */
  lemma RefRoundTrip(b: seq<Byte>, off: nat, rs: seq<Ref8U>, i: nat)
    requires RefsFit(rs) && i < |rs|
    requires forall j :: 0 <= j < |rs| ==> |RefParts(rs)[j]| == 8
    requires off + |Flat(RefParts(rs))| <= |b| && b[off..off + |Flat(RefParts(rs))|] == Flat(RefParts(rs))
    ensures off + 8 * i + 8 <= |b| && Ref8UAt(b, off + 8 * i) == rs[i]
  {
    var parts, ws := RefParts(rs), Ref8UWords(rs[i]);
    assert parts[i] == Pack16(ws);
    FieldOfFlat(b, off, parts, 8, i, 0, 2);
    FieldOfFlat(b, off, parts, 8, i, 2, 2);
    FieldOfFlat(b, off, parts, 8, i, 4, 2);
    FieldOfFlat(b, off, parts, 8, i, 6, 2);
    Pack16At(ws, 0);
    Pack16At(ws, 1);
    Pack16At(ws, 2);
    Pack16At(ws, 3);
  }

  /** `Ref8U.__init__`. */
  method ReadRef8U(s: ByteStream) returns (r: Result<Ref8U>)
    requires s.Valid()
    modifies s
    ensures s.Valid()
    ensures r.Success? <==> old(s.pos) + 8 <= |s.bytes|
    ensures r.Success? ==> s.pos == old(s.pos) + 8 && r.value == Ref8UAt(s.bytes, old(s.pos))
    ensures r.Failure? ==> r.error == BufferUnderrun
  {
    var row1 :- s.ReadUnsignedInt(2);
    var row2 :- s.ReadUnsignedInt(2);
    var col1 :- s.ReadUnsignedInt(2);
    var col2 :- s.ReadUnsignedInt(2);
    r := Success(Ref8U(row1, row2, col1, col2));
  }

  lemma RefsAtSnoc(b: seq<Byte>, off: nat, n: nat)
    requires off + 8 * n + 8 <= |b|
    ensures RefsAt(b, off, n + 1) == RefsAt(b, off, n) + [Ref8UAt(b, off + 8 * n)]
  {
  }

  /** `n` references read one after the other. */
  method ReadRefs(s: ByteStream, n: nat) returns (r: Result<seq<Ref8U>>)
    requires s.Valid()
    modifies s
    ensures s.Valid()
    ensures r.Success? <==> old(s.pos) + 8 * n <= |s.bytes|
    ensures r.Success? ==> s.pos == old(s.pos) + 8 * n && r.value == RefsAt(s.bytes, old(s.pos), n)
    ensures r.Failure? ==> r.error == BufferUnderrun
  {
    var p := s.pos;
    var refs: seq<Ref8U> := [];
    var i := 0;
    while i < n
      invariant 0 <= i <= n && s.Valid() && s.pos == p + 8 * i
      invariant refs == RefsAt(s.bytes, p, i)
    {
      var ref :- ReadRef8U(s);
      RefsAtSnoc(s.bytes, p, i);
      refs := refs + [ref];
      i := i + 1;
    }
    r := Success(refs);
  }

  // ---------------------------------------------------------------------
  // CONDFMT

  datatype CondFmt = CondFmt(cfCount: nat, toughRecalc: bool, recordID: nat,
                             refBound: Ref8U, hitRanges: seq<Ref8U>)

  /** The CF count, a flag word, the bounding range, then a count of hit
      ranges and that many eight-byte ranges. */
  function CondFmtLayout(b: seq<Byte>): Result<CondFmt>
  {
    if |b| < 14 then Failure(BufferUnderrun)
    else
      var n := UInt(b, 12, 2);
      if |b| < 14 + 8 * n then Failure(BufferUnderrun)
      else
        var tmp := UInt(b, 2, 2);
        Success(CondFmt(UInt(b, 0, 2), BitAnd(tmp, 0x01) != 0, BitAnd(tmp, 0xFE) / 2,
          Ref8UAt(b, 4), RefsAt(b, 14, n)))
  }

  /** Tough recalculation is bit 0 of the flag word and the record id bits 1 to 7. */
  lemma CondFmtFlags(b: seq<Byte>)
    requires CondFmtLayout(b).Success?
    ensures CondFmtLayout(b).value.toughRecalc == Bit(UInt(b, 2, 2), 0)
    ensures CondFmtLayout(b).value.recordID == Field(UInt(b, 2, 2), 1, 7)
  {
    Pow2Table();
    FlagBit(UInt(b, 2, 2), 0, 0x01);
    FlagField(UInt(b, 2, 2), 1, 7, 0xFE, 2);
  }

  function CondFmtFlagWord(toughRecalc: bool, recordID: nat): nat
  {
    PackBits([1, 7], [B2N(toughRecalc), recordID])
  }

  lemma CondFmtFlagWordFields(toughRecalc: bool, recordID: nat)
    requires recordID < 0x80
    ensures var f := CondFmtFlagWord(toughRecalc, recordID);
      f < 0x1_0000 && (BitAnd(f, 0x01) != 0) == toughRecalc && BitAnd(f, 0xFE) / 2 == recordID
  {
    var ws, vs := [1, 7], [B2N(toughRecalc), recordID];
    var f := PackBits(ws, vs);
    Pow2Table();
    assert FitsWidths(ws, vs);
    PackBitsBound(ws, vs);
    FieldOfPack(ws, vs, 0);
    FieldOfPack(ws, vs, 1);
    FlagBit(f, 0, 0x01);
    FlagField(f, 1, 7, 0xFE, 2);
  }

  function CondFmtHead(cf: CondFmt): seq<nat>
  {
    [cf.cfCount, CondFmtFlagWord(cf.toughRecalc, cf.recordID)] + Ref8UWords(cf.refBound) + [|cf.hitRanges|]
  }

  function EncodeCondFmt(cf: CondFmt): seq<Byte>
  {
    Pack16(CondFmtHead(cf)) + Flat(RefParts(cf.hitRanges))
  }

  predicate CondFmtFits(cf: CondFmt)
  {
    cf.cfCount < 0x1_0000 && cf.recordID < 0x80 && Fit16(Ref8UWords(cf.refBound)) &&
    |cf.hitRanges| < 0x1_0000 && RefsFit(cf.hitRanges)
  }

  lemma CondFmtHeadFields(cf: CondFmt, post: seq<Byte>)
    requires CondFmtFits(cf)
    ensures var b := Pack16(CondFmtHead(cf)) + post;
      |Pack16(CondFmtHead(cf))| == 14 &&
      UInt(b, 0, 2) == cf.cfCount && UInt(b, 2, 2) == CondFmtFlagWord(cf.toughRecalc, cf.recordID) &&
      Ref8UAt(b, 4) == cf.refBound && UInt(b, 12, 2) == |cf.hitRanges|
  {
    var hs := CondFmtHead(cf);
    CondFmtFlagWordFields(cf.toughRecalc, cf.recordID);
    assert Fit16(hs) && |hs| == 7;
    Pack16At(hs, 0);
    Pack16Prefix(hs, post, 0);
    Pack16Prefix(hs, post, 1);
    Pack16Prefix(hs, post, 2);
    Pack16Prefix(hs, post, 3);
    Pack16Prefix(hs, post, 4);
    Pack16Prefix(hs, post, 5);
    Pack16Prefix(hs, post, 6);
  }

  /** Encoding then decoding gives the record back; bytes after the counted
      ranges are not read. */
  lemma CondFmtRoundTrip(cf: CondFmt, junk: seq<Byte>)
    requires CondFmtFits(cf)
    ensures CondFmtLayout(EncodeCondFmt(cf) + junk) == Success(cf)
  {
    var f := Flat(RefParts(cf.hitRanges));
    var b := EncodeCondFmt(cf) + junk;
    assert b == Pack16(CondFmtHead(cf)) + (f + junk);
    CondFmtHeadFields(cf, f + junk);
    CondFmtFlagWordFields(cf.toughRecalc, cf.recordID);
    RefPartsWidth(cf.hitRanges);
    assert b[14..14 + |f|] == f;
    RefsRoundTrip(b, 14, cf.hitRanges);
  }

  /** The count is binding: one byte short of the stated ranges is an underrun. */
  lemma CondFmtShort(cf: CondFmt)
    requires CondFmtFits(cf) && |cf.hitRanges| > 0
    ensures var e := EncodeCondFmt(cf); CondFmtLayout(e[..|e| - 1]) == Failure(BufferUnderrun)
  {
    var e := EncodeCondFmt(cf);
    var f := Flat(RefParts(cf.hitRanges));
    RefPartsWidth(cf.hitRanges);
    var short := f[..|f| - 1];
    assert e[..|e| - 1] == Pack16(CondFmtHead(cf)) + short;
    CondFmtHeadFields(cf, short);
  }

  /** `CondFmt.__parseBytes`. */
  method ParseCondFmt(s: ByteStream) returns (r: Result<CondFmt>)
    requires s.Valid() && s.pos == 0
    modifies s
    ensures s.Valid()
    ensures r == CondFmtLayout(s.bytes)
    ensures r.Success? ==> s.pos == 14 + 8 * |r.value.hitRanges|
  {
    var cfCount :- s.ReadUnsignedInt(2);
    var tmp :- s.ReadUnsignedInt(2);
    var toughRecalc := BitAnd(tmp, 0x01) != 0;
    var recordID := BitAnd(tmp, 0xFE) / 2;
    var refBound :- ReadRef8U(s);
    var hitRangeCount :- s.ReadUnsignedInt(2);
    var hitRanges :- ReadRefs(s, hitRangeCount);
    r := Success(CondFmt(cfCount, toughRecalc, recordID, refBound, hitRanges));
  }

  /** `CondFmt.fillModel`: the bounding range becomes the sheet's conditional format range. */
  method FillCondFmt(s: ByteStream, m: Model) returns (res: Result<()>)
    requires s.Valid() && s.pos == 0
    modifies s, m
    ensures var d := CondFmtLayout(s.bytes);
      d.Success? ==>
        var rb := d.value.refBound;
        res.Success? && m.ops == old(m.ops) + [SetCondFormat(CellRange(rb.row1, rb.row2, rb.col1, rb.col2))]
    ensures var d := CondFmtLayout(s.bytes);
      d.Failure? ==> res == Failure(d.error) && m.ops == old(m.ops)
  {
    var r := ParseCondFmt(s);
    if r.Failure? {
      return Failure(r.error);
    }
    var rb := r.value.refBound;
    m.Perform(SetCondFormat(CellRange(rb.row1, rb.row2, rb.col1, rb.col2)));
    res := Success(());
  }

  // ---------------------------------------------------------------------
  // DXFN

  datatype NumFmt = NumFmtName(name: string) | NumFmtID(id: nat)

  datatype FontBlock = FontBlock(fontName: Option<string>, fontAttrs: seq<Byte>, fontColor: nat)

  /** The differential format. `bits` is the 32-bit word of "ignore this
      property" flags and block-presence bits; the presence bits are also
      kept decoded, as the block each one gates. */
  datatype DXFN = DXFN(
    bits: nat, fIfmtUser: bool, fNewBorder: bool, fZeroInited: bool,
    numFmt: Option<NumFmt>, font: Option<FontBlock>,
    hasAlc: bool, hasBdr: bool, hasPat: bool, hasProt: bool)

  /** The number-format block: a length-prefixed format string when
      `fIfmtUser` is set, else an ignored byte and a format id. */
  function NumAt(b: seq<Byte>, p: nat, c: Collaborators, user: bool): (r: Result<(NumFmt, nat)>)
    requires p <= |b|
    ensures r.Success? ==> p <= r.value.1 <= |b|
  {
    if user then
      if |b| < p + 2 then Failure(BufferUnderrun)
      else
        var size := UInt(b, p, 2);
        if |b| < p + 2 + size then Failure(BufferUnderrun)
        else Success((NumFmtName(c.richText(b[p + 2..p + 2 + size], None).text), p + 2 + size))
    else if |b| < p + 2 then Failure(BufferUnderrun)
    else Success((NumFmtID(UInt(b, p + 1, 1)), p + 2))
  }

  /** The font block: a name length; the name, decoded from the rest of the
      record, of at most 63 bytes; padding up to 63 name bytes; 16 attribute
      bytes; the colour; eight more 32-bit words; and a 16-bit font index. */
  function FontAt(b: seq<Byte>, p: nat, c: Collaborators): (r: Result<(FontBlock, nat)>)
    requires p <= |b|
    ensures r.Success? ==> p <= r.value.1 <= |b|
  {
    if |b| < p + 1 then Failure(BufferUnderrun)
    else
      var nameLen := UInt(b, p, 1);
      var t := if nameLen > 0 then c.richText(b[p + 1..], Some(nameLen)) else TextRead("", 0);
      if t.consumed > |b| - (p + 1) then Failure(BufferUnderrun)
      else if t.consumed > 63 then Failure(FontNameTooLong)
      else if |b| < p + 118 then Failure(BufferUnderrun)
      else
        Success((FontBlock(if nameLen > 0 then Some(t.text) else None, b[p + 64..p + 80], UInt(b, p + 80, 4)),
          p + 118))
  }

  /** The bytes of the four fixed-size blocks that are present, in order:
      alignment 8, border 8, pattern 4, protection 2. */
  function FixedBlocks(alc: bool, bdr: bool, pat: bool, prot: bool): nat
  {
    (if alc then 8 else 0) + (if bdr then 8 else 0) + (if pat then 4 else 0) + (if prot then 2 else 0)
  }

  /** The number-format block if its presence bit is set, else nothing. */
  function NumPart(b: seq<Byte>, p: nat, c: Collaborators, present: bool, user: bool)
    : (r: Result<(Option<NumFmt>, nat)>)
    requires p <= |b|
    ensures r.Success? ==> p <= r.value.1 <= |b| && (r.value.0.Some? <==> present)
  {
    if present then
      var n :- NumAt(b, p, c, user);
      Success((Some(n.0), n.1))
    else Success((None, p))
  }

  /** The font block if its presence bit is set, else nothing. */
  function FontPart(b: seq<Byte>, p: nat, c: Collaborators, present: bool)
    : (r: Result<(Option<FontBlock>, nat)>)
    requires p <= |b|
    ensures r.Success? ==> p <= r.value.1 <= |b| && (r.value.0.Some? <==> present)
  {
    if present then
      var f :- FontAt(b, p, c);
      Success((Some(f.0), f.1))
    else Success((None, p))
  }

  function DXFNAt(b: seq<Byte>, off: nat, c: Collaborators): (r: Result<(DXFN, nat)>)
    requires off <= |b|
    ensures r.Success? ==> off <= r.value.1 <= |b|
  {
    if |b| < off + 6 then Failure(BufferUnderrun)
    else DXFNBlocksAt(b, off + 6, c, UInt(b, off, 4), UInt(b, off + 4, 2))
  }

  /** The blocks after the two flag words `bits` and `bits2`, from `p`. */
  function DXFNBlocksAt(b: seq<Byte>, p: nat, c: Collaborators, bits: nat, bits2: nat): (r: Result<(DXFN, nat)>)
    requires p <= |b|
    ensures r.Success? ==> p <= r.value.1 <= |b|
  {
    var num :- NumPart(b, p, c, BitAnd(bits, 0x0200_0000) != 0, BitAnd(bits2, 0x0001) != 0);
    DXFNRestAt(b, num.1, c, bits, bits2, num.0)
  }

  /** The font block and the fixed-size blocks, after the number format. */
  function DXFNRestAt(b: seq<Byte>, p: nat, c: Collaborators, bits: nat, bits2: nat, numFmt: Option<NumFmt>)
    : (r: Result<(DXFN, nat)>)
    requires p <= |b|
    ensures r.Success? ==> p <= r.value.1 <= |b|
  {
    var alc, bdr := BitAnd(bits, 0x0800_0000) != 0, BitAnd(bits, 0x1000_0000) != 0;
    var pat, prot := BitAnd(bits, 0x2000_0000) != 0, BitAnd(bits, 0x4000_0000) != 0;
    var fnt :- FontPart(b, p, c, BitAnd(bits, 0x0400_0000) != 0);
    var end := fnt.1 + FixedBlocks(alc, bdr, pat, prot);
    if |b| < end then Failure(BufferUnderrun)
    else Success((DXFNOf(bits, bits2, numFmt, fnt.0), end))
  }

  /** The flags of the two words, with the blocks that were read. */
  function DXFNOf(bits: nat, bits2: nat, numFmt: Option<NumFmt>, font: Option<FontBlock>): DXFN
  {
    DXFN(bits, BitAnd(bits2, 0x0001) != 0, BitAnd(bits2, 0x0004) != 0, BitAnd(bits2, 0x8000) != 0,
      numFmt, font, BitAnd(bits, 0x0800_0000) != 0, BitAnd(bits, 0x1000_0000) != 0,
      BitAnd(bits, 0x2000_0000) != 0, BitAnd(bits, 0x4000_0000) != 0)
  }

  /** Each optional block is present exactly when its presence bit (25 to 30
      of the first word) is set, the number format is a string exactly when
      bit 0 of the second word is set, and the blocks are laid out number,
      font, alignment, border, pattern, protection. The font block is 118
      bytes whatever the length of the name. */
  lemma DXFNGating(b: seq<Byte>, off: nat, c: Collaborators)
    requires off <= |b| && DXFNAt(b, off, c).Success?
    ensures var d, end := DXFNAt(b, off, c).value.0, DXFNAt(b, off, c).value.1;
      var bits, bits2 := UInt(b, off, 4), UInt(b, off + 4, 2);
      (d.numFmt.Some? <==> Bit(bits, 25)) && (d.font.Some? <==> Bit(bits, 26)) &&
      d.hasAlc == Bit(bits, 27) && d.hasBdr == Bit(bits, 28) &&
      d.hasPat == Bit(bits, 29) && d.hasProt == Bit(bits, 30) &&
      d.fIfmtUser == Bit(bits2, 0) && d.fNewBorder == Bit(bits2, 2) && d.fZeroInited == Bit(bits2, 15) &&
      (d.numFmt.Some? ==> (d.numFmt.value.NumFmtName? <==> Bit(bits2, 0))) &&
      var numSize :=
        if !d.numFmt.Some? then 0 else if d.numFmt.value.NumFmtName? then 2 + UInt(b, off + 6, 2) else 2;
      end == off + 6 + numSize + (if d.font.Some? then 118 else 0) +
        FixedBlocks(d.hasAlc, d.hasBdr, d.hasPat, d.hasProt)
  {
    var bits, bits2 := UInt(b, off, 4), UInt(b, off + 4, 2);
    Pow2Table();
    FlagBit(bits, 25, 0x0200_0000);
    FlagBit(bits, 26, 0x0400_0000);
    FlagBit(bits, 27, 0x0800_0000);
    FlagBit(bits, 28, 0x1000_0000);
    FlagBit(bits, 29, 0x2000_0000);
    FlagBit(bits, 30, 0x4000_0000);
    FlagBit(bits2, 0, 0x0001);
    FlagBit(bits2, 2, 0x0004);
    FlagBit(bits2, 15, 0x8000);
  }

  /** A font name that takes more than 63 bytes is refused, before any
      padding is read. */
  lemma FontNameTooLongRefused(b: seq<Byte>, p: nat, c: Collaborators)
    requires p < |b| && UInt(b, p, 1) > 0
    requires var t := c.richText(b[p + 1..], Some(UInt(b, p, 1))); 63 < t.consumed <= |b| - (p + 1)
    ensures FontAt(b, p, c) == Failure(FontNameTooLong)
  {
  }

  // ---------------------------------------------------------------------
  // CF

  datatype CF = CF(conditionType: nat, compFunction: nat, dxfn: DXFN, formula1: seq<Byte>, formula2: seq<Byte>)

  /** Condition type and comparison function bytes, the two formula sizes, the
      DXFN, then the two formulas' token bytes. */
  function CFLayout(b: seq<Byte>, c: Collaborators): Result<CF>
  {
    if |b| < 6 then Failure(BufferUnderrun)
    else
      var d :- DXFNAt(b, 6, c);
      var f :- FormulasAt(b, d.1, UInt(b, 2, 2), UInt(b, 4, 2));
      Success(CF(UInt(b, 0, 1), UInt(b, 1, 1), d.0, f.0, f.1))
  }

  /** Two byte strings of sizes `n1` and `n2` from `p`. */
  function FormulasAt(b: seq<Byte>, p: nat, n1: nat, n2: nat): (r: Result<(seq<Byte>, seq<Byte>)>)
    requires p <= |b|
    ensures r.Success? <==> p + n1 + n2 <= |b|
    ensures r.Failure? ==> r.error == BufferUnderrun
  {
    if |b| < p + n1 + n2 then Failure(BufferUnderrun)
    else Success((b[p..p + n1], b[p + n1..p + n1 + n2]))
  }

  /** The formulas are the bytes after the DXFN, of the sizes the header
      states, the first formula's bytes before the second's. */
  lemma CFFormulas(b: seq<Byte>, c: Collaborators)
    requires CFLayout(b, c).Success?
    ensures var cf, end := CFLayout(b, c).value, DXFNAt(b, 6, c).value.1;
      |cf.formula1| == UInt(b, 2, 2) && |cf.formula2| == UInt(b, 4, 2) &&
      b[end..end + |cf.formula1| + |cf.formula2|] == cf.formula1 + cf.formula2
  {
    var cf, end := CFLayout(b, c).value, DXFNAt(b, 6, c).value.1;
    assert b[end..end + |cf.formula1| + |cf.formula2|]
      == b[end..end + |cf.formula1|] + b[end + |cf.formula1|..end + |cf.formula1| + |cf.formula2|];
  }

  method ReadNumBlock(s: ByteStream, c: Collaborators, user: bool) returns (r: Result<NumFmt>)
    requires s.Valid()
    modifies s
    ensures s.Valid()
    ensures var e := NumAt(s.bytes, old(s.pos), c, user);
      (r.Success? <==> e.Success?) &&
      (r.Success? ==> r.value == e.value.0 && s.pos == e.value.1) &&
      (r.Failure? ==> r.error == e.error)
  {
    if user {
      var sizeDXFNumUser :- s.ReadUnsignedInt(2);
      var strBytes :- s.ReadBytes(sizeDXFNumUser);
      r := Success(NumFmtName(c.richText(strBytes, None).text));
    } else {
      var ignored :- s.ReadUnsignedInt(1);
      var numFmtID :- s.ReadUnsignedInt(1);
      r := Success(NumFmtID(numFmtID));
    }
  }

  /** The name-length byte and the name it announces. */
  method ReadFontName(s: ByteStream, c: Collaborators) returns (r: Result<(Option<string>, nat)>)
    requires s.Valid()
    modifies s
    ensures s.Valid()
    ensures r.Success? <==> (old(s.pos) < |s.bytes| &&
      var nameLen := UInt(s.bytes, old(s.pos), 1);
      nameLen > 0 ==> c.richText(s.bytes[old(s.pos) + 1..], Some(nameLen)).consumed <= |s.bytes| - (old(s.pos) + 1))
    ensures r.Success? ==>
      var nameLen := UInt(s.bytes, old(s.pos), 1);
      var t := c.richText(s.bytes[old(s.pos) + 1..], Some(nameLen));
      r.value == (if nameLen > 0 then (Some(t.text), t.consumed) else (None, 0)) &&
      s.pos == old(s.pos) + 1 + r.value.1
    ensures r.Failure? ==> r.error == BufferUnderrun
  {
    var nameLen :- s.ReadUnsignedInt(1);
    if nameLen > 0 {
      // The length is that of the text; the bytes it takes are what the
      // decoder reports.
      var curPos := s.pos;
      var rest := s.ReadRemainingBytes();
      var t := c.richText(rest, Some(nameLen));
      s.SetCurrentPos(curPos);
      var moved :- s.MoveForward(t.consumed);
      return Success((Some(t.text), t.consumed));
    }
    r := Success((None, 0));
  }

  /** Eight 32-bit words (two ignored, the four "ignore" flags for
      escapement, superscript, underline and boldness, the first
      character and the character count) and the font index. */
  method SkipFontWords(s: ByteStream) returns (r: Result<()>)
    requires s.Valid()
    modifies s
    ensures s.Valid()
    ensures r.Success? <==> old(s.pos) + 34 <= |s.bytes|
    ensures r.Success? ==> s.pos == old(s.pos) + 34
    ensures r.Failure? ==> r.error == BufferUnderrun
  {
    var ignored1 :- s.ReadUnsignedInt(4);
    var tsNinch :- s.ReadUnsignedInt(4);
    var sssNinch :- s.ReadUnsignedInt(4);
    var ulsNinch :- s.ReadUnsignedInt(4);
    var blsNinch :- s.ReadUnsignedInt(4);
    var ignored2 :- s.ReadUnsignedInt(4);
    var ich :- s.ReadUnsignedInt(4);
    var cch :- s.ReadUnsignedInt(4);
    var iFnt :- s.ReadUnsignedInt(2);
    r := Success(());
  }

  method ReadFontBlock(s: ByteStream, c: Collaborators) returns (r: Result<FontBlock>)
    requires s.Valid()
    modifies s
    ensures s.Valid()
    ensures var e := FontAt(s.bytes, old(s.pos), c);
      (r.Success? <==> e.Success?) &&
      (r.Success? ==> r.value == e.value.0 && s.pos == e.value.1) &&
      (r.Failure? ==> r.error == e.error)
  {
    var start := s.pos;
    var name :- ReadFontName(s, c);
    var realLen := name.1;
    if realLen > 63 {
      return Failure(FontNameTooLong);
    }
    var padding :- s.ReadUnsignedInt(63 - realLen);
    assert s.pos == start + 64;
    var fontAttrs :- s.ReadBytes(16);
    var fontColor :- s.ReadUnsignedInt(4);
    var skipped :- SkipFontWords(s);
    r := Success(FontBlock(name.0, fontAttrs, fontColor));
  }

  method ReadNumPart(s: ByteStream, c: Collaborators, present: bool, user: bool) returns (r: Result<Option<NumFmt>>)
    requires s.Valid()
    modifies s
    ensures s.Valid()
    ensures var e := NumPart(s.bytes, old(s.pos), c, present, user);
      (r.Success? <==> e.Success?) &&
      (r.Success? ==> r.value == e.value.0 && s.pos == e.value.1) &&
      (r.Failure? ==> r.error == e.error)
  {
    if present {
      var n :- ReadNumBlock(s, c, user);
      return Success(Some(n));
    }
    r := Success(None);
  }

  method ReadFontPart(s: ByteStream, c: Collaborators, present: bool) returns (r: Result<Option<FontBlock>>)
    requires s.Valid()
    modifies s
    ensures s.Valid()
    ensures var e := FontPart(s.bytes, old(s.pos), c, present);
      (r.Success? <==> e.Success?) &&
      (r.Success? ==> r.value == e.value.0 && s.pos == e.value.1) &&
      (r.Failure? ==> r.error == e.error)
  {
    if present {
      var f :- ReadFontBlock(s, c);
      return Success(Some(f));
    }
    r := Success(None);
  }

  /** Steps over the alignment, border, pattern and protection blocks that are present. */
  method SkipFixedBlocks(s: ByteStream, alc: bool, bdr: bool, pat: bool, prot: bool) returns (r: Result<()>)
    requires s.Valid()
    modifies s
    ensures s.Valid()
    ensures r.Success? <==> old(s.pos) + FixedBlocks(alc, bdr, pat, prot) <= |s.bytes|
    ensures r.Success? ==> s.pos == old(s.pos) + FixedBlocks(alc, bdr, pat, prot)
    ensures r.Failure? ==> r.error == BufferUnderrun
  {
    if alc {
      var x :- s.ReadUnsignedInt(8);
    }
    if bdr {
      var x :- s.ReadUnsignedInt(8);
    }
    if pat {
      var x :- s.ReadUnsignedInt(4);
    }
    if prot {
      var x :- s.ReadUnsignedInt(2);
    }
    r := Success(());
  }

  /** `CF.__parseDXFN`. */
  method ParseDXFN(s: ByteStream, c: Collaborators) returns (r: Result<DXFN>)
    requires s.Valid()
    modifies s
    ensures s.Valid()
    ensures var e := DXFNAt(s.bytes, old(s.pos), c);
      (r.Success? <==> e.Success?) &&
      (r.Success? ==> r.value == e.value.0 && s.pos == e.value.1) &&
      (r.Failure? ==> r.error == e.error)
  {
    var bits :- s.ReadUnsignedInt(4);
    var bits2 :- s.ReadUnsignedInt(2);
    r := ParseDXFNBlocks(s, c, bits, bits2);
  }

  /** The blocks `bits` announces, after the two flag words. */
  method ParseDXFNBlocks(s: ByteStream, c: Collaborators, bits: nat, bits2: nat) returns (r: Result<DXFN>)
    requires s.Valid()
    modifies s
    ensures s.Valid()
    ensures var e := DXFNBlocksAt(s.bytes, old(s.pos), c, bits, bits2);
      (r.Success? <==> e.Success?) &&
      (r.Success? ==> r.value == e.value.0 && s.pos == e.value.1) &&
      (r.Failure? ==> r.error == e.error)
  {
    var fIfmtUser := BitAnd(bits2, 0x0001) != 0;
    var numFmt :- ReadNumPart(s, c, BitAnd(bits, 0x0200_0000) != 0, fIfmtUser);
    r := ParseDXFNRest(s, c, bits, bits2, numFmt);
  }

  /** The font block and the fixed-size blocks, after the number format. */
  method ParseDXFNRest(s: ByteStream, c: Collaborators, bits: nat, bits2: nat, numFmt: Option<NumFmt>)
    returns (r: Result<DXFN>)
    requires s.Valid()
    modifies s
    ensures s.Valid()
    ensures var e := DXFNRestAt(s.bytes, old(s.pos), c, bits, bits2, numFmt);
      (r.Success? <==> e.Success?) &&
      (r.Success? ==> r.value == e.value.0 && s.pos == e.value.1) &&
      (r.Failure? ==> r.error == e.error)
  {
    var font :- ReadFontPart(s, c, BitAnd(bits, 0x0400_0000) != 0);
    var alc := BitAnd(bits, 0x0800_0000) != 0;
    var bdr := BitAnd(bits, 0x1000_0000) != 0;
    var pat := BitAnd(bits, 0x2000_0000) != 0;
    var prot := BitAnd(bits, 0x4000_0000) != 0;
    var skipped :- SkipFixedBlocks(s, alc, bdr, pat, prot);
    r := Success(DXFNOf(bits, bits2, numFmt, font));
  }

  /** `CF.__parseBytes`. */
  method ParseCF(s: ByteStream, c: Collaborators) returns (r: Result<CF>)
    requires s.Valid() && s.pos == 0
    modifies s
    ensures s.Valid()
    ensures r == CFLayout(s.bytes, c)
  {
    var conditionType :- s.ReadUnsignedInt(1);
    var compFunction :- s.ReadUnsignedInt(1);
    var sizeFormula1 :- s.ReadUnsignedInt(2);
    var sizeFormula2 :- s.ReadUnsignedInt(2);
    var dxfn :- ParseDXFN(s, c);
    var formulas :- ReadFormulas(s, sizeFormula1, sizeFormula2);
    r := Success(CF(conditionType, compFunction, dxfn, formulas.0, formulas.1));
  }

  /** The two formulas' token bytes, the first formula's first. */
  method ReadFormulas(s: ByteStream, n1: nat, n2: nat) returns (r: Result<(seq<Byte>, seq<Byte>)>)
    requires s.Valid()
    modifies s
    ensures s.Valid()
    ensures r == FormulasAt(s.bytes, old(s.pos), n1, n2)
  {
    var formula1 :- s.ReadBytes(n1);
    var formula2 :- s.ReadBytes(n2);
    r := Success((formula1, formula2));
  }
}
