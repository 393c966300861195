/** The worksheet records whose payload is a fixed block or a block repeated up
    to a count or to the end of the record: ROW, MULRK, MULBLANK,
    HORIZONTALPAGEBREAKS, DBCELL and SXIVD. Each record has a declarative
    layout (a function of the payload bytes), an encoder that is its inverse,
    and a handler method that reads the payload through the cursor and is
    proved to compute the layout. */
module Cells {
  import opened Bits
  import opened Stream
  import opened RK
  import opened Workbook

  // ---------------------------------------------------------------------
  // ROW

  datatype Row = Row(
    row: nat, col1: nat, col2: nat,
    rowHeight: nat, defaultHeight: bool, irwMac: nat,
    outLevel: nat, collapsed: bool, zeroHeight: bool, unsynced: bool, ghostDirty: bool)

  /** Seven 16-bit words: row, first and last column, height flags, the
      optimisation word, a reserved word and the outline flags. */
  function RowLayout(b: seq<Byte>): Result<Row>
  {
    if |b| < 14 then Failure(BufferUnderrun)
    else
      var flag, flag2 := UInt(b, 6, 2), UInt(b, 12, 2);
      Success(Row(UInt(b, 0, 2), UInt(b, 2, 2), UInt(b, 4, 2),
        BitAnd(flag, 0x7FFF), BitAnd(flag, 0x8000) != 0, UInt(b, 8, 2),
        BitAnd(flag2, 0x0007), BitAnd(flag2, 0x0010) != 0, BitAnd(flag2, 0x0020) != 0,
        BitAnd(flag2, 0x0040) != 0, BitAnd(flag2, 0x0080) != 0))
  }

  /** The height is the low 15 bits and the default-height flag bit 15 of the
      first flag word; the outline level is the low 3 bits and the collapsed,
      zero-height, unsynced and dirty flags bits 4 to 7 of the second. */
  lemma RowFlags(b: seq<Byte>)
    requires |b| >= 14
    ensures var r, flag, flag2 := RowLayout(b).value, UInt(b, 6, 2), UInt(b, 12, 2);
      r.rowHeight == Field(flag, 0, 15) && r.defaultHeight == Bit(flag, 15) &&
      r.outLevel == Field(flag2, 0, 3) && r.collapsed == Bit(flag2, 4) &&
      r.zeroHeight == Bit(flag2, 5) && r.unsynced == Bit(flag2, 6) && r.ghostDirty == Bit(flag2, 7)
  {
    var flag, flag2 := UInt(b, 6, 2), UInt(b, 12, 2);
    Pow2Table();
    FlagField(flag, 0, 15, 0x7FFF, 1);
    FlagBit(flag, 15, 0x8000);
    FlagField(flag2, 0, 3, 0x0007, 1);
    FlagBit(flag2, 4, 0x0010);
    FlagBit(flag2, 5, 0x0020);
    FlagBit(flag2, 6, 0x0040);
    FlagBit(flag2, 7, 0x0080);
  }

  function RowWords(r: Row): seq<nat>
  {
    [r.row, r.col1, r.col2,
     PackBits([15, 1], [r.rowHeight, B2N(r.defaultHeight)]),
     r.irwMac, 0,
     OutlineBits(r.outLevel, r.collapsed, r.zeroHeight, r.unsynced, r.ghostDirty)]
  }

  function EncodeRow(r: Row): seq<Byte>
  {
    Pack16(RowWords(r))
  }

  predicate RowFits(r: Row)
  {
    r.row < 0x1_0000 && r.col1 < 0x1_0000 && r.col2 < 0x1_0000 && r.irwMac < 0x1_0000 &&
    r.rowHeight < 0x8000 && r.outLevel < 8
  }

  /** The first flag word packs the height and the default-height flag. */
  lemma HeightWord(height: nat, defaultHeight: bool)
    requires height < 0x8000
    ensures var f := PackBits([15, 1], [height, B2N(defaultHeight)]);
      f < 0x1_0000 && BitAnd(f, 0x7FFF) == height && (BitAnd(f, 0x8000) != 0) == defaultHeight
  {
    var ws, vs := [15, 1], [height, B2N(defaultHeight)];
    var f := PackBits(ws, vs);
    Pow2Table();
    assert FitsWidths(ws, vs);
    PackBitsBound(ws, vs);
    FieldOfPack(ws, vs, 0);
    FieldOfPack(ws, vs, 1);
    FlagField(f, 0, 15, 0x7FFF, 1);
    FlagBit(f, 15, 0x8000);
  }

  function OutlineBits(outLevel: nat, collapsed: bool, zeroHeight: bool, unsynced: bool, ghostDirty: bool): nat
  {
    PackBits([3, 1, 1, 1, 1, 1],
      [outLevel, 0, B2N(collapsed), B2N(zeroHeight), B2N(unsynced), B2N(ghostDirty)])
  }

  lemma OutlineFields(outLevel: nat, collapsed: bool, zeroHeight: bool, unsynced: bool, ghostDirty: bool)
    requires outLevel < 8
    ensures var f := OutlineBits(outLevel, collapsed, zeroHeight, unsynced, ghostDirty);
      f < 0x1_0000 && Field(f, 0, 3) == outLevel &&
      Field(f, 4, 1) == B2N(collapsed) && Field(f, 5, 1) == B2N(zeroHeight) &&
      Field(f, 6, 1) == B2N(unsynced) && Field(f, 7, 1) == B2N(ghostDirty)
  {
    var ws := [3, 1, 1, 1, 1, 1];
    var vs := [outLevel, 0, B2N(collapsed), B2N(zeroHeight), B2N(unsynced), B2N(ghostDirty)];
    Pow2Table();
    assert FitsWidths(ws, vs);
    assert Offset(ws, 6) == 8 && Offset(ws, 5) == 7 && Offset(ws, 4) == 6;
    assert Offset(ws, 3) == 5 && Offset(ws, 2) == 4;
    PackBitsBound(ws, vs);
    FieldOfPack(ws, vs, 0);
    FieldOfPack(ws, vs, 2);
    FieldOfPack(ws, vs, 3);
    FieldOfPack(ws, vs, 4);
    FieldOfPack(ws, vs, 5);
  }

  /** The second flag word packs the outline level and four flags. */
  lemma OutlineWord(outLevel: nat, collapsed: bool, zeroHeight: bool, unsynced: bool, ghostDirty: bool)
    requires outLevel < 8
    ensures var f := OutlineBits(outLevel, collapsed, zeroHeight, unsynced, ghostDirty);
      f < 0x1_0000 && BitAnd(f, 0x0007) == outLevel &&
      (BitAnd(f, 0x0010) != 0) == collapsed && (BitAnd(f, 0x0020) != 0) == zeroHeight &&
      (BitAnd(f, 0x0040) != 0) == unsynced && (BitAnd(f, 0x0080) != 0) == ghostDirty
  {
    var f := OutlineBits(outLevel, collapsed, zeroHeight, unsynced, ghostDirty);
    OutlineFields(outLevel, collapsed, zeroHeight, unsynced, ghostDirty);
    Pow2Table();
    FlagField(f, 0, 3, 0x0007, 1);
    FlagBit(f, 4, 0x0010);
    FlagBit(f, 5, 0x0020);
    FlagBit(f, 6, 0x0040);
    FlagBit(f, 7, 0x0080);
  }

  lemma RowRoundTrip(r: Row, junk: seq<Byte>)
    requires RowFits(r)
    ensures RowLayout(EncodeRow(r) + junk) == Success(r)
  {
    var vs := RowWords(r);
    HeightWord(r.rowHeight, r.defaultHeight);
    OutlineWord(r.outLevel, r.collapsed, r.zeroHeight, r.unsynced, r.ghostDirty);
    assert Fit16(vs) by {
      assert vs[3] < 0x1_0000 && vs[6] < 0x1_0000;
    }
    RowOfWords(vs, junk, r);
  }

  /** Seven words whose fields are those of `r` read back as `r`. */
  lemma RowOfWords(vs: seq<nat>, junk: seq<Byte>, r: Row)
    requires Fit16(vs) && |vs| == 7
    requires vs[0] == r.row && vs[1] == r.col1 && vs[2] == r.col2 && vs[4] == r.irwMac
    requires BitAnd(vs[3], 0x7FFF) == r.rowHeight && (BitAnd(vs[3], 0x8000) != 0) == r.defaultHeight
    requires BitAnd(vs[6], 0x0007) == r.outLevel && (BitAnd(vs[6], 0x0010) != 0) == r.collapsed
    requires (BitAnd(vs[6], 0x0020) != 0) == r.zeroHeight && (BitAnd(vs[6], 0x0040) != 0) == r.unsynced
    requires (BitAnd(vs[6], 0x0080) != 0) == r.ghostDirty
    ensures RowLayout(Pack16(vs) + junk) == Success(r)
  {
    Pack16Prefix(vs, junk, 0);
    Pack16Prefix(vs, junk, 1);
    Pack16Prefix(vs, junk, 2);
    Pack16Prefix(vs, junk, 3);
    Pack16Prefix(vs, junk, 4);
    Pack16Prefix(vs, junk, 6);
  }

  /** `Row.__parseBytes`. */
  method ParseRow(s: ByteStream) returns (r: Result<Row>)
    requires s.Valid() && s.pos == 0
    modifies s
    ensures s.Valid()
    ensures r == RowLayout(s.bytes)
    ensures r.Success? ==> s.pos == 14
  {
    var row :- s.ReadUnsignedInt(2);
    var col1 :- s.ReadUnsignedInt(2);
    var col2 :- s.ReadUnsignedInt(2);
    var flag :- s.ReadUnsignedInt(2);
    var rowHeight := BitAnd(flag, 0x7FFF);
    var defaultHeight := BitAnd(flag, 0x8000) != 0;
    var irwMac :- s.ReadUnsignedInt(2);
    var dummy :- s.ReadUnsignedInt(2);
    var flag2 :- s.ReadUnsignedInt(2);
    r := Success(Row(row, col1, col2, rowHeight, defaultHeight, irwMac,
      BitAnd(flag2, 0x0007), BitAnd(flag2, 0x0010) != 0, BitAnd(flag2, 0x0020) != 0,
      BitAnd(flag2, 0x0040) != 0, BitAnd(flag2, 0x0080) != 0));
  }

  /** What `Row.fillModel` does to the sheet: mark the row hidden when its
      zero-height flag is set, then record its height. */
  function RowOps(r: Row): seq<ModelOp>
  {
    (if r.zeroHeight then [SetRowHidden(r.row)] else []) + [SetRowHeight(r.row, r.rowHeight)]
  }

  /** A row is marked hidden exactly when bit 5 of its outline word is set,
      and its height, the low 15 bits of the first flag word, is always recorded last. */
  lemma RowHiddenExactly(b: seq<Byte>)
    requires |b| >= 14
    ensures var ops := RowOps(RowLayout(b).value);
      (SetRowHidden(UInt(b, 0, 2)) in ops <==> Bit(UInt(b, 12, 2), 5)) &&
      ops[|ops| - 1] == SetRowHeight(UInt(b, 0, 2), Field(UInt(b, 6, 2), 0, 15)) &&
      |ops| == 1 + B2N(Bit(UInt(b, 12, 2), 5))
  {
    RowFlags(b);
    var ops := RowOps(RowLayout(b).value);
    if !Bit(UInt(b, 12, 2), 5) {
      assert ops == [SetRowHeight(UInt(b, 0, 2), Field(UInt(b, 6, 2), 0, 15))];
    }
  }

  method FillRow(s: ByteStream, m: Model) returns (res: Result<()>)
    requires s.Valid() && s.pos == 0
    modifies s, m
    ensures RowLayout(s.bytes).Success? ==>
      res.Success? && m.ops == old(m.ops) + RowOps(RowLayout(s.bytes).value)
    ensures RowLayout(s.bytes).Failure? ==>
      res == Failure(RowLayout(s.bytes).error) && m.ops == old(m.ops)
  {
    var r := ParseRow(s);
    if r.Failure? {
      return Failure(r.error);
    }
    var row := r.value;
    if row.zeroHeight {
      m.Perform(SetRowHidden(row.row));
    }
    m.Perform(SetRowHeight(row.row, row.rowHeight));
    res := Success(());
  }

  // ---------------------------------------------------------------------
  // MULRK

  datatype RKRec = RKRec(xfIdx: nat, number: nat)

  datatype MulRK = MulRK(row: nat, col1: nat, rkrecs: seq<RKRec>, col2: nat)

  function RKRecAt(b: seq<Byte>, i: nat): RKRec
    requires 10 + 6 * i <= |b|
  {
    RKRec(UInt(b, 4 + 6 * i, 2), UInt(b, 6 + 6 * i, 4))
  }

  /** Row and first column, then as many six-byte (XF index, RK number)
      entries as fit in front of the final two-byte last column: (size - 6) / 6
      of them. Bytes after the last column are not read. */
  function MulRKLayout(b: seq<Byte>): Result<MulRK>
  {
    if |b| < 6 then Failure(BufferUnderrun)
    else
      var n := (|b| - 6) / 6;
      Success(MulRK(UInt(b, 0, 2), UInt(b, 2, 2),
        seq(n, i requires 0 <= i < n => RKRecAt(b, i)), UInt(b, 4 + 6 * n, 2)))
  }

  function EncodeRKRec(rec: RKRec): seq<Byte>
  {
    ToLE(rec.xfIdx, 2) + ToLE(rec.number, 4)
  }

  function RKRecParts(recs: seq<RKRec>): seq<seq<Byte>>
  {
    seq(|recs|, i requires 0 <= i < |recs| => EncodeRKRec(recs[i]))
  }

  function EncodeMulRK(m: MulRK): seq<Byte>
  {
    ToLE(m.row, 2) + ToLE(m.col1, 2) + Flat(RKRecParts(m.rkrecs)) + ToLE(m.col2, 2)
  }

  predicate MulRKFits(m: MulRK)
  {
    m.row < 0x1_0000 && m.col1 < 0x1_0000 && m.col2 < 0x1_0000 &&
    forall i :: 0 <= i < |m.rkrecs| ==>
      m.rkrecs[i].xfIdx < 0x1_0000 && m.rkrecs[i].number < 0x1_0000_0000
  }

  lemma RKRecFields(rec: RKRec)
    requires rec.xfIdx < 0x1_0000 && rec.number < 0x1_0000_0000
    ensures |EncodeRKRec(rec)| == 6
    ensures UInt(EncodeRKRec(rec), 0, 2) == rec.xfIdx && UInt(EncodeRKRec(rec), 2, 4) == rec.number
  {
    UIntLeft(ToLE(rec.xfIdx, 2), ToLE(rec.number, 4), 0, 2);
    UIntToLE(rec.xfIdx, 2);
    UIntRight(ToLE(rec.xfIdx, 2), ToLE(rec.number, 4), 0, 4);
    UIntToLE(rec.number, 4);
  }

  lemma MulRKFixed(m: MulRK, junk: seq<Byte>)
    requires m.row < 0x1_0000 && m.col1 < 0x1_0000 && m.col2 < 0x1_0000
    requires forall j :: 0 <= j < |m.rkrecs| ==> |RKRecParts(m.rkrecs)[j]| == 6
    ensures var b, f, k := EncodeMulRK(m) + junk, Flat(RKRecParts(m.rkrecs)), |m.rkrecs|;
      |f| == 6 * k && |b| == 6 + 6 * k + |junk| &&
      UInt(b, 0, 2) == m.row && UInt(b, 2, 2) == m.col1 && UInt(b, 4 + 6 * k, 2) == m.col2 &&
      b[4..4 + |f|] == f
  {
    var f := Flat(RKRecParts(m.rkrecs));
    FlatLength(RKRecParts(m.rkrecs), 6);
    var x, y := ToLE(m.row, 2) + ToLE(m.col1, 2), f + ToLE(m.col2, 2) + junk;
    var b := EncodeMulRK(m) + junk;
    assert b == x + y;
    UIntLeft(x, y, 0, 2);
    UIntLeft(ToLE(m.row, 2), ToLE(m.col1, 2), 0, 2);
    UIntToLE(m.row, 2);
    UIntLeft(x, y, 2, 2);
    UIntRight(ToLE(m.row, 2), ToLE(m.col1, 2), 0, 2);
    UIntToLE(m.col1, 2);
    UIntRight(x, y, |f|, 2);
    UIntLeft(f + ToLE(m.col2, 2), junk, |f|, 2);
    UIntRight(f, ToLE(m.col2, 2), 0, 2);
    UIntToLE(m.col2, 2);
    assert b[4..4 + |f|] == y[..|f|] == f;
  }

  /** Encoding then decoding gives the record back, whatever fewer than six
      bytes trail it: the entry count is read off the record size. */
  lemma MulRKRoundTrip(m: MulRK, junk: seq<Byte>)
    requires MulRKFits(m) && |junk| < 6
    ensures MulRKLayout(EncodeMulRK(m) + junk) == Success(m)
  {
    var parts := RKRecParts(m.rkrecs);
    var k := |m.rkrecs|;
    var b := EncodeMulRK(m) + junk;
    forall j | 0 <= j < k
      ensures |parts[j]| == 6
    {
      RKRecFields(m.rkrecs[j]);
    }
    MulRKFixed(m, junk);
    assert (|b| - 6) / 6 == k;
    forall i | 0 <= i < k
      ensures RKRecAt(b, i) == m.rkrecs[i]
    {
      RKRecFields(m.rkrecs[i]);
      FieldOfFlat(b, 4, parts, 6, i, 0, 2);
      FieldOfFlat(b, 4, parts, 6, i, 2, 4);
    }
    assert seq(k, i requires 0 <= i < k => RKRecAt(b, i)) == m.rkrecs;
  }

  /** `MulRK.__parseBytes`. */
  method ParseMulRK(s: ByteStream) returns (r: Result<MulRK>)
    requires s.Valid() && s.pos == 0
    modifies s
    ensures s.Valid()
    ensures r == MulRKLayout(s.bytes)
    ensures r.Success? ==> s.pos == 6 + 6 * |r.value.rkrecs|
  {
    var row :- s.ReadUnsignedInt(2);
    var col1 :- s.ReadUnsignedInt(2);
    var rkCount := (s.GetSize() - s.pos - 2) / 6;
    var rkrecs: seq<RKRec> := [];
    var i := 0;
    while i < rkCount
      invariant 0 <= i && (rkCount >= 0 ==> i <= rkCount)
      invariant s.Valid() && s.pos == 4 + 6 * i
      invariant |rkrecs| == i
      invariant forall j :: 0 <= j < i ==> 10 + 6 * j <= |s.bytes| && rkrecs[j] == RKRecAt(s.bytes, j)
    {
      var xfIdx := s.ReadUnsignedInt(2);
      var number := s.ReadUnsignedInt(4);
      rkrecs := rkrecs + [RKRec(xfIdx.value, number.value)];
      i := i + 1;
    }
    var col2 :- s.ReadUnsignedInt(2);
    assert rkrecs == seq(rkCount, j requires 0 <= j < rkCount => RKRecAt(s.bytes, j));
    r := Success(MulRK(row, col1, rkrecs, col2));
  }

  /** What `MulRK.fillModel` does: entry i becomes a number cell in column
      col1 + i of the record's row, holding the RK value decoded as written
      (`corrected` false) or with the signed integer reading. */
  function MulRKOps(m: MulRK, corrected: bool): seq<ModelOp>
  {
    seq(|m.rkrecs|, i requires 0 <= i < |m.rkrecs| =>
      SetCell(m.col1 + i, m.row, DecodeRKReading(m.rkrecs[i].number, corrected)))
  }

  /** The columns of the cells an operation sequence sets. */
  function CellColumns(ops: seq<ModelOp>): set<nat>
  {
    set i | 0 <= i < |ops| && ops[i].SetCell? :: ops[i].col
  }

  /** The cells set are one per entry, in one row, in consecutive columns,
      none twice; when the last column agrees with the entry count they are
      exactly the columns col1..col2. */
  lemma MulRKCells(m: MulRK, corrected: bool)
    ensures var ops := MulRKOps(m, corrected);
      |ops| == |m.rkrecs| &&
      (forall i :: 0 <= i < |ops| ==>
        ops[i] == SetCell(m.col1 + i, m.row, DecodeRKReading(m.rkrecs[i].number, corrected))) &&
      (forall i :: 0 <= i < |ops| ==> ops[i].SetCell? && ops[i].row == m.row) &&
      (forall i, j :: 0 <= i < j < |ops| ==> ops[i].col < ops[j].col) &&
      (m.col1 + |m.rkrecs| == m.col2 + 1 ==>
        forall c :: c in CellColumns(ops) <==> m.col1 <= c <= m.col2)
  {
    var ops := MulRKOps(m, corrected);
    if m.col1 + |m.rkrecs| == m.col2 + 1 {
      forall c: nat | m.col1 <= c <= m.col2
        ensures c in CellColumns(ops)
      {
        assert ops[c - m.col1].col == c;
      }
    }
  }

  method FillMulRK(s: ByteStream, m: Model, corrected: bool) returns (res: Result<()>)
    requires s.Valid() && s.pos == 0
    modifies s, m
    ensures MulRKLayout(s.bytes).Success? ==>
      res.Success? && m.ops == old(m.ops) + MulRKOps(MulRKLayout(s.bytes).value, corrected)
    ensures MulRKLayout(s.bytes).Failure? ==>
      res == Failure(MulRKLayout(s.bytes).error) && m.ops == old(m.ops)
  {
    var r := ParseMulRK(s);
    if r.Failure? {
      return Failure(r.error);
    }
    var rec := r.value;
    var n := |rec.rkrecs|;
    var i := 0;
    while i < n
      invariant 0 <= i <= n
      invariant m.ops == old(m.ops) + MulRKOps(rec, corrected)[..i]
    {
      assert MulRKOps(rec, corrected)[..i + 1] == MulRKOps(rec, corrected)[..i] + [MulRKOps(rec, corrected)[i]];
      m.Perform(SetCell(rec.col1 + i, rec.row, DecodeRKReading(rec.rkrecs[i].number, corrected)));
      i := i + 1;
    }
    assert MulRKOps(rec, corrected)[..n] == MulRKOps(rec, corrected);
    res := Success(());
  }

  // ---------------------------------------------------------------------
  // MULBLANK

  datatype MulBlank = MulBlank(row: nat, col1: nat, xfCells: seq<nat>, col2: nat)

  /** Row and first column, then 16-bit words up to the end of the record:
      the last word is the last column and all earlier ones, in order, are the
      XF indices of the blank cells. The words must exactly fill the record. */
  function MulBlankLayout(b: seq<Byte>): Result<MulBlank>
  {
    if |b| < 6 || |b| % 2 == 1 then Failure(BufferUnderrun)
    else
      var n := (|b| - 6) / 2;
      Success(MulBlank(UInt(b, 0, 2), UInt(b, 2, 2),
        seq(n, i requires 0 <= i < n => UInt(b, 4 + 2 * i, 2)), UInt(b, |b| - 2, 2)))
  }

  function MulBlankWords(m: MulBlank): seq<nat>
  {
    [m.row, m.col1] + m.xfCells + [m.col2]
  }

  function EncodeMulBlank(m: MulBlank): seq<Byte>
  {
    Pack16(MulBlankWords(m))
  }

  lemma MulBlankRoundTrip(m: MulBlank)
    requires Fit16(MulBlankWords(m))
    ensures MulBlankLayout(EncodeMulBlank(m)) == Success(m)
  {
    var vs, b, k := MulBlankWords(m), EncodeMulBlank(m), |m.xfCells|;
    Pack16At(vs, 0);
    Pack16At(vs, 1);
    Pack16At(vs, k + 2);
    assert |b| == 2 * k + 6;
    forall i | 0 <= i < k
      ensures UInt(b, 4 + 2 * i, 2) == m.xfCells[i]
    {
      Pack16At(vs, i + 2);
    }
    assert seq(k, i requires 0 <= i < k => UInt(b, 4 + 2 * i, 2)) == m.xfCells;
  }

  /** Unlike MULRK, a trailing odd byte is not ignored: the last read runs out. */
  lemma MulBlankTrailingByte(m: MulBlank, extra: Byte)
    requires Fit16(MulBlankWords(m))
    ensures MulBlankLayout(EncodeMulBlank(m) + [extra]) == Failure(BufferUnderrun)
  {
    Pack16At(MulBlankWords(m), 0);
  }

  /** `MulBlank.__parseBytes`: read words until one ends the record. */
  method ParseMulBlank(s: ByteStream) returns (r: Result<MulBlank>)
    requires s.Valid() && s.pos == 0
    modifies s
    ensures s.Valid()
    ensures r == MulBlankLayout(s.bytes)
    ensures r.Success? ==> s.IsEndOfRecord()
  {
    var row :- s.ReadUnsignedInt(2);
    var col1 :- s.ReadUnsignedInt(2);
    var col2 := 0;
    var xfCells: seq<nat> := [];
    while true
      invariant s.Valid() && s.pos == 4 + 2 * |xfCells|
      invariant |xfCells| > 0 ==> s.pos < |s.bytes|
      invariant forall j :: 0 <= j < |xfCells| ==> 6 + 2 * j <= |s.bytes| && xfCells[j] == UInt(s.bytes, 4 + 2 * j, 2)
      decreases |s.bytes| - s.pos
    {
      var val :- s.ReadUnsignedInt(2);
      if s.IsEndOfRecord() {
        col2 := val;
        break;
      }
      xfCells := xfCells + [val];
    }
    var n := |xfCells|;
    assert xfCells == seq(n, i requires 0 <= i < n => UInt(s.bytes, 4 + 2 * i, 2));
    r := Success(MulBlank(row, col1, xfCells, col2));
  }

  // ---------------------------------------------------------------------
  // HORIZONTALPAGEBREAKS

  datatype Break = Break(row: nat, col1: nat, col2: nat)

  datatype HorBreaks = HorBreaks(breaks: seq<Break>)

  function BreakAt(b: seq<Byte>, i: nat): Break
    requires 8 + 6 * i <= |b|
  {
    Break(UInt(b, 2 + 6 * i, 2), UInt(b, 4 + 6 * i, 2), UInt(b, 6 + 6 * i, 2))
  }

  /** A 16-bit count, then that many six-byte (row, first column, last column) breaks. */
  function HorBreaksLayout(b: seq<Byte>): Result<HorBreaks>
  {
    if |b| < 2 then Failure(BufferUnderrun)
    else
      var count := UInt(b, 0, 2);
      if |b| < 2 + 6 * count then Failure(BufferUnderrun)
      else Success(HorBreaks(seq(count, i requires 0 <= i < count => BreakAt(b, i))))
  }

  function BreakParts(breaks: seq<Break>): seq<seq<Byte>>
  {
    seq(|breaks|, i requires 0 <= i < |breaks| =>
      Pack16([breaks[i].row, breaks[i].col1, breaks[i].col2]))
  }

  function EncodeHorBreaks(h: HorBreaks): seq<Byte>
  {
    ToLE(|h.breaks|, 2) + Flat(BreakParts(h.breaks))
  }

  predicate HorBreaksFits(h: HorBreaks)
  {
    |h.breaks| < 0x1_0000 &&
    forall i :: 0 <= i < |h.breaks| ==> Fit16([h.breaks[i].row, h.breaks[i].col1, h.breaks[i].col2])
  }

  lemma BreakPartsWidth(breaks: seq<Break>)
    requires forall i :: 0 <= i < |breaks| ==> Fit16([breaks[i].row, breaks[i].col1, breaks[i].col2])
    ensures forall i :: 0 <= i < |breaks| ==> |BreakParts(breaks)[i]| == 6
    ensures |Flat(BreakParts(breaks))| == 6 * |breaks|
  {
    forall i | 0 <= i < |breaks|
      ensures |BreakParts(breaks)[i]| == 6
    {
      Pack16At([breaks[i].row, breaks[i].col1, breaks[i].col2], 0);
    }
    FlatLength(BreakParts(breaks), 6);
  }

  /** Encoding then decoding gives the breaks back; bytes after the last
      counted break are not read. */
  lemma HorBreaksRoundTrip(h: HorBreaks, junk: seq<Byte>)
    requires HorBreaksFits(h)
    ensures HorBreaksLayout(EncodeHorBreaks(h) + junk) == Success(h)
  {
    var parts, k := BreakParts(h.breaks), |h.breaks|;
    var f := Flat(parts);
    var b := EncodeHorBreaks(h) + junk;
    BreakPartsWidth(h.breaks);
    assert b == ToLE(k, 2) + (f + junk);
    UIntLeft(ToLE(k, 2), f + junk, 0, 2);
    UIntToLE(k, 2);
    assert b[2..2 + |f|] == f;
    forall i | 0 <= i < k
      ensures BreakAt(b, i) == h.breaks[i]
    {
      var ws := [h.breaks[i].row, h.breaks[i].col1, h.breaks[i].col2];
      FieldOfFlat(b, 2, parts, 6, i, 0, 2);
      FieldOfFlat(b, 2, parts, 6, i, 2, 2);
      FieldOfFlat(b, 2, parts, 6, i, 4, 2);
      Pack16At(ws, 0);
      Pack16At(ws, 1);
      Pack16At(ws, 2);
    }
    assert seq(k, i requires 0 <= i < k => BreakAt(b, i)) == h.breaks;
  }

  /** The count is binding: one byte short of the stated breaks is an underrun. */
  lemma HorBreaksShort(h: HorBreaks)
    requires HorBreaksFits(h) && |h.breaks| > 0
    ensures var e := EncodeHorBreaks(h); HorBreaksLayout(e[..|e| - 1]) == Failure(BufferUnderrun)
  {
    var e := EncodeHorBreaks(h);
    BreakPartsWidth(h.breaks);
    UIntLeft(ToLE(|h.breaks|, 2), Flat(BreakParts(h.breaks)), 0, 2);
    UIntToLE(|h.breaks|, 2);
    assert e[..|e| - 1][0..2] == e[0..2];
  }

  /** `HorBreaks.__parseBytes`. */
  method ParseHorBreaks(s: ByteStream) returns (r: Result<HorBreaks>)
    requires s.Valid() && s.pos == 0
    modifies s
    ensures s.Valid()
    ensures r == HorBreaksLayout(s.bytes)
    ensures r.Success? ==> s.pos == 2 + 6 * |r.value.breaks|
  {
    var count :- s.ReadUnsignedInt(2);
    var breaks: seq<Break> := [];
    var i := 0;
    while i < count
      invariant 0 <= i <= count && s.Valid() && s.pos == 2 + 6 * i
      invariant count == UInt(s.bytes, 0, 2)
      invariant |breaks| == i
      invariant forall j :: 0 <= j < i ==> 8 + 6 * j <= |s.bytes| && breaks[j] == BreakAt(s.bytes, j)
    {
      var row :- s.ReadUnsignedInt(2);
      var col1 :- s.ReadUnsignedInt(2);
      var col2 :- s.ReadUnsignedInt(2);
      breaks := breaks + [Break(row, col1, col2)];
      i := i + 1;
    }
    assert breaks == seq(count, j requires 0 <= j < count => BreakAt(s.bytes, j));
    r := Success(HorBreaks(breaks));
  }

  // ---------------------------------------------------------------------
  // DBCELL

  datatype DBCell = DBCell(rowRecOffset: nat, cellOffsets: seq<nat>)

  /** A 32-bit offset to the first ROW record, then 16-bit cell offsets up to
      the end of the record. */
  function DBCellLayout(b: seq<Byte>): Result<DBCell>
  {
    if |b| < 4 || |b| % 2 == 1 then Failure(BufferUnderrun)
    else
      var n := (|b| - 4) / 2;
      Success(DBCell(UInt(b, 0, 4), seq(n, i requires 0 <= i < n => UInt(b, 4 + 2 * i, 2))))
  }

  function EncodeDBCell(d: DBCell): seq<Byte>
  {
    ToLE(d.rowRecOffset, 4) + Pack16(d.cellOffsets)
  }

  lemma DBCellRoundTrip(d: DBCell)
    requires d.rowRecOffset < 0x1_0000_0000 && Fit16(d.cellOffsets)
    ensures DBCellLayout(EncodeDBCell(d)) == Success(d)
  {
    var b, k := EncodeDBCell(d), |d.cellOffsets|;
    var pre, p, empty := ToLE(d.rowRecOffset, 4), Pack16(d.cellOffsets), [];
    assert b == pre + p + empty;
    FlatLength(seq(k, i requires 0 <= i < k => ToLE(d.cellOffsets[i], 2)), 2);
    UIntLeft(pre, p, 0, 4);
    UIntToLE(d.rowRecOffset, 4);
    forall i | 0 <= i < k
      ensures UInt(b, 4 + 2 * i, 2) == d.cellOffsets[i]
    {
      Pack16After(pre, d.cellOffsets, empty, i);
    }
    DBCellEven(b, d.cellOffsets);
  }

  /** A record that stops short of its next field, or one byte into it. */
  lemma DBCellOdd(b: seq<Byte>, k: nat)
    requires |b| < 4 || |b| == 2 * k + 5
    ensures DBCellLayout(b) == Failure(BufferUnderrun)
  {
    if |b| >= 4 {
      assert |b| % 2 == 1 by {
        DivModUnique(|b|, 2, k + 2, 1);
      }
    }
  }

  /** A record read to its end in whole 16-bit words. */
  lemma DBCellEven(b: seq<Byte>, offsets: seq<nat>)
    requires |b| == 4 + 2 * |offsets|
    requires forall j :: 0 <= j < |offsets| ==> offsets[j] == UInt(b, 4 + 2 * j, 2)
    ensures DBCellLayout(b) == Success(DBCell(UInt(b, 0, 4), offsets))
  {
    var n := |offsets|;
    DivModUnique(|b|, 2, n + 2, 0);
    DivModUnique(|b| - 4, 2, n, 0);
    assert offsets == seq(n, i requires 0 <= i < n => UInt(b, 4 + 2 * i, 2));
  }

  /** `DBCell.parseBytes`: offsets are read while the record has bytes left. */
  method ParseDBCell(s: ByteStream) returns (r: Result<DBCell>)
    requires s.Valid() && s.pos == 0
    modifies s
    ensures s.Valid()
    ensures r == DBCellLayout(s.bytes)
    ensures r.Success? ==> s.IsEndOfRecord()
  {
    if s.Remaining() < 4 {
      DBCellOdd(s.bytes, 0);
    }
    var rowRecOffset :- s.ReadUnsignedInt(4);
    var offsets: seq<nat> := [];
    while !s.IsEndOfRecord()
      invariant s.Valid() && s.pos == 4 + 2 * |offsets|
      invariant forall j :: 0 <= j < |offsets| ==> 6 + 2 * j <= |s.bytes| && offsets[j] == UInt(s.bytes, 4 + 2 * j, 2)
      decreases |s.bytes| - s.pos
    {
      if s.Remaining() < 2 {
        DBCellOdd(s.bytes, |offsets|);
      }
      var cellOffset :- s.ReadUnsignedInt(2);
      offsets := offsets + [cellOffset];
    }
    DBCellEven(s.bytes, offsets);
    r := Success(DBCell(rowRecOffset, offsets));
  }

  // ---------------------------------------------------------------------
  // SXIVD

  /** size / 2 signed 16-bit field ids; an odd last byte is not read. */
  function SXIvdLayout(b: seq<Byte>): seq<int>
  {
    seq(|b| / 2, i requires 0 <= i < |b| / 2 => SInt(b, 2 * i, 2))
  }

  function EncodeSXIvd(ids: seq<int>): seq<Byte>
  {
    Pack16(seq(|ids|, i requires 0 <= i < |ids| => (ids[i] % 0x1_0000) as nat))
  }

  lemma SXIvdRoundTrip(ids: seq<int>, junk: seq<Byte>)
    requires forall i :: 0 <= i < |ids| ==> -0x8000 <= ids[i] < 0x8000
    requires |junk| <= 1
    ensures SXIvdLayout(EncodeSXIvd(ids) + junk) == ids
  {
    var k := |ids|;
    var ws := seq(k, i requires 0 <= i < k => (ids[i] % 0x1_0000) as nat);
    var b := EncodeSXIvd(ids) + junk;
    FlatLength(seq(k, i requires 0 <= i < k => ToLE(ws[i], 2)), 2);
    assert |b| / 2 == k;
    assert Pow256(2) == 0x1_0000;
    forall i | 0 <= i < k
      ensures SInt(b, 2 * i, 2) == ids[i]
    {
      Pack16Prefix(ws, junk, i);
    }
    assert SXIvdLayout(b) == ids;
  }

  /** `SXIvd.__parseBytes`. */
  method ParseSXIvd(s: ByteStream) returns (ids: seq<int>)
    requires s.Valid() && s.pos == 0
    modifies s
    ensures s.Valid()
    ensures ids == SXIvdLayout(s.bytes) && s.pos == 2 * |ids|
  {
    var n := s.GetSize() / 2;
    ids := [];
    var i := 0;
    while i < n
      invariant 0 <= i <= n && s.Valid() && s.pos == 2 * i
      invariant ids == SXIvdLayout(s.bytes)[..i]
    {
      var id := s.ReadSignedInt(2);
      ids := ids + [id.value];
      i := i + 1;
    }
  }
}
