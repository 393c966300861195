/** The CRN record (`Crn`): the values cached for one row of cells of a sheet
    in an external workbook. A header names the last and first column and the
    row; one tagged value follows per column. `fillModel` stores the values in
    the cache of the supporting workbook appended last, when that is an
    external document. */
module Crn {
  import opened Stream
  import opened Collab
  import opened Workbook

  datatype CrnRecord = CrnRecord(lastCol: nat, firstCol: nat, rowIndex: nat, cells: seq<CachedValue>)

  /** The tag each kind of cached value is stored under. */
  function TypeId(v: CachedValue): nat
  {
    match v
    case CachedEmpty => 0x00
    case CachedNumber(_) => 0x01
    case CachedString(_) => 0x02
    case CachedBool(_) => 0x04
    case CachedError(_) => 0x10
  }

  predicate KnownTag(tag: nat)
  {
    tag == 0x00 || tag == 0x01 || tag == 0x02 || tag == 0x04 || tag == 0x10
  }

  /** The columns `firstCol` to `lastCol`; none when the range is reversed. */
  function CellCount(lastCol: nat, firstCol: nat): nat
  {
    if lastCol >= firstCol then lastCol - firstCol + 1 else 0
  }

  /** A value read and the number of bytes it took. */
  function CellEnd(v: CachedValue, q: nat): Result<(CachedValue, nat)>
  {
    Success((v, q))
  }

  /** One value, read from the front of `b`: a tag byte, then eight bytes for
      the empty value (skipped), a number, a boolean or an error (one byte and
      seven unused); a string takes what the rich-text reader uses and its
      text goes through the name encoder. Any other tag stops the record. */
  function CellAt(b: seq<Byte>, c: Collaborators): (r: Result<(CachedValue, nat)>)
    ensures r.Success? ==> 0 < r.value.1 <= |b| && TypeId(r.value.0) == UInt(b, 0, 1)
    ensures |b| > 0 && !KnownTag(UInt(b, 0, 1)) ==> r == Failure(UnknownCrnValueType(UInt(b, 0, 1)))
    ensures |b| > 0 && KnownTag(UInt(b, 0, 1)) && UInt(b, 0, 1) != 0x02 ==>
      (r.Success? <==> 9 <= |b|) && (r.Success? ==> r.value.1 == 9)
    ensures r.Failure? && (|b| == 0 || KnownTag(UInt(b, 0, 1))) ==> r.error == BufferUnderrun
  {
    if |b| < 1 then Failure(BufferUnderrun)
    else
      var tag := UInt(b, 0, 1);
      if tag == 0x02 then
        var t := c.unicodeRichExtText(b[1..]);
        if t.consumed > |b| - 1 then Failure(BufferUnderrun)
        else CellEnd(CachedString(c.encodeName(t.text)), 1 + t.consumed)
      else if !KnownTag(tag) then Failure(UnknownCrnValueType(tag))
      else if |b| < 9 then Failure(BufferUnderrun)
      else if tag == 0x00 then CellEnd(CachedEmpty, 9)
      else if tag == 0x01 then CellEnd(CachedNumber(UInt(b, 1, 8)), 9)
      else if tag == 0x04 then CellEnd(CachedBool(UInt(b, 1, 1)), 9)
      else CellEnd(CachedError(UInt(b, 1, 1)), 9)
  }

  /** `n` more values from the front of `b`, after those already read. */
  function CellsFrom(b: seq<Byte>, c: Collaborators, n: nat, acc: seq<CachedValue>): Result<seq<CachedValue>>
    decreases n
  {
    if n == 0 then Success(acc)
    else
      match CellAt(b, c)
      case Failure(e) => Failure(e)
      case Success((v, q)) => CellsFrom(b[q..], c, n - 1, acc + [v])
  }

  /** Exactly `n` values are read, after those already read. */
  lemma {:induction false} CellsCount(b: seq<Byte>, c: Collaborators, n: nat, acc: seq<CachedValue>)
    requires CellsFrom(b, c, n, acc).Success?
    ensures var vs := CellsFrom(b, c, n, acc).value; |vs| == |acc| + n && vs[..|acc|] == acc
    decreases n
  {
    if n > 0 {
      var (v, q) := CellAt(b, c).value;
      CellsCount(b[q..], c, n - 1, acc + [v]);
      assert (acc + [v])[..|acc|] == acc;
    }
  }

  /** The first value that fails stops the whole row with its error. */
  lemma CellsFail(b: seq<Byte>, c: Collaborators, n: nat, acc: seq<CachedValue>)
    requires n > 0 && CellAt(b, c).Failure?
    ensures CellsFrom(b, c, n, acc) == Failure(CellAt(b, c).error)
  {
  }

  /** `Crn.__parseBytes`: last column (one byte), first column (one byte),
      row (two bytes), then one value per column. */
  function CrnLayout(b: seq<Byte>, c: Collaborators): Result<CrnRecord>
  {
    if |b| < 4 then Failure(BufferUnderrun)
    else
      var lastCol, firstCol, rowIndex := UInt(b, 0, 1), UInt(b, 1, 1), UInt(b, 2, 2);
      match CellsFrom(b[4..], c, CellCount(lastCol, firstCol), [])
      case Failure(e) => Failure(e)
      case Success(cells) => Success(CrnRecord(lastCol, firstCol, rowIndex, cells))
  }

  /** One cached value per column from the first to the last. */
  lemma CrnCount(b: seq<Byte>, c: Collaborators)
    requires CrnLayout(b, c).Success?
    ensures var r := CrnLayout(b, c).value;
      |r.cells| == CellCount(r.lastCol, r.firstCol) &&
      r.lastCol == UInt(b, 0, 1) && r.firstCol == UInt(b, 1, 1) && r.rowIndex == UInt(b, 2, 2)
  {
    var empty: seq<CachedValue> := [];
    CellsCount(b[4..], c, CellCount(UInt(b, 0, 1), UInt(b, 1, 1)), empty);
  }

  /** A row whose first value carries an unknown tag is rejected with that tag
      (the source reports the error and exits). */
  lemma CrnUnknownTag(b: seq<Byte>, c: Collaborators)
    requires |b| >= 5 && CellCount(UInt(b, 0, 1), UInt(b, 1, 1)) > 0 && !KnownTag(UInt(b, 4, 1))
    ensures CrnLayout(b, c) == Failure(UnknownCrnValueType(UInt(b, 4, 1)))
  {
    UIntIn(b, 4, b[4..], 0, 1);
    CellsFail(b[4..], c, CellCount(UInt(b, 0, 1), UInt(b, 1, 1)), []);
  }

  // ---------------------------------------------------------------------
  // Encoding and round trip

  /** Each block holds one value, read back whatever follows it. */
  predicate CellBlocks(c: Collaborators, blocks: seq<seq<Byte>>, cells: seq<CachedValue>, junk: seq<Byte>)
  {
    |blocks| == |cells| &&
    forall i :: 0 <= i < |blocks| ==> CellAt(Blocks(blocks, i) + junk, c) == CellEnd(cells[i], |blocks[i]|)
  }

  /** One value read, then the rest. */
  lemma CellsFromStep(b: seq<Byte>, c: Collaborators, n: nat, acc: seq<CachedValue>, v: CachedValue, q: nat)
    requires n > 0 && CellAt(b, c) == CellEnd(v, q)
    ensures q <= |b| && CellsFrom(b, c, n, acc) == CellsFrom(b[q..], c, n - 1, acc + [v])
  {
  }

  /** The same step on a stream, from position `p` to position `q`. */
  lemma CellsFromAdvance(bytes: seq<Byte>, p: nat, q: nat, c: Collaborators, n: nat, acc: seq<CachedValue>, v: CachedValue)
    requires p <= q <= |bytes| && n > 0 && CellAt(bytes[p..], c) == CellEnd(v, q - p)
    ensures CellsFrom(bytes[p..], c, n, acc) == CellsFrom(bytes[q..], c, n - 1, acc + [v])
  {
    CellsFromStep(bytes[p..], c, n, acc, v, q - p);
    assert bytes[p..][q - p..] == bytes[q..];
  }

  /** A block read back, and the bytes after it. */
  lemma CellBlockStep(blocks: seq<seq<Byte>>, cells: seq<CachedValue>, junk: seq<Byte>, c: Collaborators, i: nat)
    requires CellBlocks(c, blocks, cells, junk) && i < |blocks|
    ensures CellAt(Blocks(blocks, i) + junk, c) == CellEnd(cells[i], |blocks[i]|)
    ensures (Blocks(blocks, i) + junk)[|blocks[i]|..] == Blocks(blocks, i + 1) + junk
  {
    assert Blocks(blocks, i) + junk == blocks[i] + (Blocks(blocks, i + 1) + junk);
  }

  lemma CellsSnoc(acc: seq<CachedValue>, cells: seq<CachedValue>, i: nat)
    requires i < |cells|
    ensures acc + [cells[i]] + cells[i + 1..] == acc + cells[i..]
  {
    assert cells[i..] == [cells[i]] + cells[i + 1..];
  }

  lemma {:induction false} CellsRoundTrip(blocks: seq<seq<Byte>>, cells: seq<CachedValue>,
                                         junk: seq<Byte>, c: Collaborators, i: nat, acc: seq<CachedValue>)
    requires CellBlocks(c, blocks, cells, junk) && i <= |blocks|
    ensures CellsFrom(Blocks(blocks, i) + junk, c, |blocks| - i, acc) == Success(acc + cells[i..])
    decreases |blocks| - i
  {
    if i == |blocks| {
      assert acc + cells[i..] == acc;
    } else {
      CellBlockStep(blocks, cells, junk, c, i);
      CellsFromStep(Blocks(blocks, i) + junk, c, |blocks| - i, acc, cells[i], |blocks[i]|);
      CellsRoundTrip(blocks, cells, junk, c, i + 1, acc + [cells[i]]);
      CellsSnoc(acc, cells, i);
    }
  }

  function EncodeCrn(r: CrnRecord, blocks: seq<seq<Byte>>): seq<Byte>
  {
    ToLE(r.lastCol, 1) + ToLE(r.firstCol, 1) + ToLE(r.rowIndex, 2) + Blocks(blocks, 0)
  }

  /** The four header bytes read back. */
  lemma CrnHeader(h: seq<Byte>, r: CrnRecord)
    requires r.lastCol < 256 && r.firstCol < 256 && r.rowIndex < 0x1_0000
    requires h == ToLE(r.lastCol, 1) + ToLE(r.firstCol, 1) + ToLE(r.rowIndex, 2)
    ensures |h| == 4 && UInt(h, 0, 1) == r.lastCol && UInt(h, 1, 1) == r.firstCol && UInt(h, 2, 2) == r.rowIndex
  {
    var empty: seq<Byte> := [];
    UIntAt(empty, r.lastCol, 1, ToLE(r.firstCol, 1) + ToLE(r.rowIndex, 2));
    assert empty + ToLE(r.lastCol, 1) + (ToLE(r.firstCol, 1) + ToLE(r.rowIndex, 2)) == h;
    UIntAt(ToLE(r.lastCol, 1), r.firstCol, 1, ToLE(r.rowIndex, 2));
    UIntAt(ToLE(r.lastCol, 1) + ToLE(r.firstCol, 1), r.rowIndex, 2, empty);
    assert ToLE(r.lastCol, 1) + ToLE(r.firstCol, 1) + ToLE(r.rowIndex, 2) + empty == h;
  }

  /** The layout assembled from its parts. */
  lemma CrnLayoutOf(b: seq<Byte>, c: Collaborators, r: CrnRecord)
    requires |b| >= 4 && UInt(b, 0, 1) == r.lastCol && UInt(b, 1, 1) == r.firstCol && UInt(b, 2, 2) == r.rowIndex
    requires |r.cells| == CellCount(r.lastCol, r.firstCol)
    requires CellsFrom(b[4..], c, |r.cells|, []) == Success(r.cells)
    ensures CrnLayout(b, c) == Success(r)
  {
  }

  /** A row whose values are laid out block by block decodes to itself, one
      value per column; bytes after the last value are not read. */
  lemma CrnRoundTrip(r: CrnRecord, blocks: seq<seq<Byte>>, junk: seq<Byte>, c: Collaborators)
    requires r.lastCol < 256 && r.firstCol < 256 && r.rowIndex < 0x1_0000
    requires |r.cells| == CellCount(r.lastCol, r.firstCol)
    requires CellBlocks(c, blocks, r.cells, junk)
    ensures CrnLayout(EncodeCrn(r, blocks) + junk, c) == Success(r)
  {
    var h := ToLE(r.lastCol, 1) + ToLE(r.firstCol, 1) + ToLE(r.rowIndex, 2);
    var post := Blocks(blocks, 0) + junk;
    var b := EncodeCrn(r, blocks) + junk;
    CrnHeader(h, r);
    assert b == h + post;
    UIntLeft(h, post, 0, 1);
    UIntLeft(h, post, 1, 1);
    UIntLeft(h, post, 2, 2);
    assert b[4..] == post;
    var none: seq<CachedValue> := [];
    CellsRoundTrip(blocks, r.cells, junk, c, 0, none);
    assert none + r.cells[0..] == r.cells;
    CrnLayoutOf(b, c, r);
  }

  /** The nine bytes of a value other than a string. */
  function EncodeFixedCell(v: CachedValue): seq<Byte>
    requires !v.CachedString?
  {
    match v
    case CachedEmpty => [0x00] + ToLE(0, 8)
    case CachedNumber(pattern) => [0x01] + ToLE(pattern, 8)
    case CachedBool(value) => [0x04] + ToLE(value, 1) + ToLE(0, 7)
    case CachedError(value) => [0x10] + ToLE(value, 1) + ToLE(0, 7)
  }

  /** An empty, number, boolean or error value takes nine bytes and reads back. */
  lemma FixedCellBlock(v: CachedValue, rest: seq<Byte>, c: Collaborators)
    requires !v.CachedString?
    requires v.CachedNumber? ==> v.pattern < Pow256(8)
    requires (v.CachedBool? || v.CachedError?) ==> v.value < 256
    ensures CellAt(EncodeFixedCell(v) + rest, c) == CellEnd(v, 9)
  {
    var b := EncodeFixedCell(v) + rest;
    var empty: seq<Byte> := [];
    match v {
      case CachedEmpty =>
        TaggedBlock(b, 0x00, 0, 8, empty, rest);
      case CachedNumber(pattern) =>
        TaggedBlock(b, 0x01, pattern, 8, empty, rest);
      case CachedBool(value) =>
        TaggedBlock(b, 0x04, value, 1, ToLE(0, 7), rest);
      case CachedError(value) =>
        TaggedBlock(b, 0x10, value, 1, ToLE(0, 7), rest);
    }
  }

  /** A string value: the tag, then bytes the rich-text reader reads back; the
      value kept is the encoded text. */
  lemma StringCellBlock(raw: string, textBytes: seq<Byte>, rest: seq<Byte>, c: Collaborators)
    requires c.unicodeRichExtText(textBytes + rest) == TextRead(raw, |textBytes|)
    ensures CellAt([0x02] + textBytes + rest, c) == CellEnd(CachedString(c.encodeName(raw)), 1 + |textBytes|)
  {
    var b := [0x02] + textBytes + rest;
    UIntAt([], 0x02, 1, textBytes + rest);
    assert [] + ToLE(0x02, 1) + (textBytes + rest) == b;
    assert b[1..] == textBytes + rest;
  }

  // ---------------------------------------------------------------------
  // The model

  /** One cache entry per value, at consecutive columns of the row. */
  function CellOps(row: nat, firstCol: nat, cells: seq<CachedValue>): seq<ModelOp>
  {
    if |cells| == 0 then []
    else
      var i := |cells| - 1;
      CellOps(row, firstCol, cells[..i]) + [SetCachedValue(row, firstCol + i, TypeId(cells[i]), cells[i])]
  }

  /** The i-th entry stores the i-th value at column `firstCol + i`. */
  lemma {:induction false} CellOpsAt(row: nat, firstCol: nat, cells: seq<CachedValue>)
    ensures var ops := CellOps(row, firstCol, cells);
      |ops| == |cells| &&
      forall i :: 0 <= i < |cells| ==> ops[i] == SetCachedValue(row, firstCol + i, TypeId(cells[i]), cells[i])
    decreases |cells|
  {
    if |cells| > 0 {
      var n := |cells| - 1;
      CellOpsAt(row, firstCol, cells[..n]);
      assert forall i :: 0 <= i < n ==> cells[..n][i] == cells[i];
    }
  }

  /** `Crn.fillModel`: the values go to the cache only when the supporting
      workbook appended last is an external document. */
  function CrnOps(r: CrnRecord, sb: Option<Supbook>): seq<ModelOp>
  {
    if sb.Some? && sb.value.SupbookExternal? then CellOps(r.rowIndex, r.firstCol, r.cells) else []
  }

  function CrnEffect(b: seq<Byte>, c: Collaborators, sb: Option<Supbook>): Result<seq<ModelOp>>
  {
    match CrnLayout(b, c)
    case Failure(e) => Failure(e)
    case Success(r) => Success(CrnOps(r, sb))
  }

  /** Under an external supporting workbook, a decoded row fills exactly the
      columns `firstCol` to `lastCol` of its row, in order, each with its own
      value and tag; under any other supporting workbook nothing is stored. */
  lemma CrnColumns(b: seq<Byte>, c: Collaborators, sb: Option<Supbook>)
    requires CrnLayout(b, c).Success?
    ensures var r := CrnLayout(b, c).value; var ops := CrnOps(r, sb);
      CrnEffect(b, c, sb) == Success(ops) &&
      (sb.Some? && sb.value.SupbookExternal? ==>
        |ops| == CellCount(r.lastCol, r.firstCol) == |r.cells| &&
        (forall i :: 0 <= i < |ops| ==>
           ops[i] == SetCachedValue(r.rowIndex, r.firstCol + i, TypeId(r.cells[i]), r.cells[i])) &&
        (|ops| > 0 ==> ops[|ops| - 1].col == r.lastCol)) &&
      (!(sb.Some? && sb.value.SupbookExternal?) ==> ops == [])
  {
    var r := CrnLayout(b, c).value;
    CrnCount(b, c);
    RowColumns(r);
  }

  lemma RowColumns(r: CrnRecord)
    requires |r.cells| == CellCount(r.lastCol, r.firstCol)
    ensures var ops := CellOps(r.rowIndex, r.firstCol, r.cells);
      |ops| == |r.cells| &&
      (forall i :: 0 <= i < |ops| ==>
         ops[i] == SetCachedValue(r.rowIndex, r.firstCol + i, TypeId(r.cells[i]), r.cells[i])) &&
      (|ops| > 0 ==> ops[|ops| - 1].col == r.lastCol)
  {
    CellOpsAt(r.rowIndex, r.firstCol, r.cells);
  }

  // ---------------------------------------------------------------------
  // The handler

  /** Reads one value at the current position. */
  method ReadCell(s: ByteStream, c: Collaborators) returns (r: Result<CachedValue>)
    requires s.Valid()
    modifies s
    ensures s.Valid()
    ensures r.Success? ==> old(s.pos) <= s.pos && CellAt(s.bytes[old(s.pos)..], c) == CellEnd(r.value, s.pos - old(s.pos))
    ensures r.Failure? ==> CellAt(s.bytes[old(s.pos)..], c) == Failure(r.error)
  {
    ghost var p := s.pos;
    ghost var rest := s.bytes[p..];
    var typeId :- s.ReadUnsignedInt(1);
    UIntIn(s.bytes, p, rest, 0, 1);
    if typeId == 0x00 {
      var unused :- s.ReadBytes(8);
      r := Success(CachedEmpty);
    } else if typeId == 0x01 {
      var val :- s.ReadDouble();
      UIntIn(s.bytes, p, rest, 1, 8);
      r := Success(CachedNumber(val));
    } else if typeId == 0x02 {
      var t := c.unicodeRichExtText(s.bytes[s.pos..]);
      assert s.bytes[s.pos..] == rest[1..];
      var moved := s.MoveForward(t.consumed);
      if moved.Failure? {
        return Failure(moved.error);
      }
      r := Success(CachedString(c.encodeName(t.text)));
    } else if typeId == 0x04 {
      var val :- s.ReadUnsignedInt(1);
      UIntIn(s.bytes, p, rest, 1, 1);
      var unused :- s.ReadBytes(7);
      r := Success(CachedBool(val));
    } else if typeId == 0x10 {
      var val :- s.ReadUnsignedInt(1);
      UIntIn(s.bytes, p, rest, 1, 1);
      var unused :- s.ReadBytes(7);
      r := Success(CachedError(val));
    } else {
      r := Failure(UnknownCrnValueType(typeId));
    }
  }

  /** The values of one row: `n` of them, in order. */
  method ReadCells(s: ByteStream, c: Collaborators, n: nat) returns (r: Result<seq<CachedValue>>)
    requires s.Valid()
    modifies s
    ensures s.Valid()
    ensures r == CellsFrom(old(s.bytes[s.pos..]), c, n, [])
  {
    ghost var all := CellsFrom(s.bytes[s.pos..], c, n, []);
    var cells: seq<CachedValue> := [];
    var i := 0;
    while i < n
      invariant 0 <= i <= n && s.Valid()
      invariant all == CellsFrom(s.bytes[s.pos..], c, n - i, cells)
    {
      ghost var p := s.pos;
      var v :- ReadCell(s, c);
      CellsFromAdvance(s.bytes, p, s.pos, c, n - i, cells, v);
      cells := cells + [v];
      i := i + 1;
    }
    r := Success(cells);
  }

  /** `Crn.__parseBytes`, on a stream at the start of the record. */
  method ParseCrn(s: ByteStream, c: Collaborators) returns (r: Result<CrnRecord>)
    requires s.Valid() && s.pos == 0
    modifies s
    ensures s.Valid()
    ensures r == CrnLayout(s.bytes, c)
  {
    var lastCol :- s.ReadUnsignedInt(1);
    var firstCol :- s.ReadUnsignedInt(1);
    var rowIndex :- s.ReadUnsignedInt(2);
    var count := if lastCol >= firstCol then lastCol - firstCol + 1 else 0;
    var cells :- ReadCells(s, c, count);
    r := Success(CrnRecord(lastCol, firstCol, rowIndex, cells));
  }

  /** `Crn.fillModel`. */
  method FillCrn(s: ByteStream, c: Collaborators, m: Model) returns (res: Result<()>)
    requires s.Valid() && s.pos == 0
    modifies s, m
    ensures CrnEffect(s.bytes, c, LastSupbook(old(m.ops))).Success? ==>
      res.Success? && m.ops == old(m.ops) + CrnEffect(s.bytes, c, LastSupbook(old(m.ops))).value
    ensures CrnEffect(s.bytes, c, LastSupbook(old(m.ops))).Failure? ==>
      res == Failure(CrnEffect(s.bytes, c, LastSupbook(old(m.ops))).error) && m.ops == old(m.ops)
  {
    var r :- ParseCrn(s, c);
    CrnCount(s.bytes, c);
    var sb := m.GetLastSupbook();
    if !(sb.Some? && sb.value.SupbookExternal?) {
      return Success(());
    }
    ghost var before := m.ops;
    var col := r.firstCol;
    while col <= r.lastCol
      invariant r.firstCol <= col <= r.lastCol + 1 || (col == r.firstCol && r.lastCol < r.firstCol)
      invariant col - r.firstCol <= |r.cells|
      invariant m.ops == before + CellOps(r.rowIndex, r.firstCol, r.cells[..col - r.firstCol])
    {
      var i := col - r.firstCol;
      var v := r.cells[i];
      m.Perform(SetCachedValue(r.rowIndex, col, TypeId(v), v));
      assert r.cells[..i + 1][..i] == r.cells[..i];
      col := col + 1;
    }
    assert r.cells[..col - r.firstCol] == r.cells;
    res := Success(());
  }
}
