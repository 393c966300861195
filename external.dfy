/** The records that describe references to other workbooks: SUPBOOK (a
    supporting workbook) and EXTERNSHEET (the sheet ranges formulas refer
    to). */
module External {
  import opened Stream
  import opened Collab
  import opened Workbook

  // ---------------------------------------------------------------------
  // SUPBOOK

  /** `SupBook.Type`. */
  const SelfRef := 0x0401
  const AddIn := 0x3A01

  /** The sheet count and the kind, then, for an external document, the
      document URL and the sheet names. Kinds above 0xFF or 0 carry no names
      (`names` is not set). */
  datatype SupBookRecord = SupBookRecord(ctab: nat, sbType: nat, names: Option<seq<string>>)

  /** The names loop of `SupBook.__parseBytes`: one text after another until
      the end of the record, each reader call given the rest of the record.
      A reader that uses no bytes would never reach the end: `NoProgress`. */
  function NamesFrom(b: seq<Byte>, c: Collaborators, p: nat, acc: seq<string>): (r: Result<seq<string>>)
    requires p <= |b|
    ensures r.Success? && p < |b| ==> |r.value| > |acc|
    decreases |b| - p
  {
    if p == |b| then Success(acc)
    else
      var t := c.unicodeRichExtText(b[p..]);
      if t.consumed > |b| - p then Failure(BufferUnderrun)
      else if t.consumed == 0 then Failure(NoProgress)
      else NamesFrom(b, c, p + t.consumed, acc + [t.text])
  }

  /** The names start at byte 2, where the kind was read: for an external
      document those two bytes are the length of the URL. */
  function SupBookLayout(b: seq<Byte>, c: Collaborators): (r: Result<SupBookRecord>)
    ensures r.Success? && r.value.names.Some? ==> r.value.names.value != []
  {
    if |b| < 4 then Failure(BufferUnderrun)
    else
      var ctab, sbType := UInt(b, 0, 2), UInt(b, 2, 2);
      if sbType > 0xFF || sbType == 0 then Success(SupBookRecord(ctab, sbType, None))
      else
        match NamesFrom(b, c, 2, [])
        case Failure(e) => Failure(e)
        case Success(names) => Success(SupBookRecord(ctab, sbType, Some(names)))
  }

  /** `SupBook.fillModel`: every SUPBOOK record appends one supporting
      workbook, so that indices into the list stay in step with the records.
      An external document needs its names; a kind whose names were never
      read has none to give (the source fails there). */
  function SupBookOps(r: SupBookRecord): Result<seq<ModelOp>>
    requires r.names.Some? ==> r.names.value != []
  {
    if r.sbType == SelfRef then Success([AppendSupbook(SupbookSelf(r.ctab))])
    else if r.sbType == AddIn then Success([AppendSupbook(SupbookGeneric)])
    else
      match r.names
      case None => Failure(UnsupportedSupBookType(r.sbType))
      case Some(names) => Success([AppendSupbook(SupbookExternal(names[0], names[1..]))])
  }

  function SupBookEffect(b: seq<Byte>, c: Collaborators): Result<seq<ModelOp>>
  {
    match SupBookLayout(b, c)
    case Failure(e) => Failure(e)
    case Success(r) => SupBookOps(r)
  }

  /** The kind word decides the supporting workbook: self-referencing with
      the sheet count, the add-in placeholder, or an external document whose
      URL is the first name read and whose sheets are the others. */
  lemma SupBookKinds(b: seq<Byte>, c: Collaborators)
    requires SupBookLayout(b, c).Success?
    ensures var sbType, e := UInt(b, 2, 2), SupBookEffect(b, c);
      (sbType == SelfRef ==> e == Success([AppendSupbook(SupbookSelf(UInt(b, 0, 2)))])) &&
      (sbType == AddIn ==> e == Success([AppendSupbook(SupbookGeneric)])) &&
      (sbType != SelfRef && sbType != AddIn && (sbType > 0xFF || sbType == 0) ==>
        e == Failure(UnsupportedSupBookType(sbType))) &&
      (1 <= sbType <= 0xFF ==>
        var names := NamesFrom(b, c, 2, []).value;
        e == Success([AppendSupbook(SupbookExternal(names[0], names[1..]))]))
  {
  }

  /** A text reader that reads each of `names` back from its own bytes,
      whatever follows them in the record. */
  predicate ReadsBack(c: Collaborators, blocks: seq<seq<Byte>>, names: seq<string>)
  {
    |blocks| == |names| &&
    forall i :: 0 <= i < |blocks| ==>
      |blocks[i]| > 0 && c.unicodeRichExtText(FlatFrom(blocks, i)) == TextRead(names[i], |blocks[i]|)
  }

  /** The parts from the i-th on, laid end to end. */
  function FlatFrom(blocks: seq<seq<Byte>>, i: nat): seq<Byte>
    requires i <= |blocks|
    decreases |blocks| - i
  {
    if i == |blocks| then [] else blocks[i] + FlatFrom(blocks, i + 1)
  }

  /** Names laid end to end up to the end of the record are read back in order. */
  lemma {:induction false} NamesRoundTrip(pre: seq<Byte>, blocks: seq<seq<Byte>>, names: seq<string>,
                                         c: Collaborators, i: nat, acc: seq<string>)
    requires ReadsBack(c, blocks, names) && i <= |blocks|
    ensures NamesFrom(pre + FlatFrom(blocks, i), c, |pre|, acc) == Success(acc + names[i..])
    decreases |blocks| - i
  {
    var b := pre + FlatFrom(blocks, i);
    if i == |blocks| {
      assert b == pre;
      assert acc + names[i..] == acc;
    } else {
      var rest := FlatFrom(blocks, i + 1);
      assert b[|pre|..] == FlatFrom(blocks, i);
      assert FlatFrom(blocks, i) == blocks[i] + rest;
      var pre' := pre + blocks[i];
      assert b == pre' + rest;
      assert c.unicodeRichExtText(b[|pre|..]) == TextRead(names[i], |blocks[i]|);
      assert NamesFrom(b, c, |pre|, acc) == NamesFrom(b, c, |pre'|, acc + [names[i]]);
      NamesRoundTrip(pre', blocks, names, c, i + 1, acc + [names[i]]);
      assert acc + [names[i]] + names[i + 1..] == acc + names[i..];
    }
  }

  /** An external-document SUPBOOK: the sheet count, then the names, the
      first of which begins with its length (a value from 1 to 0xFF). It
      appends one external supporting workbook with the URL and the sheets. */
  lemma SupBookExternalRoundTrip(ctab: nat, blocks: seq<seq<Byte>>, names: seq<string>, c: Collaborators)
    requires ctab < 0x1_0000 && ReadsBack(c, blocks, names) && |blocks| > 0 && |blocks[0]| >= 2
    requires 1 <= UInt(blocks[0], 0, 2) <= 0xFF
    ensures var b := ToLE(ctab, 2) + FlatFrom(blocks, 0);
      SupBookLayout(b, c) == Success(SupBookRecord(ctab, UInt(blocks[0], 0, 2), Some(names))) &&
      SupBookEffect(b, c) == Success([AppendSupbook(SupbookExternal(names[0], names[1..]))])
  {
    var pre, f := ToLE(ctab, 2), FlatFrom(blocks, 0);
    var b := pre + f;
    assert f == blocks[0] + FlatFrom(blocks, 1);
    UIntToLE(ctab, 2);
    UIntLeft(pre, f, 0, 2);
    UIntRight(pre, f, 0, 2);
    UIntLeft(blocks[0], FlatFrom(blocks, 1), 0, 2);
    var empty: seq<string> := [];
    NamesRoundTrip(pre, blocks, names, c, 0, empty);
    assert empty + names[0..] == names;
  }

  /** A self-referencing SUPBOOK holds only the sheet count and the kind. */
  lemma SupBookSelfRoundTrip(ctab: nat, junk: seq<Byte>, c: Collaborators)
    requires ctab < 0x1_0000
    ensures var b := Pack16([ctab, SelfRef]) + junk;
      SupBookLayout(b, c) == Success(SupBookRecord(ctab, SelfRef, None)) &&
      SupBookEffect(b, c) == Success([AppendSupbook(SupbookSelf(ctab))])
  {
    var vs := [ctab, SelfRef];
    assert Fit16(vs);
    Pack16Prefix(vs, junk, 0);
    Pack16Prefix(vs, junk, 1);
  }

  /** Reads the names from the current position to the end of the record. */
  method ReadSupBookNames(s: ByteStream, c: Collaborators) returns (r: Result<seq<string>>)
    requires s.Valid()
    modifies s
    ensures s.Valid()
    ensures r == NamesFrom(s.bytes, c, old(s.pos), [])
  {
    ghost var p := s.pos;
    var names: seq<string> := [];
    while s.pos < s.GetSize()
      invariant s.Valid()
      invariant NamesFrom(s.bytes, c, p, []) == NamesFrom(s.bytes, c, s.pos, names)
      decreases |s.bytes| - s.pos
    {
      var t := c.unicodeRichExtText(s.bytes[s.pos..]);
      var moved := s.MoveForward(t.consumed);
      if moved.Failure? {
        return Failure(BufferUnderrun);
      }
      if t.consumed == 0 {
        return Failure(NoProgress);
      }
      names := names + [t.text];
    }
    r := Success(names);
  }

  /** `SupBook.__parseBytes`. */
  method ParseSupBook(s: ByteStream, c: Collaborators) returns (r: Result<SupBookRecord>)
    requires s.Valid() && s.pos == 0
    modifies s
    ensures s.Valid()
    ensures r == SupBookLayout(s.bytes, c)
  {
    var ctab :- s.ReadUnsignedInt(2);
    var sbType :- s.ReadUnsignedInt(2);
    if sbType > 0xFF || sbType == 0 {
      return Success(SupBookRecord(ctab, sbType, None));
    }
    s.MoveBack(2);
    var names :- ReadSupBookNames(s, c);
    r := Success(SupBookRecord(ctab, sbType, Some(names)));
  }

  /** `SupBook.fillModel`. */
  method FillSupBook(s: ByteStream, c: Collaborators, m: Model) returns (res: Result<()>)
    requires s.Valid() && s.pos == 0
    modifies s, m
    ensures SupBookEffect(s.bytes, c).Success? ==>
      res.Success? && m.ops == old(m.ops) + SupBookEffect(s.bytes, c).value
    ensures SupBookEffect(s.bytes, c).Failure? ==>
      res == Failure(SupBookEffect(s.bytes, c).error) && m.ops == old(m.ops)
  {
    var r :- ParseSupBook(s, c);
    if r.sbType == SelfRef {
      m.Perform(AppendSupbook(SupbookSelf(r.ctab)));
    } else if r.sbType == AddIn {
      m.Perform(AppendSupbook(SupbookGeneric));
    } else {
      if r.names.None? {
        return Failure(UnsupportedSupBookType(r.sbType));
      }
      var names := r.names.value;
      m.Perform(AppendSupbook(SupbookExternal(names[0], names[1..])));
    }
    res := Success(());
  }

  // ---------------------------------------------------------------------
  // EXTERNSHEET

  /** A reference into a supporting workbook: its index and a sheet range. */
  datatype Xti = Xti(book: nat, sheet1: nat, sheet2: nat)

  function XtiAt(b: seq<Byte>, i: nat): Xti
    requires 8 + 6 * i <= |b|
  {
    Xti(UInt(b, 2 + 6 * i, 2), UInt(b, 4 + 6 * i, 2), UInt(b, 6 + 6 * i, 2))
  }

  /** A 16-bit count, then that many six-byte (book, first sheet, last sheet) triples. */
  function ExternSheetLayout(b: seq<Byte>): Result<seq<Xti>>
  {
    if |b| < 2 then Failure(BufferUnderrun)
    else
      var count := UInt(b, 0, 2);
      if |b| < 2 + 6 * count then Failure(BufferUnderrun)
      else Success(seq(count, i requires 0 <= i < count => XtiAt(b, i)))
  }

  /** `ExternSheet.fillModel`: one extern sheet per triple, in record order. */
  function XtiOps(xs: seq<Xti>): seq<ModelOp>
  {
    seq(|xs|, i requires 0 <= i < |xs| => AppendExternSheet(xs[i].book, xs[i].sheet1, xs[i].sheet2))
  }

  /** The model receives exactly the stated number of extern sheets, the
      i-th from the six bytes at 2 + 6 i. */
  lemma ExternSheetOps(b: seq<Byte>)
    requires ExternSheetLayout(b).Success?
    ensures var ops := XtiOps(ExternSheetLayout(b).value);
      |ops| == UInt(b, 0, 2) && 2 + 6 * |ops| <= |b| &&
      forall i :: 0 <= i < |ops| ==>
        ops[i] == AppendExternSheet(UInt(b, 2 + 6 * i, 2), UInt(b, 4 + 6 * i, 2), UInt(b, 6 + 6 * i, 2))
  {
  }

  function XtiParts(xs: seq<Xti>): seq<seq<Byte>>
  {
    seq(|xs|, i requires 0 <= i < |xs| => Pack16([xs[i].book, xs[i].sheet1, xs[i].sheet2]))
  }

  function EncodeExternSheet(xs: seq<Xti>): seq<Byte>
  {
    ToLE(|xs|, 2) + Flat(XtiParts(xs))
  }

  predicate XtisFit(xs: seq<Xti>)
  {
    |xs| < 0x1_0000 && forall i :: 0 <= i < |xs| ==> Fit16([xs[i].book, xs[i].sheet1, xs[i].sheet2])
  }

  lemma XtiPartsWidth(xs: seq<Xti>)
    requires XtisFit(xs)
    ensures forall i :: 0 <= i < |xs| ==> |XtiParts(xs)[i]| == 6
    ensures |Flat(XtiParts(xs))| == 6 * |xs|
  {
    forall i | 0 <= i < |xs|
      ensures |XtiParts(xs)[i]| == 6
    {
      Pack16At([xs[i].book, xs[i].sheet1, xs[i].sheet2], 0);
    }
    FlatLength(XtiParts(xs), 6);
  }

  /** Encoding then decoding gives the triples back; bytes after the last
      counted triple are not read. */
  lemma ExternSheetRoundTrip(xs: seq<Xti>, junk: seq<Byte>)
    requires XtisFit(xs)
    ensures ExternSheetLayout(EncodeExternSheet(xs) + junk) == Success(xs)
  {
    var parts, k := XtiParts(xs), |xs|;
    var f := Flat(parts);
    var b := EncodeExternSheet(xs) + junk;
    XtiPartsWidth(xs);
    assert b == ToLE(k, 2) + (f + junk);
    UIntLeft(ToLE(k, 2), f + junk, 0, 2);
    UIntToLE(k, 2);
    assert b[2..2 + |f|] == f;
    forall i | 0 <= i < k
      ensures XtiAt(b, i) == xs[i]
    {
      XtiOfPart(b, xs, i);
    }
    assert seq(k, i requires 0 <= i < k => XtiAt(b, i)) == xs;
  }

  /** The i-th triple reads back from its own six bytes. */
  lemma XtiOfPart(b: seq<Byte>, xs: seq<Xti>, i: nat)
    requires XtisFit(xs) && i < |xs|
    requires forall j :: 0 <= j < |xs| ==> |XtiParts(xs)[j]| == 6
    requires |Flat(XtiParts(xs))| == 6 * |xs|
    requires 2 + |Flat(XtiParts(xs))| <= |b| && b[2..2 + |Flat(XtiParts(xs))|] == Flat(XtiParts(xs))
    ensures XtiAt(b, i) == xs[i]
  {
    var parts, ws := XtiParts(xs), [xs[i].book, xs[i].sheet1, xs[i].sheet2];
    FieldOfFlat(b, 2, parts, 6, i, 0, 2);
    FieldOfFlat(b, 2, parts, 6, i, 2, 2);
    FieldOfFlat(b, 2, parts, 6, i, 4, 2);
    Pack16At(ws, 0);
    Pack16At(ws, 1);
    Pack16At(ws, 2);
  }

  /** The count is binding: one byte short of the stated triples is an underrun. */
  lemma ExternSheetShort(xs: seq<Xti>)
    requires XtisFit(xs) && |xs| > 0
    ensures var e := EncodeExternSheet(xs); ExternSheetLayout(e[..|e| - 1]) == Failure(BufferUnderrun)
  {
    var e := EncodeExternSheet(xs);
    XtiPartsWidth(xs);
    UIntLeft(ToLE(|xs|, 2), Flat(XtiParts(xs)), 0, 2);
    UIntToLE(|xs|, 2);
    assert e[..|e| - 1][0..2] == e[0..2];
  }

  /** `ExternSheet.__parseBytes`. */
  method ParseExternSheet(s: ByteStream) returns (r: Result<seq<Xti>>)
    requires s.Valid() && s.pos == 0
    modifies s
    ensures s.Valid()
    ensures r == ExternSheetLayout(s.bytes)
    ensures r.Success? ==> s.pos == 2 + 6 * |r.value|
  {
    var num :- s.ReadUnsignedInt(2);
    var sheets: seq<Xti> := [];
    var i := 0;
    while i < num
      invariant 0 <= i <= num && s.Valid() && s.pos == 2 + 6 * i
      invariant num == UInt(s.bytes, 0, 2)
      invariant |sheets| == i
      invariant forall j :: 0 <= j < i ==> 8 + 6 * j <= |s.bytes| && sheets[j] == XtiAt(s.bytes, j)
    {
      var book :- s.ReadUnsignedInt(2);
      var sheet1 :- s.ReadUnsignedInt(2);
      var sheet2 :- s.ReadUnsignedInt(2);
      sheets := sheets + [Xti(book, sheet1, sheet2)];
      i := i + 1;
    }
    assert sheets == seq(num, j requires 0 <= j < num => XtiAt(s.bytes, j));
    r := Success(sheets);
  }

  /** `ExternSheet.fillModel`. */
  method FillExternSheet(s: ByteStream, m: Model) returns (res: Result<()>)
    requires s.Valid() && s.pos == 0
    modifies s, m
    ensures ExternSheetLayout(s.bytes).Success? ==>
      res.Success? && m.ops == old(m.ops) + XtiOps(ExternSheetLayout(s.bytes).value)
    ensures ExternSheetLayout(s.bytes).Failure? ==>
      res == Failure(ExternSheetLayout(s.bytes).error) && m.ops == old(m.ops)
  {
    var sheets :- ParseExternSheet(s);
    ghost var before := m.ops;
    var i := 0;
    while i < |sheets|
      invariant 0 <= i <= |sheets|
      invariant m.ops == before + XtiOps(sheets[..i])
    {
      m.Perform(AppendExternSheet(sheets[i].book, sheets[i].sheet1, sheets[i].sheet2));
      assert XtiOps(sheets[..i + 1]) == XtiOps(sheets[..i]) + [AppendExternSheet(sheets[i].book, sheets[i].sheet1, sheets[i].sheet2)];
      i := i + 1;
    }
    assert sheets[..i] == sheets;
    res := Success(());
  }
}
