/** EXTERNNAME: a name defined in another workbook, an add-in, a DDE link or
    an OLE link, and `ExternName.MOper`, the cached values an OLE link carries. */
module ExternName {
  import opened Bits
  import opened Stream
  import opened Collab

  // ---------------------------------------------------------------------
  // The option flags

  datatype ExternNameFlags = ExternNameFlags(
    builtin: bool, automatic: bool, wantPict: bool, isOLE: bool, isOLELink: bool,
    clipFormat: nat, displayAsIcon: bool)

  function DecodeExternNameFlags(flag: nat): ExternNameFlags
  {
    ExternNameFlags(BitAnd(flag, 0x0001) != 0, BitAnd(flag, 0x0002) != 0, BitAnd(flag, 0x0004) != 0,
      BitAnd(flag, 0x0008) != 0, BitAnd(flag, 0x0010) != 0, BitAnd(flag, 0x7FE0) / 32,
      BitAnd(flag, 0x8000) != 0)
  }

  /** Built-in is bit 0, automatic bit 1, picture format bit 2, OLE bit 3,
      OLE link bit 4, the last clip format bits 5-14 and display as icon bit 15. */
  lemma ExternNameFlagBits(flag: nat)
    ensures var f := DecodeExternNameFlags(flag);
      f.builtin == Bit(flag, 0) && f.automatic == Bit(flag, 1) && f.wantPict == Bit(flag, 2) &&
      f.isOLE == Bit(flag, 3) && f.isOLELink == Bit(flag, 4) && f.clipFormat == Field(flag, 5, 10) &&
      f.displayAsIcon == Bit(flag, 15)
  {
    Pow2Table();
    FlagBit(flag, 0, 0x0001);
    FlagBit(flag, 1, 0x0002);
    FlagBit(flag, 2, 0x0004);
    FlagBit(flag, 3, 0x0008);
    FlagBit(flag, 4, 0x0010);
    FlagField(flag, 5, 10, 0x7FE0, 32);
    FlagBit(flag, 15, 0x8000);
  }

  function ExternNameFlagValues(f: ExternNameFlags): seq<nat>
  {
    [B2N(f.builtin), B2N(f.automatic), B2N(f.wantPict), B2N(f.isOLE), B2N(f.isOLELink),
     f.clipFormat, B2N(f.displayAsIcon)]
  }

  const ExternNameFlagWidths: seq<nat> := [1, 1, 1, 1, 1, 10, 1]

  function EncodeExternNameFlags(f: ExternNameFlags): nat
  {
    PackBits(ExternNameFlagWidths, ExternNameFlagValues(f))
  }

  /** Where each flag starts in the flag word. */
  lemma ExternNameFlagOffsets()
    ensures var ws := ExternNameFlagWidths;
      Offset(ws, 1) == 1 && Offset(ws, 2) == 2 && Offset(ws, 3) == 3 && Offset(ws, 4) == 4 &&
      Offset(ws, 5) == 5 && Offset(ws, 6) == 15 && Offset(ws, 7) == 16
  {
  }

  lemma ExternNameFlagsPackLow(vs: seq<nat>)
    requires FitsWidths(ExternNameFlagWidths, vs)
    ensures var w := PackBits(ExternNameFlagWidths, vs);
      w < 0x1_0000 && Field(w, 0, 1) == vs[0] && Field(w, 1, 1) == vs[1] && Field(w, 2, 1) == vs[2]
  {
    var ws := ExternNameFlagWidths;
    ExternNameFlagOffsets();
    assert Pow2(16) == 0x1_0000 by {
      Pow2Table();
    }
    PackBitsBound(ws, vs);
    FieldOfPack(ws, vs, 0);
    FieldOfPack(ws, vs, 1);
    FieldOfPack(ws, vs, 2);
  }

  lemma ExternNameFlagsPackHigh(vs: seq<nat>)
    requires FitsWidths(ExternNameFlagWidths, vs)
    ensures var w := PackBits(ExternNameFlagWidths, vs);
      Field(w, 3, 1) == vs[3] && Field(w, 4, 1) == vs[4] && Field(w, 5, 10) == vs[5] &&
      Field(w, 15, 1) == vs[6]
  {
    var ws := ExternNameFlagWidths;
    ExternNameFlagOffsets();
    FieldOfPack(ws, vs, 3);
    FieldOfPack(ws, vs, 4);
    FieldOfPack(ws, vs, 5);
    FieldOfPack(ws, vs, 6);
  }

  /** The option flags survive packing into the flag word and decoding. */
  lemma ExternNameFlagsRoundTrip(f: ExternNameFlags)
    requires f.clipFormat < 1024
    ensures EncodeExternNameFlags(f) < 0x1_0000 && DecodeExternNameFlags(EncodeExternNameFlags(f)) == f
  {
    var vs := ExternNameFlagValues(f);
    assert FitsWidths(ExternNameFlagWidths, vs) by {
      assert Pow2(1) == 2 && Pow2(10) == 1024;
    }
    ExternNameFlagsPackLow(vs);
    ExternNameFlagsPackHigh(vs);
    ExternNameFlagBits(EncodeExternNameFlags(f));
  }

  // ---------------------------------------------------------------------
  // The record

  /** An OLE link carries a storage id and MOper bytes; any other external
      name a supporting-workbook index and formula tokens. */
  datatype ExternNameBody =
    | OleLink(storageID: nat, name: string, moper: seq<Byte>)
    | DefinedName(supbookID: nat, name: string, tokens: seq<Byte>)

  datatype ExternNameRecord = ExternNameRecord(flags: ExternNameFlags, body: ExternNameBody)

  /** Both kinds have seven header bytes: the flag word, four kind-specific
      bytes and the name length; the name follows, and the rest of the record
      is the MOper bytes or the formula tokens. */
  function ExternNameLayout(b: seq<Byte>, c: Collaborators): Result<ExternNameRecord>
  {
    if |b| < 7 then Failure(BufferUnderrun)
    else
      var flags := DecodeExternNameFlags(UInt(b, 0, 2));
      var t := c.unicodeString(b[7..], Some(UInt(b, 6, 1)));
      if t.consumed > |b| - 7 then Failure(BufferUnderrun)
      else
        var rest := b[7 + t.consumed..];
        if flags.isOLELink then Success(ExternNameRecord(flags, OleLink(UInt(b, 2, 4), t.text, rest)))
        else Success(ExternNameRecord(flags, DefinedName(UInt(b, 2, 2), t.text, rest)))
  }

  /** The flag word, the four kind-specific bytes and the name length. */
  function ExternNameHeaderBytes(r: ExternNameRecord, nameLen: nat): seq<Byte>
  {
    var kind := match r.body
      case OleLink(storageID, _, _) => ToLE(storageID, 4)
      case DefinedName(supbookID, _, _) => ToLE(supbookID, 2) + ToLE(0, 2);
    ToLE(EncodeExternNameFlags(r.flags), 2) + kind + ToLE(nameLen, 1)
  }

  function Trailing(body: ExternNameBody): seq<Byte>
  {
    match body
    case OleLink(_, _, moper) => moper
    case DefinedName(_, _, tokens) => tokens
  }

  /** The header, the name's bytes, then the trailing bytes. */
  function EncodeExternName(r: ExternNameRecord, nameLen: nat, nameBytes: seq<Byte>): seq<Byte>
  {
    ExternNameHeaderBytes(r, nameLen) + nameBytes + Trailing(r.body)
  }

  predicate ExternNameFits(r: ExternNameRecord, nameLen: nat)
  {
    r.flags.clipFormat < 1024 && nameLen < 256 && r.flags.isOLELink == r.body.OleLink? &&
    match r.body
    case OleLink(storageID, _, _) => storageID < 0x1_0000_0000
    case DefinedName(supbookID, _, _) => supbookID < 0x1_0000
  }

  /** A flag word, a four-byte id and a length byte read back. */
  lemma WideHeader(h: seq<Byte>, f: nat, id: nat, len: nat)
    requires f < 0x1_0000 && id < 0x1_0000_0000 && len < 256
    requires h == ToLE(f, 2) + ToLE(id, 4) + ToLE(len, 1)
    ensures |h| == 7 && UInt(h, 0, 2) == f && UInt(h, 2, 4) == id && UInt(h, 6, 1) == len
  {
    var empty: seq<Byte> := [];
    UIntAt(empty, f, 2, ToLE(id, 4) + ToLE(len, 1));
    assert empty + ToLE(f, 2) + (ToLE(id, 4) + ToLE(len, 1)) == h;
    UIntAt(ToLE(f, 2), id, 4, ToLE(len, 1));
    UIntAt(ToLE(f, 2) + ToLE(id, 4), len, 1, empty);
    assert ToLE(f, 2) + ToLE(id, 4) + ToLE(len, 1) + empty == h;
  }

  /** A flag word, a two-byte id, two unused bytes and a length byte read back. */
  lemma NarrowHeader(h: seq<Byte>, f: nat, id: nat, len: nat)
    requires f < 0x1_0000 && id < 0x1_0000 && len < 256
    requires h == ToLE(f, 2) + (ToLE(id, 2) + ToLE(0, 2)) + ToLE(len, 1)
    ensures |h| == 7 && UInt(h, 0, 2) == f && UInt(h, 2, 2) == id && UInt(h, 6, 1) == len
  {
    NarrowFlags(h, f, id, len);
    NarrowId(h, f, id, len);
    NarrowLength(h, f, id, len);
  }

  lemma NarrowFlags(h: seq<Byte>, f: nat, id: nat, len: nat)
    requires f < 0x1_0000 && id < 0x1_0000 && len < 256
    requires h == ToLE(f, 2) + (ToLE(id, 2) + ToLE(0, 2)) + ToLE(len, 1)
    ensures |h| == 7 && UInt(h, 0, 2) == f
  {
    var empty: seq<Byte> := [];
    var post := ToLE(id, 2) + ToLE(0, 2) + ToLE(len, 1);
    assert h == empty + ToLE(f, 2) + post;
    UIntAt(empty, f, 2, post);
  }

  lemma NarrowId(h: seq<Byte>, f: nat, id: nat, len: nat)
    requires f < 0x1_0000 && id < 0x1_0000 && len < 256
    requires h == ToLE(f, 2) + (ToLE(id, 2) + ToLE(0, 2)) + ToLE(len, 1)
    ensures UInt(h, 2, 2) == id
  {
    var post := ToLE(0, 2) + ToLE(len, 1);
    assert h == ToLE(f, 2) + ToLE(id, 2) + post;
    UIntAt(ToLE(f, 2), id, 2, post);
  }

  lemma NarrowLength(h: seq<Byte>, f: nat, id: nat, len: nat)
    requires f < 0x1_0000 && id < 0x1_0000 && len < 256
    requires h == ToLE(f, 2) + (ToLE(id, 2) + ToLE(0, 2)) + ToLE(len, 1)
    ensures UInt(h, 6, 1) == len
  {
    var empty: seq<Byte> := [];
    var pre := ToLE(f, 2) + (ToLE(id, 2) + ToLE(0, 2));
    assert h == pre + ToLE(len, 1) + empty;
    UIntAt(pre, len, 1, empty);
  }

  /** The seven header bytes read back. */
  lemma ExternNameHeader(r: ExternNameRecord, nameLen: nat)
    requires ExternNameFits(r, nameLen)
    ensures var h := ExternNameHeaderBytes(r, nameLen);
      |h| == 7 && DecodeExternNameFlags(UInt(h, 0, 2)) == r.flags && UInt(h, 6, 1) == nameLen &&
      (r.body.OleLink? ==> UInt(h, 2, 4) == r.body.storageID) &&
      (r.body.DefinedName? ==> UInt(h, 2, 2) == r.body.supbookID)
  {
    var f := EncodeExternNameFlags(r.flags);
    ExternNameFlagsRoundTrip(r.flags);
    match r.body {
      case OleLink(storageID, _, _) =>
        WideHeader(ExternNameHeaderBytes(r, nameLen), f, storageID, nameLen);
      case DefinedName(supbookID, _, _) =>
        NarrowHeader(ExternNameHeaderBytes(r, nameLen), f, supbookID, nameLen);
    }
  }

  /** An encoded external name decodes to itself, given a string reader that
      reads the name back from its own bytes; the kind follows the OLE-link
      flag and everything after the name is kept as the trailing bytes. */
  lemma ExternNameRoundTrip(r: ExternNameRecord, nameLen: nat, nameBytes: seq<Byte>, c: Collaborators)
    requires ExternNameFits(r, nameLen)
    requires c.unicodeString(nameBytes + Trailing(r.body), Some(nameLen)) == TextRead(r.body.name, |nameBytes|)
    ensures ExternNameLayout(EncodeExternName(r, nameLen, nameBytes), c) == Success(r)
  {
    var h, post := ExternNameHeaderBytes(r, nameLen), nameBytes + Trailing(r.body);
    var b := EncodeExternName(r, nameLen, nameBytes);
    ExternNameHeader(r, nameLen);
    assert b == h + post;
    UIntLeft(h, post, 0, 2);
    UIntLeft(h, post, 6, 1);
    if r.body.OleLink? {
      UIntLeft(h, post, 2, 4);
    } else {
      UIntLeft(h, post, 2, 2);
    }
    assert b[7..] == post;
    assert b[7 + |nameBytes|..] == Trailing(r.body);
  }

  /** `ExternName.__parseBytes`. */
  method ParseExternName(s: ByteStream, c: Collaborators) returns (r: Result<ExternNameRecord>)
    requires s.Valid() && s.pos == 0
    modifies s
    ensures s.Valid()
    ensures r == ExternNameLayout(s.bytes, c)
  {
    var flag :- s.ReadUnsignedInt(2);
    var flags := DecodeExternNameFlags(flag);
    if flags.isOLELink {
      var storageID :- s.ReadUnsignedInt(4);
      var nameLen :- s.ReadUnsignedInt(1);
      var name :- ReadUnicodeString(s, c, Some(nameLen));
      var moper := s.ReadRemainingBytes();
      r := Success(ExternNameRecord(flags, OleLink(storageID, name, moper)));
    } else {
      var supbookID :- s.ReadUnsignedInt(2);
      var reserved :- s.ReadUnsignedInt(2);
      var nameLen :- s.ReadUnsignedInt(1);
      var name :- ReadUnicodeString(s, c, Some(nameLen));
      var tokens := s.ReadRemainingBytes();
      r := Success(ExternNameRecord(flags, DefinedName(supbookID, name, tokens)));
    }
  }

  // ---------------------------------------------------------------------
  // MOper: the cached values of an OLE link

  datatype MOperValue =
    | MNumber(pattern: nat)     // an IEEE-754 double, as its 64-bit pattern
    | MString(text: string)
    | MBool(value: bool)
    | MError(code: nat)
    | MNil                      // any other tag: eight bytes skipped

  datatype MOper = MOper(lastCol: nat, lastRow: nat, values: seq<MOperValue>)

  /** A value read and the number of bytes it took. */
  function ValueEnd(v: MOperValue, q: nat): Result<(MOperValue, nat)>
  {
    Success((v, q))
  }

  /** One value of `MOper.parse`, read from the front of `b`: a tag byte,
      then eight bytes for a number, a boolean (one byte and seven unused),
      an error (likewise) or any other tag; a string takes what the string
      reader uses. The result holds the value and the bytes it took. */
  function MOperValueAt(b: seq<Byte>, c: Collaborators): (r: Result<(MOperValue, nat)>)
    ensures r.Success? ==> 0 < r.value.1 <= |b|
    ensures |b| > 0 && UInt(b, 0, 1) != 2 ==>
      (r.Success? <==> 9 <= |b|) && (r.Success? ==> r.value.1 == 9)
    ensures r.Failure? ==> r.error == BufferUnderrun
  {
    if |b| < 1 then Failure(BufferUnderrun)
    else
      var oc := UInt(b, 0, 1);
      if oc == 0x02 then
        var t := c.unicodeString(b[1..], None);
        if t.consumed > |b| - 1 then Failure(BufferUnderrun)
        else ValueEnd(MString(t.text), 1 + t.consumed)
      else if |b| < 9 then Failure(BufferUnderrun)
      else if oc == 0x01 then ValueEnd(MNumber(UInt(b, 1, 8)), 9)
      else if oc == 0x04 then ValueEnd(MBool(UInt(b, 1, 1) != 0), 9)
      else if oc == 0x10 then ValueEnd(MError(UInt(b, 1, 1)), 9)
      else ValueEnd(MNil, 9)
  }

  /** `n` more values from the front of `b`, after those already read. */
  function MOperValuesFrom(b: seq<Byte>, c: Collaborators, n: nat, acc: seq<MOperValue>)
    : Result<seq<MOperValue>>
    decreases n
  {
    if n == 0 then Success(acc)
    else
      match MOperValueAt(b, c)
      case Failure(e) => Failure(e)
      case Success((v, q)) => MOperValuesFrom(b[q..], c, n - 1, acc + [v])
  }

  /** Exactly `n` values are read, after those already read. */
  lemma {:induction false} MOperValuesCount(b: seq<Byte>, c: Collaborators, n: nat, acc: seq<MOperValue>)
    requires MOperValuesFrom(b, c, n, acc).Success?
    ensures var vs := MOperValuesFrom(b, c, n, acc).value; |vs| == |acc| + n && vs[..|acc|] == acc
    decreases n
  {
    if n > 0 {
      var (v, q) := MOperValueAt(b, c).value;
      MOperValuesCount(b[q..], c, n - 1, acc + [v]);
      assert (acc + [v])[..|acc|] == acc;
    }
  }

  /** The last column (one byte) and the last row (two), then one value per
      cell of the (lastCol + 1) x (lastRow + 1) array. */
  function MOperLayout(b: seq<Byte>, c: Collaborators): Result<MOper>
  {
    if |b| < 3 then Failure(BufferUnderrun)
    else
      var lastCol, lastRow := UInt(b, 0, 1), UInt(b, 1, 2);
      var n := (lastCol + 1) * (lastRow + 1);
      match MOperValuesFrom(b[3..], c, n, [])
      case Failure(e) => Failure(e)
      case Success(values) => Success(MOper(lastCol, lastRow, values))
  }

  /** One cached value per cell of the array. */
  lemma MOperCount(b: seq<Byte>, c: Collaborators)
    requires MOperLayout(b, c).Success?
    ensures var m := MOperLayout(b, c).value;
      |m.values| == (m.lastCol + 1) * (m.lastRow + 1) && m.lastCol == UInt(b, 0, 1) && m.lastRow == UInt(b, 1, 2)
  {
    var empty: seq<MOperValue> := [];
    MOperValuesCount(b[3..], c, (UInt(b, 0, 1) + 1) * (UInt(b, 1, 2) + 1), empty);
  }

  /** Each block holds one value, read back whatever follows it. */
  predicate ValueBlocks(c: Collaborators, blocks: seq<seq<Byte>>, vals: seq<MOperValue>, junk: seq<Byte>)
  {
    |blocks| == |vals| &&
    forall i :: 0 <= i < |blocks| ==> MOperValueAt(Blocks(blocks, i) + junk, c) == ValueEnd(vals[i], |blocks[i]|)
  }

  /** One value read, then the rest. */
  lemma ValuesFromStep(b: seq<Byte>, c: Collaborators, n: nat, acc: seq<MOperValue>, v: MOperValue, q: nat)
    requires n > 0 && MOperValueAt(b, c) == ValueEnd(v, q)
    ensures q <= |b| && MOperValuesFrom(b, c, n, acc) == MOperValuesFrom(b[q..], c, n - 1, acc + [v])
  {
  }

  /** The same step on a stream, from position `p` to position `q`. */
  lemma ValuesFromAdvance(bytes: seq<Byte>, p: nat, q: nat, c: Collaborators, n: nat, acc: seq<MOperValue>, v: MOperValue)
    requires p <= q <= |bytes| && n > 0 && MOperValueAt(bytes[p..], c) == ValueEnd(v, q - p)
    ensures MOperValuesFrom(bytes[p..], c, n, acc) == MOperValuesFrom(bytes[q..], c, n - 1, acc + [v])
  {
    ValuesFromStep(bytes[p..], c, n, acc, v, q - p);
    assert bytes[p..][q - p..] == bytes[q..];
  }

  lemma SnocSuffix<T>(acc: seq<T>, vals: seq<T>, i: nat)
    requires i < |vals|
    ensures acc + [vals[i]] + vals[i + 1..] == acc + vals[i..]
  {
    assert vals[i..] == [vals[i]] + vals[i + 1..];
  }

  /** A block read back, and the bytes after it. */
  lemma BlockStep(blocks: seq<seq<Byte>>, vals: seq<MOperValue>, junk: seq<Byte>, c: Collaborators, i: nat)
    requires ValueBlocks(c, blocks, vals, junk) && i < |blocks|
    ensures MOperValueAt(Blocks(blocks, i) + junk, c) == ValueEnd(vals[i], |blocks[i]|)
    ensures (Blocks(blocks, i) + junk)[|blocks[i]|..] == Blocks(blocks, i + 1) + junk
  {
    assert Blocks(blocks, i) + junk == blocks[i] + (Blocks(blocks, i + 1) + junk);
  }

  lemma {:induction false} MOperValuesRoundTrip(blocks: seq<seq<Byte>>, vals: seq<MOperValue>,
                                              junk: seq<Byte>, c: Collaborators, i: nat, acc: seq<MOperValue>)
    requires ValueBlocks(c, blocks, vals, junk) && i <= |blocks|
    ensures MOperValuesFrom(Blocks(blocks, i) + junk, c, |blocks| - i, acc) == Success(acc + vals[i..])
    decreases |blocks| - i
  {
    if i == |blocks| {
      assert acc + vals[i..] == acc;
    } else {
      BlockStep(blocks, vals, junk, c, i);
      ValuesFromStep(Blocks(blocks, i) + junk, c, |blocks| - i, acc, vals[i], |blocks[i]|);
      MOperValuesRoundTrip(blocks, vals, junk, c, i + 1, acc + [vals[i]]);
      SnocSuffix(acc, vals, i);
    }
  }

  function EncodeMOper(m: MOper, blocks: seq<seq<Byte>>): seq<Byte>
  {
    ToLE(m.lastCol, 1) + ToLE(m.lastRow, 2) + Blocks(blocks, 0)
  }

  /** An MOper array whose values are laid out block by block decodes to
      itself; bytes after the last cell are not read. */
  lemma MOperRoundTrip(m: MOper, blocks: seq<seq<Byte>>, junk: seq<Byte>, c: Collaborators)
    requires m.lastCol < 256 && m.lastRow < 0x1_0000
    requires |m.values| == (m.lastCol + 1) * (m.lastRow + 1)
    requires ValueBlocks(c, blocks, m.values, junk)
    ensures MOperLayout(EncodeMOper(m, blocks) + junk, c) == Success(m)
  {
    var pre := ToLE(m.lastCol, 1) + ToLE(m.lastRow, 2);
    var b := EncodeMOper(m, blocks) + junk;
    assert b == pre + (Blocks(blocks, 0) + junk);
    assert b[3..] == Blocks(blocks, 0) + junk;
    var empty: seq<Byte> := [];
    UIntAt(empty, m.lastCol, 1, ToLE(m.lastRow, 2) + (Blocks(blocks, 0) + junk));
    assert empty + ToLE(m.lastCol, 1) + (ToLE(m.lastRow, 2) + (Blocks(blocks, 0) + junk)) == b;
    UIntAt(ToLE(m.lastCol, 1), m.lastRow, 2, Blocks(blocks, 0) + junk);
    var none: seq<MOperValue> := [];
    MOperValuesRoundTrip(blocks, m.values, junk, c, 0, none);
    assert none + m.values[0..] == m.values;
    MOperLayoutOf(b, c, m);
  }

  /** The layout assembled from its three parts. */
  lemma MOperLayoutOf(b: seq<Byte>, c: Collaborators, m: MOper)
    requires |b| >= 3 && UInt(b, 0, 1) == m.lastCol && UInt(b, 1, 2) == m.lastRow
    requires MOperValuesFrom(b[3..], c, |m.values|, []) == Success(m.values)
    requires |m.values| == (m.lastCol + 1) * (m.lastRow + 1)
    ensures MOperLayout(b, c) == Success(m)
  {
  }

  /** The nine bytes of a value other than a string. */
  function EncodeFixedValue(v: MOperValue): seq<Byte>
    requires !v.MString?
  {
    match v
    case MNumber(pattern) => [1] + ToLE(pattern, 8)
    case MBool(value) => [4] + ToLE(if value then 1 else 0, 1) + ToLE(0, 7)
    case MError(code) => [0x10] + ToLE(code, 1) + ToLE(0, 7)
    case MNil => [0] + ToLE(0, 8)
  }

  /** A number, boolean, error or empty value takes nine bytes and reads back. */
  lemma FixedValueBlock(v: MOperValue, rest: seq<Byte>, c: Collaborators)
    requires !v.MString?
    requires v.MNumber? ==> v.pattern < Pow256(8)
    requires v.MError? ==> v.code < 256
    ensures MOperValueAt(EncodeFixedValue(v) + rest, c) == ValueEnd(v, 9)
  {
    var b := EncodeFixedValue(v) + rest;
    var empty: seq<Byte> := [];
    match v {
      case MNumber(pattern) =>
        TaggedBlock(b, 1, pattern, 8, empty, rest);
      case MBool(value) =>
        TaggedBlock(b, 4, if value then 1 else 0, 1, ToLE(0, 7), rest);
      case MError(code) =>
        TaggedBlock(b, 0x10, code, 1, ToLE(0, 7), rest);
      case MNil =>
        TaggedBlock(b, 0, 0, 8, empty, rest);
    }
  }

  /** A string value: the tag, then bytes the string reader reads back. */
  lemma StringValueBlock(text: string, textBytes: seq<Byte>, rest: seq<Byte>, c: Collaborators)
    requires c.unicodeString(textBytes + rest, None) == TextRead(text, |textBytes|)
    ensures MOperValueAt([2] + textBytes + rest, c) == ValueEnd(MString(text), 1 + |textBytes|)
  {
    var b := [2] + textBytes + rest;
    UIntAt([], 2, 1, textBytes + rest);
    assert [] + ToLE(2, 1) + (textBytes + rest) == b;
    assert b[1..] == textBytes + rest;
  }

  /** Reads one value at the current position. */
  method ReadMOperValue(s: ByteStream, c: Collaborators) returns (r: Result<MOperValue>)
    requires s.Valid()
    modifies s
    ensures s.Valid()
    ensures r.Success? ==> old(s.pos) <= s.pos && MOperValueAt(s.bytes[old(s.pos)..], c) == ValueEnd(r.value, s.pos - old(s.pos))
    ensures r.Failure? ==> MOperValueAt(s.bytes[old(s.pos)..], c) == Failure(r.error)
  {
    ghost var p := s.pos;
    ghost var rest := s.bytes[p..];
    var oc :- s.ReadUnsignedInt(1);
    UIntIn(s.bytes, p, rest, 0, 1);
    if oc == 0x01 {
      var val :- s.ReadDouble();
      UIntIn(s.bytes, p, rest, 1, 8);
      r := Success(MNumber(val));
    } else if oc == 0x02 {
      assert s.bytes[s.pos..] == rest[1..];
      ghost var t := c.unicodeString(rest[1..], None);
      var text := ReadUnicodeString(s, c, None);
      if text.Failure? {
        assert t.consumed > |rest| - 1;
        return Failure(text.error);
      }
      r := Success(MString(text.value));
    } else if oc == 0x04 {
      var v :- s.ReadUnsignedInt(1);
      UIntIn(s.bytes, p, rest, 1, 1);
      var unused :- s.ReadBytes(7);
      r := Success(MBool(v != 0));
    } else if oc == 0x10 {
      var err :- s.ReadUnsignedInt(1);
      UIntIn(s.bytes, p, rest, 1, 1);
      var unused :- s.ReadBytes(7);
      r := Success(MError(err));
    } else {
      var unused :- s.ReadBytes(8);
      r := Success(MNil);
    }
  }

  /** The cell values of `ExternName.MOper.parse`: `n` of them, in order. */
  method ReadMOperValues(s: ByteStream, c: Collaborators, n: nat) returns (r: Result<seq<MOperValue>>)
    requires s.Valid()
    modifies s
    ensures s.Valid()
    ensures r == MOperValuesFrom(old(s.bytes[s.pos..]), c, n, [])
  {
    ghost var all := MOperValuesFrom(s.bytes[s.pos..], c, n, []);
    var values: seq<MOperValue> := [];
    var i := 0;
    while i < n
      invariant 0 <= i <= n && s.Valid()
      invariant all == MOperValuesFrom(s.bytes[s.pos..], c, n - i, values)
    {
      ghost var p := s.pos;
      var v :- ReadMOperValue(s, c);
      ValuesFromAdvance(s.bytes, p, s.pos, c, n - i, values, v);
      values := values + [v];
      i := i + 1;
    }
    r := Success(values);
  }

  /** `ExternName.MOper.parse`, on a stream over the MOper bytes. */
  method ParseMOper(s: ByteStream, c: Collaborators) returns (r: Result<MOper>)
    requires s.Valid() && s.pos == 0
    modifies s
    ensures s.Valid()
    ensures r == MOperLayout(s.bytes, c)
  {
    var lastCol :- s.ReadUnsignedInt(1);
    var lastRow :- s.ReadUnsignedInt(2);
    var values :- ReadMOperValues(s, c, (lastCol + 1) * (lastRow + 1));
    r := Success(MOper(lastCol, lastRow, values));
  }
}
