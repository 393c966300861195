/** The NAME record, a defined name: a 14-byte header of option flags and
    lengths, the name's text (decoded by `getRichText`) and the formula
    tokens. A built-in name `_FilterDatabase` gives the sheet's autofilter range. */
module Name {
  import opened Bits
  import opened Stream
  import opened Collab
  import opened Workbook

  datatype NameFlags = NameFlags(
    hidden: bool, funcMacro: bool, vbMacro: bool, macroName: bool, complFormula: bool,
    builtin: bool, funcGrp: nat, published: bool, workbookParam: bool)

  datatype NameRecord = NameRecord(
    flags: NameFlags, keyShortCut: nat, formulaLen: nat, sheetId: nat,
    menuTextLen: nat, descTextLen: nat, helpTextLen: nat, statTextLen: nat,
    name: string, tokens: seq<Byte>)

  function DecodeNameFlags(flag: nat): NameFlags
  {
    NameFlags(BitAnd(flag, 0x0001) != 0, BitAnd(flag, 0x0002) != 0, BitAnd(flag, 0x0004) != 0,
      BitAnd(flag, 0x0008) != 0, BitAnd(flag, 0x0010) != 0, BitAnd(flag, 0x0020) != 0,
      BitAnd(flag, 0x0FC0) / 64, BitAnd(flag, 0x2000) != 0, BitAnd(flag, 0x4000) != 0)
  }

  /** Hidden is bit 0, function macro bit 1, VB macro bit 2, macro name
      bit 3, complex formula bit 4, built-in bit 5, the function group
      bits 6-11, published bit 13 and workbook parameter bit 14. */
  lemma NameFlagBits(flag: nat)
    ensures var f := DecodeNameFlags(flag);
      f.hidden == Bit(flag, 0) && f.funcMacro == Bit(flag, 1) && f.vbMacro == Bit(flag, 2) &&
      f.macroName == Bit(flag, 3) && f.complFormula == Bit(flag, 4) && f.builtin == Bit(flag, 5) &&
      f.funcGrp == Field(flag, 6, 6) && f.published == Bit(flag, 13) && f.workbookParam == Bit(flag, 14)
  {
    Pow2Table();
    FlagBit(flag, 0, 0x0001);
    FlagBit(flag, 1, 0x0002);
    FlagBit(flag, 2, 0x0004);
    FlagBit(flag, 3, 0x0008);
    FlagBit(flag, 4, 0x0010);
    FlagBit(flag, 5, 0x0020);
    FlagField(flag, 6, 6, 0x0FC0, 64);
    FlagBit(flag, 13, 0x2000);
    FlagBit(flag, 14, 0x4000);
  }

  /** The fixed header, as read. */
  datatype NameHeader = NameHeader(
    flag: nat, keyShortCut: nat, nameLen: nat, formulaLen: nat, sheetId: nat,
    menuTextLen: nat, descTextLen: nat, helpTextLen: nat, statTextLen: nat)

  /** Flags, shortcut key, name length, formula length, two reserved bytes,
      the 1-based sheet id and four text lengths. */
  function NameHeaderAt(b: seq<Byte>): NameHeader
    requires |b| >= 14
  {
    NameHeader(UInt(b, 0, 2), UInt(b, 2, 1), UInt(b, 3, 1), UInt(b, 4, 2), UInt(b, 8, 2),
      UInt(b, 10, 1), UInt(b, 11, 1), UInt(b, 12, 1), UInt(b, 13, 1))
  }

  /** The header, then the name's text, which takes the bytes the text
      reader reports, then the formula tokens. */
  function NameLayout(b: seq<Byte>, c: Collaborators): Result<NameRecord>
  {
    if |b| < 14 then Failure(BufferUnderrun)
    else
      var h := NameHeaderAt(b);
      var t := c.richText(b[14..], Some(h.nameLen));
      if t.consumed > |b| - 14 then Failure(BufferUnderrun)
      else
        var p := 14 + t.consumed;
        if |b| < p + h.formulaLen then Failure(BufferUnderrun)
        else
          Success(NameRecord(DecodeNameFlags(h.flag), h.keyShortCut, h.formulaLen, h.sheetId,
            h.menuTextLen, h.descTextLen, h.helpTextLen, h.statTextLen, t.text, b[p..p + h.formulaLen]))
  }

  // ---------------------------------------------------------------------
  // Encoding

  /** The flag word's fields, least significant first; the two reserved bits are zero. */
  function NameFlagValues(f: NameFlags): seq<nat>
  {
    [B2N(f.hidden), B2N(f.funcMacro), B2N(f.vbMacro), B2N(f.macroName), B2N(f.complFormula),
     B2N(f.builtin), f.funcGrp, 0, B2N(f.published), B2N(f.workbookParam), 0]
  }

  const NameFlagWidths: seq<nat> := [1, 1, 1, 1, 1, 1, 6, 1, 1, 1, 1]

  function EncodeNameFlags(f: NameFlags): nat
  {
    PackBits(NameFlagWidths, NameFlagValues(f))
  }

  lemma NameFlagsFit(f: NameFlags)
    requires f.funcGrp < 64
    ensures FitsWidths(NameFlagWidths, NameFlagValues(f))
  {
    assert Pow2(1) == 2 && Pow2(6) == 64;
  }

  /** Where each flag starts in the flag word. */
  lemma NameFlagOffsets()
    ensures var ws := NameFlagWidths;
      Offset(ws, 1) == 1 && Offset(ws, 2) == 2 && Offset(ws, 3) == 3 && Offset(ws, 4) == 4 &&
      Offset(ws, 5) == 5 && Offset(ws, 6) == 6 && Offset(ws, 8) == 13 && Offset(ws, 9) == 14 &&
      Offset(ws, 11) == 16
  {
  }

  lemma NameFlagsPackLow(vs: seq<nat>)
    requires FitsWidths(NameFlagWidths, vs)
    ensures var w := PackBits(NameFlagWidths, vs);
      w < 0x1_0000 && Field(w, 0, 1) == vs[0] && Field(w, 1, 1) == vs[1] && Field(w, 2, 1) == vs[2]
  {
    var ws := NameFlagWidths;
    NameFlagOffsets();
    assert Pow2(16) == 0x1_0000 by {
      Pow2Table();
    }
    PackBitsBound(ws, vs);
    FieldOfPack(ws, vs, 0);
    FieldOfPack(ws, vs, 1);
    FieldOfPack(ws, vs, 2);
  }

  lemma NameFlagsPackMid(vs: seq<nat>)
    requires FitsWidths(NameFlagWidths, vs)
    ensures var w := PackBits(NameFlagWidths, vs);
      Field(w, 3, 1) == vs[3] && Field(w, 4, 1) == vs[4] && Field(w, 5, 1) == vs[5] &&
      Field(w, 6, 6) == vs[6]
  {
    var ws := NameFlagWidths;
    NameFlagOffsets();
    FieldOfPack(ws, vs, 6);
    FieldOfPack(ws, vs, 3);
    FieldOfPack(ws, vs, 4);
    FieldOfPack(ws, vs, 5);
  }

  lemma NameFlagsPackHigh(vs: seq<nat>)
    requires FitsWidths(NameFlagWidths, vs)
    ensures var w := PackBits(NameFlagWidths, vs);
      Field(w, 13, 1) == vs[8] && Field(w, 14, 1) == vs[9]
  {
    var ws := NameFlagWidths;
    NameFlagOffsets();
    FieldOfPack(ws, vs, 8);
    FieldOfPack(ws, vs, 9);
  }

  /** Option flags of a name survive packing into the flag word and decoding. */
  lemma NameFlagsRoundTrip(f: NameFlags)
    requires f.funcGrp < 64
    ensures EncodeNameFlags(f) < 0x1_0000 && DecodeNameFlags(EncodeNameFlags(f)) == f
  {
    var vs := NameFlagValues(f);
    NameFlagsFit(f);
    NameFlagsPackLow(vs);
    NameFlagsPackMid(vs);
    NameFlagsPackHigh(vs);
    NameFlagBits(EncodeNameFlags(f));
  }

  /** Two bytes packed in one little-endian word. */
  function BytePair(lo: nat, hi: nat): nat
  {
    lo + 256 * hi
  }

  /** The seven header words. */
  function NameHeaderWords(r: NameRecord, nameLen: nat): seq<nat>
  {
    [EncodeNameFlags(r.flags), BytePair(r.keyShortCut, nameLen), r.formulaLen, 0, r.sheetId,
     BytePair(r.menuTextLen, r.descTextLen), BytePair(r.helpTextLen, r.statTextLen)]
  }

  predicate NameFits(r: NameRecord, nameLen: nat)
  {
    r.flags.funcGrp < 64 && r.keyShortCut < 256 && nameLen < 256 && r.formulaLen == |r.tokens| &&
    r.formulaLen < 0x1_0000 && r.sheetId < 0x1_0000 && r.menuTextLen < 256 && r.descTextLen < 256 &&
    r.helpTextLen < 256 && r.statTextLen < 256
  }

  /** The header, the bytes of the name's text, then the formula tokens. */
  function EncodeName(r: NameRecord, nameLen: nat, nameBytes: seq<Byte>): seq<Byte>
  {
    Pack16(NameHeaderWords(r, nameLen)) + nameBytes + r.tokens
  }

  /** The two bytes of a packed word, read one at a time. */
  lemma WordBytes(vs: seq<nat>, post: seq<Byte>, i: nat, lo: nat, hi: nat)
    requires Fit16(vs) && i < |vs| && vs[i] == BytePair(lo, hi) && lo < 256
    ensures 2 * i + 2 <= |Pack16(vs) + post|
    ensures UInt(Pack16(vs) + post, 2 * i, 1) == lo && UInt(Pack16(vs) + post, 2 * i + 1, 1) == hi
  {
    var b := Pack16(vs) + post;
    Pack16Prefix(vs, post, i);
    var w := b[2 * i..2 * i + 2];
    assert w[1..] == b[2 * i + 1..2 * i + 2];
    assert LE(w) == w[0] + 256 * LE(w[1..]);
    assert LE(b[2 * i + 1..2 * i + 2]) == b[2 * i + 1] + 256 * LE([]) by {
      assert b[2 * i + 1..2 * i + 2][1..] == [];
    }
    assert b[2 * i..2 * i + 1] == [w[0]];
    assert LE([w[0]]) == w[0] + 256 * LE([]) by {
      assert [w[0]][1..] == [];
    }
    DivModUnique(vs[i], 256, hi, lo);
    DivModUnique(vs[i], 256, b[2 * i + 1], b[2 * i]);
  }

  /** The header fields of an encoded name read back. */
  lemma NameHeaderRoundTrip(r: NameRecord, nameLen: nat, post: seq<Byte>)
    requires NameFits(r, nameLen)
    ensures var b := Pack16(NameHeaderWords(r, nameLen)) + post;
      |b| == 14 + |post| && b[14..] == post &&
      DecodeNameFlags(UInt(b, 0, 2)) == r.flags && UInt(b, 2, 1) == r.keyShortCut && UInt(b, 3, 1) == nameLen &&
      UInt(b, 4, 2) == r.formulaLen && UInt(b, 8, 2) == r.sheetId &&
      UInt(b, 10, 1) == r.menuTextLen && UInt(b, 11, 1) == r.descTextLen &&
      UInt(b, 12, 1) == r.helpTextLen && UInt(b, 13, 1) == r.statTextLen
  {
    var vs := NameHeaderWords(r, nameLen);
    NameFlagsRoundTrip(r.flags);
    assert Fit16(vs);
    Pack16At(vs, 0);
    Pack16Prefix(vs, post, 0);
    Pack16Prefix(vs, post, 2);
    Pack16Prefix(vs, post, 4);
    WordBytes(vs, post, 1, r.keyShortCut, nameLen);
    WordBytes(vs, post, 5, r.menuTextLen, r.descTextLen);
    WordBytes(vs, post, 6, r.helpTextLen, r.statTextLen);
  }

  /** An encoded name record decodes to itself, given a text reader that
      reads the name's text back from its own bytes. */
  lemma NameRoundTrip(r: NameRecord, nameLen: nat, nameBytes: seq<Byte>, junk: seq<Byte>, c: Collaborators)
    requires NameFits(r, nameLen)
    requires c.richText(nameBytes + r.tokens + junk, Some(nameLen)) == TextRead(r.name, |nameBytes|)
    ensures NameLayout(EncodeName(r, nameLen, nameBytes) + junk, c) == Success(r)
  {
    var post := nameBytes + r.tokens + junk;
    var b := EncodeName(r, nameLen, nameBytes) + junk;
    assert b == Pack16(NameHeaderWords(r, nameLen)) + post;
    NameHeaderRoundTrip(r, nameLen, post);
    var p := 14 + |nameBytes|;
    assert b[p..p + r.formulaLen] == r.tokens;
  }

  // ---------------------------------------------------------------------
  // The workbook model

  /** `Name.fillModel`: only the built-in name 0x0D (`_FilterDatabase`)
      reaches the model, as the filter range of the sheet before its 1-based id. */
  function NameOps(r: NameRecord): seq<ModelOp>
  {
    if r.flags.builtin && |r.name| == 1 && r.name[0] as int == 0x0D then [SetFilterRange(r.sheetId - 1, r.tokens)]
    else []
  }

  /** A name sets a filter range exactly when bit 5 of its flags is set and
      its text is the single character 0x0D; the range is the name's
      formula tokens, for the 0-based sheet. */
  lemma NameFilterRange(b: seq<Byte>, c: Collaborators)
    requires NameLayout(b, c).Success?
    ensures var r := NameLayout(b, c).value; var ops := NameOps(r);
      |ops| <= 1 &&
      (ops != [] <==> Bit(UInt(b, 0, 2), 5) && r.name == ['\r']) &&
      (ops != [] ==> ops[0] == SetFilterRange(UInt(b, 8, 2) - 1, r.tokens) && |r.tokens| == UInt(b, 4, 2))
  {
    NameFlagBits(UInt(b, 0, 2));
    var r := NameLayout(b, c).value;
    if |r.name| == 1 && r.name[0] as int == 0x0D {
      assert r.name == ['\r'];
    }
  }

  // ---------------------------------------------------------------------
  // Parsing

  /** Flags, shortcut key, name length and formula length. */
  method ReadNameLead(s: ByteStream) returns (r: Result<(nat, nat, nat, nat)>)
    requires s.Valid() && s.pos == 0
    modifies s
    ensures s.Valid()
    ensures r.Success? <==> 6 <= |s.bytes|
    ensures r.Success? ==> s.pos == 6 && r.value == (UInt(s.bytes, 0, 2), UInt(s.bytes, 2, 1), UInt(s.bytes, 3, 1), UInt(s.bytes, 4, 2))
    ensures r.Failure? ==> r.error == BufferUnderrun
  {
    var flag :- s.ReadUnsignedInt(2);
    var keyShortCut :- s.ReadUnsignedInt(1);
    var nameLen :- s.ReadUnsignedInt(1);
    var formulaLen :- s.ReadUnsignedInt(2);
    r := Success((flag, keyShortCut, nameLen, formulaLen));
  }

  /** Two reserved bytes, the sheet id and the four text lengths. */
  method ReadNameLengths(s: ByteStream) returns (r: Result<(nat, nat, nat, nat, nat)>)
    requires s.Valid() && s.pos == 6
    modifies s
    ensures s.Valid()
    ensures r.Success? <==> 14 <= |s.bytes|
    ensures r.Success? ==> s.pos == 14 && r.value == (UInt(s.bytes, 8, 2), UInt(s.bytes, 10, 1), UInt(s.bytes, 11, 1), UInt(s.bytes, 12, 1), UInt(s.bytes, 13, 1))
    ensures r.Failure? ==> r.error == BufferUnderrun
  {
    var reserved :- s.ReadUnsignedInt(2);
    var sheetId :- s.ReadUnsignedInt(2);
    var menuTextLen :- s.ReadUnsignedInt(1);
    var descTextLen :- s.ReadUnsignedInt(1);
    var helpTextLen :- s.ReadUnsignedInt(1);
    var statTextLen :- s.ReadUnsignedInt(1);
    r := Success((sheetId, menuTextLen, descTextLen, helpTextLen, statTextLen));
  }

  method ReadNameHeader(s: ByteStream) returns (r: Result<NameHeader>)
    requires s.Valid() && s.pos == 0
    modifies s
    ensures s.Valid()
    ensures r.Success? <==> 14 <= |s.bytes|
    ensures r.Success? ==> s.pos == 14 && r.value == NameHeaderAt(s.bytes)
    ensures r.Failure? ==> r.error == BufferUnderrun
  {
    var lead :- ReadNameLead(s);
    var lens :- ReadNameLengths(s);
    r := Success(NameHeader(lead.0, lead.1, lead.2, lead.3, lens.0, lens.1, lens.2, lens.3, lens.4));
  }

  /** `Name.__parseBytes`. */
  method ParseName(s: ByteStream, c: Collaborators) returns (r: Result<NameRecord>)
    requires s.Valid() && s.pos == 0
    modifies s
    ensures s.Valid()
    ensures r == NameLayout(s.bytes, c)
  {
    var h :- ReadNameHeader(s);
    var t := c.richText(s.bytes[s.pos..], Some(h.nameLen));
    var nameBytes :- s.ReadBytes(t.consumed);
    var tokenBytes :- s.ReadBytes(h.formulaLen);
    r := Success(NameRecord(DecodeNameFlags(h.flag), h.keyShortCut, h.formulaLen, h.sheetId,
      h.menuTextLen, h.descTextLen, h.helpTextLen, h.statTextLen, t.text, tokenBytes));
  }

  /** `Name.fillModel`. */
  method FillName(s: ByteStream, c: Collaborators, m: Model) returns (res: Result<()>)
    requires s.Valid() && s.pos == 0
    modifies s, m
    ensures NameLayout(s.bytes, c).Success? ==>
      res.Success? && m.ops == old(m.ops) + NameOps(NameLayout(s.bytes, c).value)
    ensures NameLayout(s.bytes, c).Failure? ==>
      res == Failure(NameLayout(s.bytes, c).error) && m.ops == old(m.ops)
  {
    var r := ParseName(s, c);
    if r.Failure? {
      return Failure(r.error);
    }
    var n := r.value;
    if n.flags.builtin && |n.name| == 1 && n.name[0] as int == 0x0D {
      m.Perform(SetFilterRange(n.sheetId - 1, n.tokens));
    }
    res := Success(());
  }
}
