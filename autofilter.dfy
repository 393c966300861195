/** AUTOFILTER: the filter settings of one column of an auto-filtered range. A
    flag word, two ten-byte condition slots (DOPER) whose layout depends on
    their type tag, then the text of each string condition, the first
    condition's before the second's. */
module Autofilter {
  import opened Bits
  import opened Stream
  import opened Collab
  import opened Workbook

  /** `Autofilter.DoperType`. */
  const FilterNotUsed: nat := 0x00
  const RKNumber: nat := 0x02
  const Number: nat := 0x04
  const String: nat := 0x06
  const BooleanOrError: nat := 0x08
  const MatchAllBlanks: nat := 0x0C
  const MatchAllNonBlanks: nat := 0x0E

  datatype Doper =
    | DoperRK(sign: nat, rkval: nat)
    | DoperNumber(sign: nat, number: nat)      // the IEEE-754 bit pattern
    | DoperString(sign: nat, strLen: nat)
    | DoperBoolean(sign: nat, flag: nat, value: nat)
    | DoperUntyped                             // `Doper()`: no data type, no comparison code

  predicate IsTypedTag(tag: nat)
  {
    tag == RKNumber || tag == Number || tag == String || tag == BooleanOrError
  }

  /** The bytes a condition slot takes, its tag included. The handler skips ten
      more bytes after a tag it does not decode (`corrected == false`); the slot
      is ten bytes in all, which the corrected reading skips. */
  function DoperSize(tag: nat, corrected: bool): nat
  {
    if IsTypedTag(tag) || corrected then 10 else 11
  }

  function DoperAt(b: seq<Byte>, off: nat, corrected: bool): Doper
    requires off < |b| && off + DoperSize(UInt(b, off, 1), corrected) <= |b|
  {
    var tag := UInt(b, off, 1);
    if tag == RKNumber then DoperRK(UInt(b, off + 1, 1), UInt(b, off + 2, 4))
    else if tag == Number then DoperNumber(UInt(b, off + 1, 1), UInt(b, off + 2, 8))
    else if tag == String then DoperString(UInt(b, off + 1, 1), UInt(b, off + 6, 1))
    else if tag == BooleanOrError then
      DoperBoolean(UInt(b, off + 1, 1), UInt(b, off + 2, 1), UInt(b, off + 3, 1))
    else DoperUntyped
  }

  /** The number of text bytes a condition asks for after the two slots. */
  function StrLen(d: Doper): nat
  {
    if d.DoperString? then d.strLen else 0
  }

  datatype Autofilter = Autofilter(
    filterIndex: nat,
    join: nat, simple1: nat, simple2: nat, top10: nat, top: nat, percent: nat,  // the masked flag bits
    itemCount: nat,
    doper1: Doper, doper2: Doper,
    string1: Option<string>, string2: Option<string>)

  /** The top-10 item count of the flag word: as written, the masked bits
      divided by 14; corrected, shifted down by 7. */
  function ItemCount(flag: nat, corrected: bool): nat
  {
    if corrected then BitAnd(flag, 0xFF80) / 0x80 else BitAnd(flag, 0xFF80) / (2 * 7)
  }

  /** The record in either reading: `corrected == false` is the handler as
      written (item count divided by 14, 11-byte untyped slots). */
  function AutofilterDecode(b: seq<Byte>, c: Collaborators, corrected: bool): Result<Autofilter>
  {
    if |b| < 5 then Failure(BufferUnderrun)
    else
      var n1 := DoperSize(UInt(b, 4, 1), corrected);
      if |b| < 5 + n1 then Failure(BufferUnderrun)
      else
        var n2 := DoperSize(UInt(b, 4 + n1, 1), corrected);
        if |b| < 4 + n1 + n2 then Failure(BufferUnderrun)
        else
          var d1, d2 := DoperAt(b, 4, corrected), DoperAt(b, 4 + n1, corrected);
          var p, l1, l2 := 4 + n1 + n2, StrLen(d1), StrLen(d2);
          if |b| < p + l1 + l2 then Failure(BufferUnderrun)
          else
            var flag := UInt(b, 2, 2);
            Success(Autofilter(UInt(b, 0, 2),
              BitAnd(flag, 0x0003), BitAnd(flag, 0x0004), BitAnd(flag, 0x0008),
              BitAnd(flag, 0x0010), BitAnd(flag, 0x0020), BitAnd(flag, 0x0040),
              ItemCount(flag, corrected), d1, d2,
              if d1.DoperString? then Some(c.textBytes(b[p..p + l1])) else None,
              if d2.DoperString? then Some(c.textBytes(b[p + l1..p + l1 + l2])) else None))
  }

  /** `Autofilter.__parseBytes` as written. */
  function AutofilterLayoutAsWritten(b: seq<Byte>, c: Collaborators): Result<Autofilter>
  {
    AutofilterDecode(b, c, false)
  }

  /** The record as the format lays it out: the item count is bits 7 to 15 and
      every slot is ten bytes. */
  function AutofilterLayout(b: seq<Byte>, c: Collaborators): Result<Autofilter>
  {
    AutofilterDecode(b, c, true)
  }

  /** The flag word: the join mode is bits 0-1, the four booleans are bits 2 to
      6 (each kept as its masked value, non-zero exactly when the bit is set),
      and the item count is the 9-bit field at bit 7. */
  lemma AutofilterFlags(b: seq<Byte>, c: Collaborators)
    requires AutofilterLayout(b, c).Success?
    ensures var a, flag := AutofilterLayout(b, c).value, UInt(b, 2, 2);
      a.join == Field(flag, 0, 2) &&
      (a.simple1 != 0) == Bit(flag, 2) && (a.simple2 != 0) == Bit(flag, 3) &&
      (a.top10 != 0) == Bit(flag, 4) && (a.top != 0) == Bit(flag, 5) &&
      (a.percent != 0) == Bit(flag, 6) &&
      a.itemCount == Field(flag, 7, 9)
  {
    var flag := UInt(b, 2, 2);
    Pow2Table();
    FlagField(flag, 0, 2, 0x0003, 1);
    FlagBit(flag, 2, 0x0004);
    FlagBit(flag, 3, 0x0008);
    FlagBit(flag, 4, 0x0010);
    FlagBit(flag, 5, 0x0020);
    FlagBit(flag, 6, 0x0040);
    FlagField(flag, 7, 9, 0xFF80, 0x80);
  }

  /** As written, the item count is the field shifted left by 7 and then
      divided by 14. */
  lemma ItemCountAsWritten(b: seq<Byte>, c: Collaborators)
    requires AutofilterLayoutAsWritten(b, c).Success?
    ensures AutofilterLayoutAsWritten(b, c).value.itemCount == Field(UInt(b, 2, 2), 7, 9) * 0x80 / 14
  {
    Pow2Table();
    MaskValue(7, 9);
    MaskShift(UInt(b, 2, 2), 7, 9);
  }

  /** When both condition slots carry a typed tag, the handler as written and
      the corrected reading agree on everything but the item count, and fail
      on the same records. */
  lemma ReadingsAgreeOnTypedSlots(b: seq<Byte>, c: Collaborators)
    requires |b| >= 5 && IsTypedTag(UInt(b, 4, 1)) && (|b| >= 15 ==> IsTypedTag(UInt(b, 14, 1)))
    ensures var w, r := AutofilterDecode(b, c, false), AutofilterDecode(b, c, true);
      w.Success? == r.Success? &&
      (w.Success? ==> w.value == r.value.(itemCount := ItemCount(UInt(b, 2, 2), false)))
  {
    assert DoperSize(UInt(b, 4, 1), false) == DoperSize(UInt(b, 4, 1), true) == 10;
    if |b| >= 15 {
      assert DoperSize(UInt(b, 14, 1), false) == DoperSize(UInt(b, 14, 1), true) == 10;
    }
  }

  // ---------------------------------------------------------------------
  // Encoding

  predicate DoperFits(d: Doper)
  {
    match d
    case DoperRK(sign, rkval) => sign < 256 && rkval < 0x1_0000_0000
    case DoperNumber(sign, number) => sign < 256 && number < 0x1_0000_0000_0000_0000
    case DoperString(sign, strLen) => sign < 256 && strLen < 256
    case DoperBoolean(sign, flag, value) => sign < 256 && flag < 256 && value < 256
    case DoperUntyped => true
  }

  /** The ten-byte slot; an untyped condition is written as an unused one. */
  function EncodeDoper(d: Doper): (e: seq<Byte>)
    requires DoperFits(d)
    ensures |e| == 10
  {
    match d
    case DoperRK(sign, rkval) => [RKNumber as Byte, sign as Byte] + ToLE(rkval, 4) + [0, 0, 0, 0]
    case DoperNumber(sign, number) => [Number as Byte, sign as Byte] + ToLE(number, 8)
    case DoperString(sign, strLen) => [String as Byte, sign as Byte, 0, 0, 0, 0, strLen as Byte, 0, 0, 0]
    case DoperBoolean(sign, flag, value) =>
      [BooleanOrError as Byte, sign as Byte, flag as Byte, value as Byte, 0, 0, 0, 0, 0, 0]
    case DoperUntyped => [0, 0, 0, 0, 0, 0, 0, 0, 0, 0]
  }

  lemma UIntByte(b: seq<Byte>, off: nat)
    requires off < |b|
    ensures UInt(b, off, 1) == b[off]
  {
    assert b[off..off + 1] == [b[off]];
  }

  /** A slot read from where it was written gives the condition back. */
  lemma DoperRoundTrip(d: Doper, b: seq<Byte>, off: nat)
    requires DoperFits(d) && off + 10 <= |b| && b[off..off + 10] == EncodeDoper(d)
    ensures DoperSize(UInt(b, off, 1), true) == 10
    ensures DoperAt(b, off, true) == d
  {
    var e := EncodeDoper(d);
    SlotByte(b, off, e, 0);
    SlotByte(b, off, e, 1);
    UIntByte(b, off);
    UIntByte(b, off + 1);
    match d
    case DoperRK(sign, rkval) =>
      SlotField(b, off, e, [RKNumber as Byte, sign as Byte], ToLE(rkval, 4), [0, 0, 0, 0]);
      UIntToLE(rkval, 4);
    case DoperNumber(sign, number) =>
      SlotField(b, off, e, [Number as Byte, sign as Byte], ToLE(number, 8), []);
      UIntToLE(number, 8);
    case DoperString(sign, strLen) =>
      SlotByte(b, off, e, 6);
      UIntByte(b, off + 6);
    case DoperBoolean(sign, flag, value) =>
      SlotByte(b, off, e, 2);
      SlotByte(b, off, e, 3);
      UIntByte(b, off + 2);
      UIntByte(b, off + 3);
    case DoperUntyped =>
  }

  /** A byte of a slot written at `off`. */
  lemma SlotByte(b: seq<Byte>, off: nat, e: seq<Byte>, k: nat)
    requires off + |e| <= |b| && b[off..off + |e|] == e && k < |e|
    ensures b[off + k] == e[k]
  {
    assert b[off..off + |e|][k] == b[off + k];
  }

  /** The two-byte head of a slot is followed by a field `v`, which reads back. */
  lemma SlotField(b: seq<Byte>, off: nat, e: seq<Byte>, head: seq<Byte>, v: seq<Byte>, tail: seq<Byte>)
    requires |head| == 2 && e == head + v + tail
    requires off + |e| <= |b| && b[off..off + |e|] == e
    ensures off + 2 + |v| <= |b| && UInt(b, off + 2, |v|) == UInt(v, 0, |v|)
  {
    UIntIn(b, off, e, 2, |v|);
    assert e[2..2 + |v|] == v;
    assert v[0..|v|] == v;
  }

  function EncodeAutofilter(filterIndex: nat, flag: nat, d1: Doper, d2: Doper, s1: seq<Byte>, s2: seq<Byte>): seq<Byte>
    requires DoperFits(d1) && DoperFits(d2)
  {
    ToLE(filterIndex, 2) + ToLE(flag, 2) + EncodeDoper(d1) + EncodeDoper(d2) + s1 + s2
  }

  /** Both conditions are read back from their slots, and each string
      condition takes its text from the bytes after the slots, the first
      condition's text before the second's. */
  lemma AutofilterRoundTrip(filterIndex: nat, flag: nat, d1: Doper, d2: Doper,
                            s1: seq<Byte>, s2: seq<Byte>, c: Collaborators)
    requires filterIndex < 0x1_0000 && flag < 0x1_0000 && DoperFits(d1) && DoperFits(d2)
    requires |s1| == StrLen(d1) && |s2| == StrLen(d2)
    ensures var r := AutofilterLayout(EncodeAutofilter(filterIndex, flag, d1, d2, s1, s2), c);
      r.Success? && r.value.filterIndex == filterIndex &&
      r.value.doper1 == d1 && r.value.doper2 == d2 &&
      r.value.string1 == (if d1.DoperString? then Some(c.textBytes(s1)) else None) &&
      r.value.string2 == (if d2.DoperString? then Some(c.textBytes(s2)) else None)
  {
    var b := EncodeAutofilter(filterIndex, flag, d1, d2, s1, s2);
    AutofilterParts(filterIndex, flag, d1, d2, s1, s2);
    DoperRoundTrip(d1, b, 4);
    DoperRoundTrip(d2, b, 14);
    AutofilterOfSlots(b, c, d1, d2);
  }

  /** Where the parts of an encoded record sit. */
  lemma AutofilterParts(filterIndex: nat, flag: nat, d1: Doper, d2: Doper, s1: seq<Byte>, s2: seq<Byte>)
    requires filterIndex < 0x1_0000 && DoperFits(d1) && DoperFits(d2)
    ensures var b := EncodeAutofilter(filterIndex, flag, d1, d2, s1, s2);
      |b| == 24 + |s1| + |s2| && UInt(b, 0, 2) == filterIndex &&
      b[4..14] == EncodeDoper(d1) && b[14..24] == EncodeDoper(d2) &&
      b[24..24 + |s1|] == s1 && b[24 + |s1|..24 + |s1| + |s2|] == s2
  {
    var e1, e2 := EncodeDoper(d1), EncodeDoper(d2);
    var head := ToLE(filterIndex, 2) + ToLE(flag, 2);
    var p1 := head + e1;
    var p2 := p1 + e2;
    var p3 := p2 + s1;
    var b := p3 + s2;
    assert b == EncodeAutofilter(filterIndex, flag, d1, d2, s1, s2);
    SliceRight(p3, s2);
    SliceLeft(p3, s2, 24, 24 + |s1|);
    SliceRight(p2, s1);
    SliceLeft(p3, s2, 4, 24);
    SliceLeft(p2, s1, 4, 24);
    SliceLeft(p1, e2, 4, 14);
    SliceRight(head, e1);
    assert b[4..14] == e1 by {
      assert b[4..24][..10] == b[4..14] && p2[4..24][..10] == p2[4..14];
    }
    assert b[14..24] == e2 by {
      assert b[4..24][10..] == b[14..24] && p2[4..24][10..] == p2[14..24];
      SliceRight(p1, e2);
    }
    SliceLeft(p3, s2, 0, 2);
    SliceLeft(p2, s1, 0, 2);
    SliceLeft(p1, e2, 0, 2);
    SliceLeft(head, e1, 0, 2);
    assert UInt(b, 0, 2) == UInt(head, 0, 2);
    UIntLeft(ToLE(filterIndex, 2), ToLE(flag, 2), 0, 2);
    UIntToLE(filterIndex, 2);
  }

  /** Two slots that read as `d1` and `d2`, followed by their texts. */
  lemma AutofilterOfSlots(b: seq<Byte>, c: Collaborators, d1: Doper, d2: Doper)
    requires 24 + StrLen(d1) + StrLen(d2) <= |b|
    requires DoperAt(b, 4, true) == d1 && DoperAt(b, 14, true) == d2
    ensures var r, l1, l2 := AutofilterLayout(b, c), StrLen(d1), StrLen(d2);
      r.Success? && r.value.filterIndex == UInt(b, 0, 2) &&
      r.value.doper1 == d1 && r.value.doper2 == d2 &&
      r.value.string1 == (if d1.DoperString? then Some(c.textBytes(b[24..24 + l1])) else None) &&
      r.value.string2 == (if d2.DoperString? then Some(c.textBytes(b[24 + l1..24 + l1 + l2])) else None)
  {
    assert DoperSize(UInt(b, 4, 1), true) == 10 && DoperSize(UInt(b, 14, 1), true) == 10;
  }

  // ---------------------------------------------------------------------
  // What the handler as written gets wrong

  /** Flag word 0x0080, an item count of 1, with two boolean conditions. */
  function ItemCountExample(): seq<Byte>
  {
    [0, 0, 0x80, 0] + [8, 0, 0, 0, 0, 0, 0, 0, 0, 0] + [8, 0, 0, 0, 0, 0, 0, 0, 0, 0]
  }

  /** The handler as written reports 9 items where the record says 1. */
  lemma ItemCountCounterexample(c: Collaborators)
    ensures AutofilterLayoutAsWritten(ItemCountExample(), c).Success?
    ensures AutofilterLayoutAsWritten(ItemCountExample(), c).value.itemCount == 9
    ensures AutofilterLayout(ItemCountExample(), c).Success?
    ensures AutofilterLayout(ItemCountExample(), c).value.itemCount == 1
  {
    var b := ItemCountExample();
    UIntByte(b, 4);
    UIntByte(b, 14);
    assert UInt(b, 2, 2) == 0x80 by {
      assert b[2..4] == [0x80, 0];
    }
    ItemCountMask();
  }

  /** Bit 7 alone, under the item-count mask. */
  lemma ItemCountMask()
    ensures BitAnd(0x80, 0xFF80) == 0x80
  {
    Pow2Table();
    MaskValue(7, 9);
    MaskShift(0x80, 7, 9);
    assert Field(0x80, 7, 9) == 1;
  }

  /** An unused first condition followed by a string condition with a
      one-byte text. */
  function UnusedSlotExample(): seq<Byte>
  {
    [0, 0, 0, 0] + [FilterNotUsed as Byte, 0, 0, 0, 0, 0, 0, 0, 0, 0] + [String as Byte, 2, 0, 0, 0, 0, 1, 0, 0, 0] + [0x78]
  }

  /** Skipping eleven bytes after an unused slot makes the handler as written
      take the comparison code of the second slot for its tag: it decodes an
      RK condition and loses the string. */
  lemma UnusedSlotCounterexample(c: Collaborators)
    ensures AutofilterLayoutAsWritten(UnusedSlotExample(), c).Success?
    ensures AutofilterLayoutAsWritten(UnusedSlotExample(), c).value.doper2.DoperRK?
    ensures AutofilterLayoutAsWritten(UnusedSlotExample(), c).value.string2 == None
    ensures AutofilterLayout(UnusedSlotExample(), c).Success?
    ensures AutofilterLayout(UnusedSlotExample(), c).value.doper2 == DoperString(2, 1)
    ensures AutofilterLayout(UnusedSlotExample(), c).value.string2 == Some(c.textBytes([0x78]))
  {
    var b := UnusedSlotExample();
    UIntByte(b, 4);
    UIntByte(b, 14);
    UIntByte(b, 15);
    UIntByte(b, 20);
    assert b[24..25] == [0x78];
  }

  // ---------------------------------------------------------------------
  // The handler

  /** `Autofilter.__readDoper`: as written (`corrected` false) it skips ten
      bytes after a tag it does not decode; corrected, it reads a ten-byte
      slot for every tag. */
  method ReadDoper(s: ByteStream, corrected: bool) returns (r: Result<Doper>)
    requires s.Valid()
    modifies s
    ensures s.Valid()
    ensures var p := old(s.pos);
      r.Success? <==> p < |s.bytes| && p + DoperSize(UInt(s.bytes, p, 1), corrected) <= |s.bytes|
    ensures var p := old(s.pos);
      r.Success? ==>
        s.pos == p + DoperSize(UInt(s.bytes, p, 1), corrected) && r.value == DoperAt(s.bytes, p, corrected)
    ensures r.Failure? ==> r.error == BufferUnderrun
  {
    var vt :- s.ReadUnsignedInt(1);
    if vt == RKNumber {
      r := ReadRKDoper(s);
    } else if vt == Number {
      r := ReadNumberDoper(s);
    } else if vt == String {
      r := ReadStringDoper(s);
    } else if vt == BooleanOrError {
      r := ReadBooleanDoper(s);
    } else {
      var unused :- s.ReadBytes(if corrected then 9 else 10);
      r := Success(DoperUntyped);
    }
  }

  /** The nine bytes after an RK tag: sign, the RK word, four unused bytes. */
  method ReadRKDoper(s: ByteStream) returns (r: Result<Doper>)
    requires s.Valid()
    modifies s
    ensures s.Valid()
    ensures r.Success? <==> old(s.pos) + 9 <= |s.bytes|
    ensures r.Success? ==>
      s.pos == old(s.pos) + 9 &&
      r.value == DoperRK(UInt(s.bytes, old(s.pos), 1), UInt(s.bytes, old(s.pos) + 1, 4))
    ensures r.Failure? ==> r.error == BufferUnderrun
  {
    var sign :- s.ReadUnsignedInt(1);
    var rkval :- s.ReadUnsignedInt(4);
    var unused :- s.ReadBytes(4);
    r := Success(DoperRK(sign, rkval));
  }

  /** The nine bytes after a number tag: sign and the IEEE-754 pattern. */
  method ReadNumberDoper(s: ByteStream) returns (r: Result<Doper>)
    requires s.Valid()
    modifies s
    ensures s.Valid()
    ensures r.Success? <==> old(s.pos) + 9 <= |s.bytes|
    ensures r.Success? ==>
      s.pos == old(s.pos) + 9 &&
      r.value == DoperNumber(UInt(s.bytes, old(s.pos), 1), UInt(s.bytes, old(s.pos) + 1, 8))
    ensures r.Failure? ==> r.error == BufferUnderrun
  {
    var sign :- s.ReadUnsignedInt(1);
    var number :- s.ReadDouble();
    r := Success(DoperNumber(sign, number));
  }

  /** The nine bytes after a string tag: sign, four unused bytes, the text
      length and three unused bytes. */
  method ReadStringDoper(s: ByteStream) returns (r: Result<Doper>)
    requires s.Valid()
    modifies s
    ensures s.Valid()
    ensures r.Success? <==> old(s.pos) + 9 <= |s.bytes|
    ensures r.Success? ==>
      s.pos == old(s.pos) + 9 &&
      r.value == DoperString(UInt(s.bytes, old(s.pos), 1), UInt(s.bytes, old(s.pos) + 5, 1))
    ensures r.Failure? ==> r.error == BufferUnderrun
  {
    var sign :- s.ReadUnsignedInt(1);
    var unused :- s.ReadBytes(4);
    var strLen :- s.ReadUnsignedInt(1);
    var unused2 :- s.ReadBytes(3);
    r := Success(DoperString(sign, strLen));
  }

  /** The nine bytes after a boolean-or-error tag: sign, the kind, the value
      and six unused bytes. */
  method ReadBooleanDoper(s: ByteStream) returns (r: Result<Doper>)
    requires s.Valid()
    modifies s
    ensures s.Valid()
    ensures r.Success? <==> old(s.pos) + 9 <= |s.bytes|
    ensures r.Success? ==>
      s.pos == old(s.pos) + 9 &&
      r.value == DoperBoolean(UInt(s.bytes, old(s.pos), 1), UInt(s.bytes, old(s.pos) + 1, 1),
                              UInt(s.bytes, old(s.pos) + 2, 1))
    ensures r.Failure? ==> r.error == BufferUnderrun
  {
    var sign :- s.ReadUnsignedInt(1);
    var flag :- s.ReadUnsignedInt(1);
    var value :- s.ReadUnsignedInt(1);
    var unused :- s.ReadBytes(6);
    r := Success(DoperBoolean(sign, flag, value));
  }

  /** `Autofilter.__parseBytes`: as written when `corrected` is false, with the
      two corrections of `AutofilterLayout` when it is true. */
  method ParseAutofilter(s: ByteStream, c: Collaborators, corrected: bool) returns (r: Result<Autofilter>)
    requires s.Valid() && s.pos == 0
    modifies s
    ensures s.Valid()
    ensures r == AutofilterDecode(s.bytes, c, corrected)
  {
    var filterIndex :- s.ReadUnsignedInt(2);
    var flag :- s.ReadUnsignedInt(2);
    var join, simple1, simple2 := BitAnd(flag, 0x0003), BitAnd(flag, 0x0004), BitAnd(flag, 0x0008);
    var top10, top, percent := BitAnd(flag, 0x0010), BitAnd(flag, 0x0020), BitAnd(flag, 0x0040);
    var itemCount := ItemCount(flag, corrected);
    var dopers :- ReadDopers(s, corrected);
    var strings :- ReadConditionTexts(s, c, dopers.0, dopers.1);
    r := Success(Autofilter(filterIndex, join, simple1, simple2, top10, top, percent, itemCount,
      dopers.0, dopers.1, strings.0, strings.1));
  }

  /** The two condition slots after the flag word. */
  method ReadDopers(s: ByteStream, corrected: bool) returns (r: Result<(Doper, Doper)>)
    requires s.Valid() && s.pos == 4
    modifies s
    ensures s.Valid()
    ensures var b := s.bytes;
      r.Success? <==>
        4 < |b| && 5 + DoperSize(UInt(b, 4, 1), corrected) <= |b| &&
        4 + DoperSize(UInt(b, 4, 1), corrected) + DoperSize(UInt(b, 4 + DoperSize(UInt(b, 4, 1), corrected), 1), corrected) <= |b|
    ensures var b := s.bytes;
      r.Success? ==>
        var n1 := DoperSize(UInt(b, 4, 1), corrected);
        s.pos == 4 + n1 + DoperSize(UInt(b, 4 + n1, 1), corrected) &&
        r.value == (DoperAt(b, 4, corrected), DoperAt(b, 4 + n1, corrected))
    ensures r.Failure? ==> r.error == BufferUnderrun
  {
    var doper1 :- ReadDoper(s, corrected);
    var doper2 :- ReadDoper(s, corrected);
    r := Success((doper1, doper2));
  }

  /** The text of each string condition, the first condition's first. */
  method ReadConditionTexts(s: ByteStream, c: Collaborators, doper1: Doper, doper2: Doper)
    returns (r: Result<(Option<string>, Option<string>)>)
    requires s.Valid()
    modifies s
    ensures s.Valid()
    ensures var p, l1, l2 := old(s.pos), StrLen(doper1), StrLen(doper2);
      (r.Success? <==> p + l1 + l2 <= |s.bytes|) &&
      (r.Success? ==>
        r.value.0 == (if doper1.DoperString? then Some(c.textBytes(s.bytes[p..p + l1])) else None) &&
        r.value.1 == (if doper2.DoperString? then Some(c.textBytes(s.bytes[p + l1..p + l1 + l2])) else None)) &&
      (r.Failure? ==> r.error == BufferUnderrun)
  {
    var string1: Option<string> := None;
    if doper1.DoperString? {
      var text :- s.ReadBytes(doper1.strLen);
      string1 := Some(c.textBytes(text));
    }
    var string2: Option<string> := None;
    if doper2.DoperString? {
      var text :- s.ReadBytes(doper2.strLen);
      string2 := Some(c.textBytes(text));
    }
    r := Success((string1, string2));
  }

  /** `Autofilter.fillModel`: one active filter arrow for the column, carrying
      the condition texts, in the given reading of the record. */
  method FillAutofilter(s: ByteStream, c: Collaborators, m: Model, corrected: bool) returns (res: Result<()>)
    requires s.Valid() && s.pos == 0
    modifies s, m
    ensures var a := AutofilterDecode(s.bytes, c, corrected);
      a.Success? ==>
        res.Success? &&
        m.ops == old(m.ops) + [SetAutoFilterArrow(a.value.filterIndex, true, a.value.string1, a.value.string2)]
    ensures var a := AutofilterDecode(s.bytes, c, corrected);
      a.Failure? ==> res == Failure(a.error) && m.ops == old(m.ops)
  {
    var r := ParseAutofilter(s, c, corrected);
    if r.Failure? {
      return Failure(r.error);
    }
    m.Perform(SetAutoFilterArrow(r.value.filterIndex, true, r.value.string1, r.value.string2));
    res := Success(());
  }
}
