/** The OBJ record: a sequence of typed, size-prefixed fields ending at a
    field of type `ftEnd` or at the end of the record. The common-object
    field (`ftCmo`) is decoded; every other field is kept as raw bytes. */
module Obj {
  import opened Bits
  import opened Stream
  import opened Format

  const FtEnd: nat := 0x00
  const FtCmo: nat := 0x15
  /** The only size a common-object field may declare. */
  const CmoSize: nat := 18

  datatype ObjField =
    | CmoField(objType: nat, objID: nat, flag: nat)
    | BadCmo(size: nat)                          // a common-object field of the wrong size, skipped
    | RawField(fieldType: nat, data: seq<Byte>)

  /** The field whose header is at `p`, once its bytes are known to be there. */
  function FieldAt(b: seq<Byte>, p: nat): ObjField
    requires p + 4 <= |b| && p + 4 + UInt(b, p + 2, 2) <= |b|
  {
    var fieldType, fieldSize := UInt(b, p, 2), UInt(b, p + 2, 2);
    if fieldType != FtCmo then RawField(fieldType, b[p + 4..p + 4 + fieldSize])
    else if fieldSize != CmoSize then BadCmo(fieldSize)
    else CmoField(UInt(b, p + 4, 2), UInt(b, p + 6, 2), UInt(b, p + 8, 2))
  }

  /** `fields` followed by the outcome `rest`. */
  function Prepend(fields: seq<ObjField>, rest: Result<seq<ObjField>>): Result<seq<ObjField>>
  {
    if rest.Success? then Success(fields + rest.value) else rest
  }

  /** The field whose header is at `p` and where the next header starts;
      nothing for a terminating field. */
  function NextField(b: seq<Byte>, p: nat): (r: Result<Option<(ObjField, nat)>>)
    ensures r.Failure? <==> |b| < p + 4 || (UInt(b, p, 2) != FtEnd && |b| < p + 4 + UInt(b, p + 2, 2))
    ensures r.Failure? ==> r.error == BufferUnderrun
    ensures r == Success(None) <==> p + 4 <= |b| && UInt(b, p, 2) == FtEnd
    ensures r.Success? && r.value.Some? ==>
      var q := r.value.value.1;
      q == p + 4 + UInt(b, p + 2, 2) <= |b| && r.value.value.0 == FieldAt(b, p)
  {
    if |b| < p + 4 then Failure(BufferUnderrun)
    else if UInt(b, p, 2) == FtEnd then Success(None)
    else if |b| < p + 4 + UInt(b, p + 2, 2) then Failure(BufferUnderrun)
    else Success(Some((FieldAt(b, p), p + 4 + UInt(b, p + 2, 2))))
  }

  /** The fields from offset `p` to the terminating field or the end of the record. */
  function FieldsFrom(b: seq<Byte>, p: nat): Result<seq<ObjField>>
    requires p <= |b|
    decreases |b| - p
  {
    if p == |b| then Success([])
    else
      match NextField(b, p)
      case Failure(e) => Failure(e)
      case Success(None) => Success([])
      case Success(Some((f, q))) => Prepend([f], FieldsFrom(b, q))
  }

  lemma PrependAssoc(fields: seq<ObjField>, f: ObjField, rest: Result<seq<ObjField>>)
    ensures Prepend(fields, Prepend([f], rest)) == Prepend(fields + [f], rest)
  {
    if rest.Success? {
      assert fields + ([f] + rest.value) == (fields + [f]) + rest.value;
    }
  }

  function ObjLayout(b: seq<Byte>): Result<seq<ObjField>>
  {
    FieldsFrom(b, 0)
  }

  // ---------------------------------------------------------------------
  // Encoding

  function EncodeField(f: ObjField): seq<Byte>
  {
    match f
    case CmoField(objType, objID, flag) => Pack16([FtCmo, CmoSize, objType, objID, flag]) + ZeroBytes(12)
    case BadCmo(size) => Pack16([FtCmo, size]) + ZeroBytes(size)
    case RawField(fieldType, data) => Pack16([fieldType, |data|]) + data
  }

  function EncodeFields(fs: seq<ObjField>): seq<Byte>
  {
    if fs == [] then [] else EncodeField(fs[0]) + EncodeFields(fs[1..])
  }

  /** A field the encoding can hold and that reads back as the same kind. */
  predicate FieldOk(f: ObjField)
  {
    match f
    case CmoField(objType, objID, flag) => objType < 0x1_0000 && objID < 0x1_0000 && flag < 0x1_0000
    case BadCmo(size) => size != CmoSize && size < 0x1_0000
    case RawField(fieldType, data) =>
      fieldType != FtEnd && fieldType != FtCmo && fieldType < 0x1_0000 && |data| < 0x1_0000
  }

  /** What may follow the last field: nothing, or a terminating field. */
  predicate Terminator(tail: seq<Byte>)
  {
    tail == [] || (|tail| >= 4 && UInt(tail, 0, 2) == FtEnd)
  }

  function ZeroBytes(n: nat): (z: seq<Byte>)
    ensures |z| == n
  {
    seq(n, _ => 0)
  }

  /** A field header and payload: the header words read back after any prefix. */
  lemma HeaderStep(pre: seq<Byte>, ws: seq<nat>, payload: seq<Byte>, post: seq<Byte>)
    requires Fit16(ws) && |ws| >= 2 && ws[1] == 2 * (|ws| - 2) + |payload|
    ensures var b := pre + Pack16(ws) + payload + post; var p := |pre|;
      p + 4 <= |b| && UInt(b, p, 2) == ws[0] && UInt(b, p + 2, 2) == ws[1] &&
      p + 4 + ws[1] == |pre + Pack16(ws) + payload| <= |b|
  {
    var b := pre + Pack16(ws) + payload + post;
    assert b == pre + Pack16(ws) + (payload + post);
    Pack16At(ws, 0);
    Pack16After(pre, ws, payload + post, 0);
    Pack16After(pre, ws, payload + post, 1);
  }

  /** The header at `p` is not a terminator, the field it announces is `f`
      and the next header is at `q`. */
  predicate StepsAt(b: seq<Byte>, p: nat, f: ObjField, q: nat)
  {
    p + 4 <= |b| && UInt(b, p, 2) != FtEnd && p + 4 + UInt(b, p + 2, 2) == q <= |b| && FieldAt(b, p) == f
  }

  lemma FieldsFromStep(b: seq<Byte>, p: nat, f: ObjField, q: nat)
    requires StepsAt(b, p, f, q) && FieldsFrom(b, q).Success?
    ensures FieldsFrom(b, p) == Success([f] + FieldsFrom(b, q).value)
  {
  }

  predicate StepsOver(pre: seq<Byte>, f: ObjField, post: seq<Byte>)
  {
    StepsAt(pre + EncodeField(f) + post, |pre|, f, |pre| + |EncodeField(f)|)
  }

  lemma CmoStep(pre: seq<Byte>, objType: nat, objID: nat, flag: nat, post: seq<Byte>)
    requires FieldOk(CmoField(objType, objID, flag))
    ensures StepsOver(pre, CmoField(objType, objID, flag), post)
  {
    var ws := [FtCmo, CmoSize, objType, objID, flag];
    var b := pre + EncodeField(CmoField(objType, objID, flag)) + post;
    assert Fit16(ws);
    assert b == pre + Pack16(ws) + ZeroBytes(12) + post;
    HeaderStep(pre, ws, ZeroBytes(12), post);
    assert b == pre + Pack16(ws) + (ZeroBytes(12) + post);
    Pack16After(pre, ws, ZeroBytes(12) + post, 2);
    Pack16After(pre, ws, ZeroBytes(12) + post, 3);
    Pack16After(pre, ws, ZeroBytes(12) + post, 4);
  }

  lemma BadCmoStep(pre: seq<Byte>, size: nat, post: seq<Byte>)
    requires FieldOk(BadCmo(size))
    ensures StepsOver(pre, BadCmo(size), post)
  {
    var ws := [FtCmo, size];
    assert Fit16(ws);
    assert pre + EncodeField(BadCmo(size)) + post == pre + Pack16(ws) + ZeroBytes(size) + post;
    HeaderStep(pre, ws, ZeroBytes(size), post);
  }

  lemma RawStep(pre: seq<Byte>, fieldType: nat, data: seq<Byte>, post: seq<Byte>)
    requires FieldOk(RawField(fieldType, data))
    ensures StepsOver(pre, RawField(fieldType, data), post)
  {
    var ws := [fieldType, |data|];
    var b := pre + EncodeField(RawField(fieldType, data)) + post;
    assert Fit16(ws);
    assert b == pre + Pack16(ws) + data + post;
    HeaderStep(pre, ws, data, post);
    assert b[|pre| + 4..|pre| + 4 + |data|] == data;
  }

  /** The field after `pre` is decoded from its own encoding, and the next
      one starts right after it. */
  lemma FieldStep(pre: seq<Byte>, f: ObjField, post: seq<Byte>)
    requires FieldOk(f)
    ensures StepsOver(pre, f, post)
  {
    match f
    case CmoField(objType, objID, flag) => CmoStep(pre, objType, objID, flag, post);
    case BadCmo(size) => BadCmoStep(pre, size, post);
    case RawField(fieldType, data) => RawStep(pre, fieldType, data, post);
  }

  /** The first of the encoded fields steps over its own bytes. */
  lemma FirstStep(pre: seq<Byte>, fs: seq<ObjField>, tail: seq<Byte>)
    requires fs != [] && FieldOk(fs[0])
    ensures var b, pre' := pre + EncodeFields(fs) + tail, pre + EncodeField(fs[0]);
      StepsAt(b, |pre|, fs[0], |pre'|) && b == pre' + EncodeFields(fs[1..]) + tail
  {
    var e0, rest := EncodeField(fs[0]), EncodeFields(fs[1..]);
    FieldStep(pre, fs[0], rest + tail);
    Regroup(pre, e0, rest, tail, fs[0]);
    assert EncodeFields(fs) == e0 + rest;
  }

  lemma Regroup(pre: seq<Byte>, e0: seq<Byte>, rest: seq<Byte>, tail: seq<Byte>, f: ObjField)
    requires StepsAt(pre + e0 + (rest + tail), |pre|, f, |pre| + |e0|)
    ensures StepsAt(pre + (e0 + rest) + tail, |pre|, f, |pre + e0|)
    ensures pre + (e0 + rest) + tail == pre + e0 + rest + tail
  {
    assert pre + (e0 + rest) + tail == pre + e0 + (rest + tail);
  }

  /** Encoded fields read back in order, whether the record ends after them
      or a terminating field follows; each field takes exactly the bytes its
      header declares. */
  lemma {:induction false} FieldsRoundTrip(pre: seq<Byte>, fs: seq<ObjField>, tail: seq<Byte>)
    requires forall i :: 0 <= i < |fs| ==> FieldOk(fs[i])
    requires Terminator(tail)
    ensures FieldsFrom(pre + EncodeFields(fs) + tail, |pre|) == Success(fs)
    decreases |fs|
  {
    var b := pre + EncodeFields(fs) + tail;
    if fs == [] {
      var empty: seq<Byte> := [];
      assert EncodeFields(fs) == empty;
      assert b == pre + tail;
      if tail != [] {
        UIntRight(pre, tail, 0, 2);
      }
    } else {
      var pre' := pre + EncodeField(fs[0]);
      FirstStep(pre, fs, tail);
      FieldsRoundTrip(pre', fs[1..], tail);
      FieldsFromStep(b, |pre|, fs[0], |pre'|);
      assert [fs[0]] + fs[1..] == fs;
    }
  }

  lemma ObjRoundTrip(fs: seq<ObjField>, tail: seq<Byte>)
    requires forall i :: 0 <= i < |fs| ==> FieldOk(fs[i])
    requires Terminator(tail)
    ensures ObjLayout(EncodeFields(fs) + tail) == Success(fs)
  {
    var empty: seq<Byte> := [];
    FieldsRoundTrip(empty, fs, tail);
    FromStart(empty, EncodeFields(fs), tail, Success(fs));
  }

  /** Reading after an empty prefix is reading the record from its start. */
  lemma FromStart(empty: seq<Byte>, e: seq<Byte>, tail: seq<Byte>, r: Result<seq<ObjField>>)
    requires empty == [] && FieldsFrom(empty + e + tail, |empty|) == r
    ensures ObjLayout(e + tail) == r
  {
    assert empty + e + tail == e + tail;
  }

  // ---------------------------------------------------------------------
  // The common-object field

  datatype CmoFlags = CmoFlags(
    locked: bool, defaultSize: bool, published: bool, printable: bool, disabled: bool,
    uiObj: bool, recalcObj: bool, recalcObjAlways: bool, autoFill: bool, autoLine: bool)

  function DecodeCmoFlags(flag: nat): CmoFlags
  {
    CmoFlags(BitAnd(flag, 0x0001) != 0, BitAnd(flag, 0x0004) != 0, BitAnd(flag, 0x0008) != 0,
      BitAnd(flag, 0x0010) != 0, BitAnd(flag, 0x0080) != 0, BitAnd(flag, 0x0100) != 0,
      BitAnd(flag, 0x0200) != 0, BitAnd(flag, 0x1000) != 0, BitAnd(flag, 0x2000) != 0,
      BitAnd(flag, 0x4000) != 0)
  }

  /** Locked is bit 0, default size bit 2, published 3, printable 4,
      disabled 7, UI object 8, recalculate 9, always recalculate 12,
      automatic fill 13 and automatic line 14. */
  lemma CmoFlagBits(flag: nat)
    ensures var f := DecodeCmoFlags(flag);
      f.locked == Bit(flag, 0) && f.defaultSize == Bit(flag, 2) && f.published == Bit(flag, 3) &&
      f.printable == Bit(flag, 4) && f.disabled == Bit(flag, 7) && f.uiObj == Bit(flag, 8) &&
      f.recalcObj == Bit(flag, 9) && f.recalcObjAlways == Bit(flag, 12) &&
      f.autoFill == Bit(flag, 13) && f.autoLine == Bit(flag, 14)
  {
    Pow2Table();
    FlagBit(flag, 0, 0x0001);
    FlagBit(flag, 2, 0x0004);
    FlagBit(flag, 3, 0x0008);
    FlagBit(flag, 4, 0x0010);
    FlagBit(flag, 7, 0x0080);
    FlagBit(flag, 8, 0x0100);
    FlagBit(flag, 9, 0x0200);
    FlagBit(flag, 12, 0x1000);
    FlagBit(flag, 13, 0x2000);
    FlagBit(flag, 14, 0x4000);
  }

  const CmoTypes: seq<string> := [
    "Group", "Line", "Rectangle", "Oval", "Arc", "Chart", "Text", "Button", "Picture", "Polygon",
    "(Reserved)", "Check box", "Option button", "Edit box", "Label", "Dialog box", "Spinner",
    "Scroll bar", "List box", "Group box", "Combo box", "(Reserved)", "(Reserved)", "(Reserved)",
    "(Reserved)", "Comment", "(Reserved)", "(Reserved)", "(Reserved)", "(Reserved)",
    "Microsoft Office drawing"]

  /** `Obj.Cmo.getType`. */
  function CmoTypeName(typeID: nat): string
  {
    if typeID < |CmoTypes| then CmoTypes[typeID] else "(unknown) (0x" + Hex(typeID, 2, true) + ")"
  }

  /** The table has 31 names; any other id is shown as unknown with its
      hex value, which reads back as the id. */
  lemma CmoTypeNames(typeID: nat)
    ensures |CmoTypes| == 31
    ensures typeID >= 31 ==>
      var r := CmoTypeName(typeID);
      |r| >= 15 && r[..13] == "(unknown) (0x" && r[|r| - 1] == ')' && ValueOf(r[13..|r| - 1], 16) == typeID
  {
    if typeID >= 31 {
      var r := CmoTypeName(typeID);
      var h := Hex(typeID, 2, true);
      HexRoundTrip(typeID, 2, true);
      assert r[13..|r| - 1] == h;
    }
  }

  // ---------------------------------------------------------------------
  // Parsing

  /** `Obj.parseCmo`: a field of the wrong size is skipped by its size. */
  method ParseCmo(s: ByteStream, size: nat) returns (r: Result<ObjField>)
    requires s.Valid()
    modifies s
    ensures s.Valid()
    ensures r.Success? <==> old(s.pos) + size <= |s.bytes|
    ensures r.Success? ==> s.pos == old(s.pos) + size
    ensures r.Success? ==>
      r.value == (if size != CmoSize then BadCmo(size)
        else CmoField(UInt(s.bytes, old(s.pos), 2), UInt(s.bytes, old(s.pos) + 2, 2), UInt(s.bytes, old(s.pos) + 4, 2)))
    ensures r.Failure? ==> r.error == BufferUnderrun
  {
    if size != CmoSize {
      var skipped :- s.ReadBytes(size);
      return Success(BadCmo(size));
    }
    var objType :- s.ReadUnsignedInt(2);
    var objID :- s.ReadUnsignedInt(2);
    var flag :- s.ReadUnsignedInt(2);
    var unused1 :- s.ReadUnsignedInt(4);
    var unused2 :- s.ReadUnsignedInt(4);
    var unused3 :- s.ReadUnsignedInt(4);
    r := Success(CmoField(objType, objID, flag));
  }

  /** One field header and the field it announces. */
  method ReadField(s: ByteStream) returns (r: Result<Option<ObjField>>)
    requires s.Valid()
    modifies s
    ensures s.Valid()
    ensures var e := NextField(s.bytes, old(s.pos));
      (r.Success? <==> e.Success?) && (r.Failure? ==> r.error == e.error) &&
      (r.Success? ==> (r.value.Some? <==> e.value.Some?)) &&
      (r.Success? && r.value.Some? ==> r.value.value == e.value.value.0 && s.pos == e.value.value.1)
  {
    ghost var p := s.pos;
    var fieldType :- s.ReadUnsignedInt(2);
    var fieldSize :- s.ReadUnsignedInt(2);
    if fieldType == FtEnd {
      return Success(None);
    }
    var f: ObjField;
    if fieldType == FtCmo {
      f :- ParseCmo(s, fieldSize);
    } else {
      var fieldBytes :- s.ReadBytes(fieldSize);
      f := RawField(fieldType, fieldBytes);
    }
    assert s.pos == p + 4 + fieldSize && f == FieldAt(s.bytes, p);
    r := Success(Some(f));
  }

  /** `Obj.parseBytes`, collecting the fields instead of printing them. */
  method ParseObj(s: ByteStream) returns (r: Result<seq<ObjField>>)
    requires s.Valid() && s.pos == 0
    modifies s
    ensures s.Valid()
    ensures r == ObjLayout(s.bytes)
  {
    var fields: seq<ObjField> := [];
    assert Prepend(fields, FieldsFrom(s.bytes, 0)) == FieldsFrom(s.bytes, 0) by {
      if FieldsFrom(s.bytes, 0).Success? {
        assert [] + FieldsFrom(s.bytes, 0).value == FieldsFrom(s.bytes, 0).value;
      }
    }
    while !s.IsEndOfRecord()
      invariant s.Valid()
      invariant ObjLayout(s.bytes) == Prepend(fields, FieldsFrom(s.bytes, s.pos))
      decreases |s.bytes| - s.pos
    {
      var next :- ReadField(s);
      if next.None? {
        assert fields + [] == fields;
        return Success(fields);
      }
      PrependAssoc(fields, next.value, FieldsFrom(s.bytes, s.pos));
      fields := fields + [next.value];
    }
    r := Success(fields);
    assert fields + [] == fields;
  }
}
