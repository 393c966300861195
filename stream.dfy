/** The byte cursor every record handler is built on (`globals.ByteStream`, which
    `BaseRecordHandler` extends): one record's payload, a read position, and
    bounds-checked little-endian reads that advance it. A read that asks for
    more bytes than remain fails with `BufferUnderrun`; the handlers let that
    failure end the decoding of the whole record. */
module Stream {

  type Byte = b: int | 0 <= b < 256

  /** Why the decoding of one record was abandoned. */
  datatype Error =
    | BufferUnderrun                       // a read asked for more bytes than remain
    | FontNameTooLong                      // `RecordError` of the DXFN font block
    | UnknownCrnValueType(typeId: nat)     // the CRN handler exits on an unknown value tag
    | NoProgress                           // a text reader consumed no bytes (the loop could not end)
    | UnsupportedSupBookType(sbType: nat)  // a SUPBOOK kind whose names were never read

  datatype Result<T> = Success(value: T) | Failure(error: Error)
  {
    predicate IsFailure() { Failure? }

    function PropagateFailure<U>(): Result<U>
      requires Failure?
    {
      Failure(error)
    }

    function Extract(): T
      requires Success?
    {
      value
    }
  }

  datatype Option<T> = None | Some(value: T)

  function Pow256(n: nat): (r: nat)
    ensures r >= 1
  {
    if n == 0 then 1 else 256 * Pow256(n - 1)
  }

  /** The unsigned little-endian value of a byte string. */
  function LE(s: seq<Byte>): (r: nat)
    ensures r < Pow256(|s|)
  {
    if s == [] then 0 else s[0] + 256 * LE(s[1..])
  }

  /** The `n`-byte little-endian encoding of `v` (modulo 256^n). */
  function ToLE(v: nat, n: nat): (r: seq<Byte>)
    ensures |r| == n
  {
    if n == 0 then [] else [v % 256] + ToLE(v / 256, n - 1)
  }

  lemma {:induction false} LEOfToLE(v: nat, n: nat)
    requires v < Pow256(n)
    ensures LE(ToLE(v, n)) == v
  {
    if n > 0 {
      LEOfToLE(v / 256, n - 1);
      assert ToLE(v, n)[1..] == ToLE(v / 256, n - 1);
    }
  }

  lemma {:induction false} ToLEOfLE(s: seq<Byte>)
    ensures ToLE(LE(s), |s|) == s
  {
    if s != [] {
      ToLEOfLE(s[1..]);
      assert LE(s) % 256 == s[0] && LE(s) / 256 == LE(s[1..]);
    }
  }

  /** The unsigned `n`-byte field at offset `off`. */
  function UInt(b: seq<Byte>, off: nat, n: nat): (r: nat)
    requires off + n <= |b|
    ensures r < Pow256(n)
  {
    LE(b[off..off + n])
  }

  /** The two's-complement `n`-byte field at offset `off`. */
  function SInt(b: seq<Byte>, off: nat, n: nat): (r: int)
    requires off + n <= |b|
    ensures n > 0 ==> r + Pow256(n) / 2 >= 0 && r < Pow256(n) / 2
  {
    var u := UInt(b, off, n);
    if n > 0 then
      var full := Pow256(n);
      var half := HalfPow256(n);
      if u >= half then u - full else u
    else u
  }

  /** Half of 256^n, for n > 0: the sign bit of an n-byte field. */
  function HalfPow256(n: nat): (h: nat)
    requires n > 0
    ensures Pow256(n) == 2 * h && h == Pow256(n) / 2
  {
    128 * Pow256(n - 1)
  }

  /** A field written into a byte string reads back as the value written. */
  lemma UIntAt(pre: seq<Byte>, v: nat, n: nat, post: seq<Byte>)
    requires v < Pow256(n)
    ensures UInt(pre + ToLE(v, n) + post, |pre|, n) == v
  {
    var b := pre + ToLE(v, n) + post;
    assert b[|pre|..|pre| + n] == ToLE(v, n);
    LEOfToLE(v, n);
  }

  /** Byte blocks laid end to end, from the i-th on. */
  function Blocks(blocks: seq<seq<Byte>>, i: nat): seq<Byte>
    requires i <= |blocks|
    decreases |blocks| - i
  {
    if i == |blocks| then [] else blocks[i] + Blocks(blocks, i + 1)
  }

  /** A tag byte, then a value in `n` bytes, then padding, then the rest. */
  lemma TaggedBlock(b: seq<Byte>, tag: Byte, v: nat, n: nat, pad: seq<Byte>, rest: seq<Byte>)
    requires v < Pow256(n) && n + |pad| == 8
    requires b == [tag] + ToLE(v, n) + pad + rest
    ensures |b| >= 9 && UInt(b, 0, 1) == tag && UInt(b, 1, n) == v
  {
    UIntAt([], tag, 1, ToLE(v, n) + pad + rest);
    assert [] + ToLE(tag, 1) + (ToLE(v, n) + pad + rest) == b;
    UIntAt([tag], v, n, pad + rest);
    assert [tag] + ToLE(v, n) + (pad + rest) == b;
  }

  /** A field inside a part of a byte string is the same field of the part. */
  lemma UIntIn(b: seq<Byte>, off: nat, part: seq<Byte>, d: nat, n: nat)
    requires off + |part| <= |b| && b[off..off + |part|] == part && d + n <= |part|
    ensures UInt(b, off + d, n) == UInt(part, d, n)
  {
    var inB, inPart := b[off + d..off + d + n], part[d..d + n];
    forall k | 0 <= k < n
      ensures inB[k] == inPart[k]
    {
      assert part[d + k] == b[off + d + k];
    }
    assert inB == inPart;
  }

  /** Byte strings laid end to end: the encoding of a repeated structure. */
  function Flat(parts: seq<seq<Byte>>): seq<Byte>
  {
    if parts == [] then [] else Flat(parts[..|parts| - 1]) + parts[|parts| - 1]
  }

  lemma {:induction false} FlatLength(parts: seq<seq<Byte>>, w: nat)
    requires forall j :: 0 <= j < |parts| ==> |parts[j]| == w
    ensures |Flat(parts)| == w * |parts|
  {
    if parts != [] {
      FlatLength(parts[..|parts| - 1], w);
    }
  }

  /** The i-th part of equal-width parts sits at offset w * i. */
  lemma {:induction false} FlatAt(parts: seq<seq<Byte>>, w: nat, i: nat)
    requires forall j :: 0 <= j < |parts| ==> |parts[j]| == w
    requires i < |parts|
    ensures |Flat(parts)| == w * |parts| && w * i + w <= |Flat(parts)|
    ensures Flat(parts)[w * i..w * i + w] == parts[i]
  {
    FlatLength(parts, w);
    var n := |parts|;
    var front := parts[..n - 1];
    FlatLength(front, w);
    assert w * (n - 1) + w == w * n;
    if i < n - 1 {
      FlatAt(front, w, i);
      assert w * i + w == w * (i + 1);
      assert w * (i + 1) <= w * (n - 1) by {
        assert w * (n - 1) == w * (i + 1) + w * (n - 2 - i);
      }
    }
  }

  lemma MulNat(a: nat, b: nat)
    ensures a * b >= 0
  {
  }

  /** A field of the i-th of equal-width parts, read in the parts laid end to end. */
  lemma FieldInFlat(parts: seq<seq<Byte>>, w: nat, i: nat, d: nat, n: nat)
    requires forall j :: 0 <= j < |parts| ==> |parts[j]| == w
    requires i < |parts| && d + n <= w
    ensures w * i + d + n <= |Flat(parts)|
    ensures UInt(Flat(parts), w * i + d, n) == UInt(parts[i], d, n)
  {
    var flat, at, part := Flat(parts), w * i, parts[i];
    MulNat(w, i);
    assert |part| == w && at + w <= |flat| && flat[at..at + w] == part by {
      FlatAt(parts, w, i);
    }
    UIntIn(flat, at, part, d, n);
  }

  /** A field of the i-th of equal-width parts laid end to end from `off`. */
  lemma FieldOfFlat(b: seq<Byte>, off: nat, parts: seq<seq<Byte>>, w: nat, i: nat, d: nat, n: nat)
    requires forall j :: 0 <= j < |parts| ==> |parts[j]| == w
    requires off + |Flat(parts)| <= |b| && b[off..off + |Flat(parts)|] == Flat(parts)
    requires i < |parts| && d + n <= w
    ensures off + w * i + d + n <= |b|
    ensures UInt(b, off + w * i + d, n) == UInt(parts[i], d, n)
  {
    MulNat(w, i);
    var flat, at := Flat(parts), w * i + d;
    assert at + n <= |flat| && UInt(flat, at, n) == UInt(parts[i], d, n) by {
      FieldInFlat(parts, w, i, d, n);
    }
    FieldInPart(b, off, flat, at, n);
    assert off + at == off + w * i + d;
  }

  /** `UIntIn` with the part's bounds stated apart from its contents. */
  lemma FieldInPart(b: seq<Byte>, off: nat, part: seq<Byte>, at: nat, n: nat)
    requires off + |part| <= |b| && b[off..off + |part|] == part && at + n <= |part|
    ensures off + at + n <= |b| && UInt(b, off + at, n) == UInt(part, at, n)
  {
    UIntIn(b, off, part, at, n);
  }

  /** A slice inside the left part of a concatenation. */
  lemma SliceLeft(x: seq<Byte>, y: seq<Byte>, i: nat, j: nat)
    requires i <= j <= |x|
    ensures (x + y)[i..j] == x[i..j]
  {
  }

  /** The right part of a concatenation, sliced back out. */
  lemma SliceRight(x: seq<Byte>, y: seq<Byte>)
    ensures (x + y)[|x|..|x| + |y|] == y
  {
  }

  lemma UIntLeft(x: seq<Byte>, y: seq<Byte>, off: nat, n: nat)
    requires off + n <= |x|
    ensures UInt(x + y, off, n) == UInt(x, off, n)
  {
    assert (x + y)[off..off + n] == x[off..off + n];
  }

  lemma UIntRight(x: seq<Byte>, y: seq<Byte>, off: nat, n: nat)
    requires off + n <= |y|
    ensures UInt(x + y, |x| + off, n) == UInt(y, off, n)
  {
    assert (x + y)[|x| + off..|x| + off + n] == y[off..off + n];
  }

  lemma UIntToLE(v: nat, n: nat)
    requires v < Pow256(n)
    ensures UInt(ToLE(v, n), 0, n) == v
  {
    assert ToLE(v, n)[0..n] == ToLE(v, n);
    LEOfToLE(v, n);
  }

  /** Consecutive 16-bit little-endian words. */
  function Pack16(vs: seq<nat>): (r: seq<Byte>)
  {
    Flat(seq(|vs|, i requires 0 <= i < |vs| => ToLE(vs[i], 2)))
  }

  predicate Fit16(vs: seq<nat>)
  {
    forall j :: 0 <= j < |vs| ==> vs[j] < 0x1_0000
  }

  /** The i-th packed word reads back from offset 2 * i. */
  lemma Pack16At(vs: seq<nat>, i: nat)
    requires Fit16(vs) && i < |vs|
    ensures |Pack16(vs)| == 2 * |vs|
    ensures UInt(Pack16(vs), 2 * i, 2) == vs[i]
  {
    var parts := seq(|vs|, j requires 0 <= j < |vs| => ToLE(vs[j], 2));
    FlatAt(parts, 2, i);
    UIntIn(Flat(parts), 2 * i, parts[i], 0, 2);
    UIntToLE(vs[i], 2);
  }

  /** A packed word still reads back when more bytes follow. */
  lemma Pack16Prefix(vs: seq<nat>, post: seq<Byte>, i: nat)
    requires Fit16(vs) && i < |vs|
    ensures 2 * i + 2 <= |Pack16(vs) + post|
    ensures UInt(Pack16(vs) + post, 2 * i, 2) == vs[i]
  {
    Pack16At(vs, i);
    UIntLeft(Pack16(vs), post, 2 * i, 2);
  }

  /** A packed word reads back wherever the packed words are placed. */
  lemma Pack16After(pre: seq<Byte>, vs: seq<nat>, post: seq<Byte>, i: nat)
    requires Fit16(vs) && i < |vs|
    ensures |pre| + 2 * i + 2 <= |pre + Pack16(vs) + post|
    ensures UInt(pre + Pack16(vs) + post, |pre| + 2 * i, 2) == vs[i]
  {
    Pack16Prefix(vs, post, i);
    assert pre + Pack16(vs) + post == pre + (Pack16(vs) + post);
    UIntRight(pre, Pack16(vs) + post, 2 * i, 2);
  }

  class ByteStream {
    const bytes: seq<Byte>
    var pos: nat

    ghost predicate Valid()
      reads this
    {
      pos <= |bytes|
    }

    constructor (b: seq<Byte>)
      ensures bytes == b && pos == 0 && Valid()
    {
      bytes := b;
      pos := 0;
    }

    function GetSize(): nat
    {
      |bytes|
    }

    function Remaining(): nat
      reads this
      requires Valid()
    {
      |bytes| - pos
    }

    predicate IsEndOfRecord()
      reads this
      requires Valid()
    {
      pos == |bytes|
    }

    method ReadUnsignedInt(n: nat) returns (r: Result<nat>)
      requires Valid()
      modifies this
      ensures Valid()
      ensures r.Success? <==> n <= old(Remaining())
      ensures r.Success? ==> pos == old(pos) + n && r.value == UInt(bytes, old(pos), n)
      ensures r.Failure? ==> r.error == BufferUnderrun && pos == old(pos)
    {
      if n > |bytes| - pos {
        return Failure(BufferUnderrun);
      }
      r := Success(LE(bytes[pos..pos + n]));
      pos := pos + n;
    }

    method ReadSignedInt(n: nat) returns (r: Result<int>)
      requires Valid()
      modifies this
      ensures Valid()
      ensures r.Success? <==> n <= old(Remaining())
      ensures r.Success? ==> pos == old(pos) + n && r.value == SInt(bytes, old(pos), n)
      ensures r.Failure? ==> r.error == BufferUnderrun && pos == old(pos)
    {
      if n > |bytes| - pos {
        return Failure(BufferUnderrun);
      }
      r := Success(SInt(bytes, pos, n));
      pos := pos + n;
    }

    /** An IEEE-754 double, kept as its 64-bit pattern. */
    method ReadDouble() returns (r: Result<nat>)
      requires Valid()
      modifies this
      ensures Valid()
      ensures r.Success? <==> 8 <= old(Remaining())
      ensures r.Success? ==> pos == old(pos) + 8 && r.value == UInt(bytes, old(pos), 8)
      ensures r.Failure? ==> r.error == BufferUnderrun && pos == old(pos)
    {
      r := ReadUnsignedInt(8);
    }

    method ReadBytes(n: nat) returns (r: Result<seq<Byte>>)
      requires Valid()
      modifies this
      ensures Valid()
      ensures r.Success? <==> n <= old(Remaining())
      ensures r.Success? ==> pos == old(pos) + n && r.value == bytes[old(pos)..old(pos) + n]
      ensures r.Failure? ==> r.error == BufferUnderrun && pos == old(pos)
    {
      if n > |bytes| - pos {
        return Failure(BufferUnderrun);
      }
      r := Success(bytes[pos..pos + n]);
      pos := pos + n;
    }

    method ReadRemainingBytes() returns (s: seq<Byte>)
      requires Valid()
      modifies this
      ensures Valid() && pos == |bytes|
      ensures s == bytes[old(pos)..]
    {
      s := bytes[pos..];
      pos := |bytes|;
    }

    method MoveForward(n: nat) returns (r: Result<()>)
      requires Valid()
      modifies this
      ensures Valid()
      ensures r.Success? <==> n <= old(Remaining())
      ensures r.Success? ==> pos == old(pos) + n
      ensures r.Failure? ==> r.error == BufferUnderrun && pos == old(pos)
    {
      if n > |bytes| - pos {
        return Failure(BufferUnderrun);
      }
      pos := pos + n;
      r := Success(());
    }

    method SetCurrentPos(p: nat)
      requires p <= |bytes|
      modifies this
      ensures Valid() && pos == p
    {
      pos := p;
    }

    method MoveBack(n: nat)
      requires Valid() && n <= pos
      modifies this
      ensures Valid() && pos == old(pos) - n
    {
      pos := pos - n;
    }
  }
}
