/** Bit-level arithmetic on unbounded non-negative integers, as the dumper does it.

    The record handlers decode flag words with Python's `&` on plain integers and
    then shift with floor division (`(flag & 0x0070) / (2**4)`).  `BitAnd` is that
    `&`; `Mask`/`Field` name a contiguous group of bits, and `MaskShift` is the
    fact every flag decoder rests on: masking a bit group and dividing by its
    lowest bit gives the group's value as an arithmetic digit extraction. */
module Bits {

  function Pow2(n: nat): (r: nat)
    ensures r >= 1
  {
    if n == 0 then 1 else 2 * Pow2(n - 1)
  }

  /** Python's `a & b` for non-negative integers, defined bit by bit from the low end. */
  function BitAnd(a: nat, b: nat): nat
  {
    if a == 0 || b == 0 then 0
    else 2 * BitAnd(a / 2, b / 2) + (if a % 2 == 1 && b % 2 == 1 then 1 else 0)
  }

  /** The mask with `w` one-bits starting at bit `s`: (2^w - 1) << s. */
  function Mask(s: nat, w: nat): nat
  {
    if s == 0 then Pow2(w) - 1 else 2 * Mask(s - 1, w)
  }

  /** The value of the `w`-bit group starting at bit `s`. */
  function Field(a: nat, s: nat, w: nat): (r: nat)
    ensures r < Pow2(w)
  {
    (a / Pow2(s)) % Pow2(w)
  }

  /** Whether bit `s` of `a` is set. */
  predicate Bit(a: nat, s: nat)
  {
    Field(a, s, 1) == 1
  }

  lemma MulPos(d: int, k: int)
    requires d > 0 && k >= 1
    ensures d * k >= d
  {
    var j := k - 1;
    assert d * k == d * j + d;
    assert d * j >= 0;
  }

  /** Euclidean division is determined by quotient and remainder. */
  lemma DivModUnique(a: int, d: int, q: int, r: int)
    requires d > 0 && 0 <= r < d && a == q * d + r
    ensures a / d == q && a % d == r
  {
    var q0 := a / d;
    var r0 := a % d;
    assert a == q0 * d + r0;
    if q0 < q {
      MulPos(d, q - q0);
    } else if q < q0 {
      MulPos(d, q0 - q);
    }
  }

  lemma DivDiv(a: nat, b: nat, c: nat)
    requires b > 0 && c > 0
    ensures a / (b * c) == (a / b) / c
  {
    var q := (a / b) / c;
    var r1 := a % b;
    var r2 := (a / b) % c;
    assert a == b * (a / b) + r1;
    assert a / b == c * q + r2;
    assert b * (a / b) == b * (c * q) + b * r2;
    assert a == q * (b * c) + (b * r2 + r1);
    assert b * r2 <= b * (c - 1);
    DivModUnique(a, b * c, q, b * r2 + r1);
  }

  lemma {:induction false} ModPow2Step(a: nat, w: nat)
    requires w > 0
    ensures a % Pow2(w) == 2 * ((a / 2) % Pow2(w - 1)) + a % 2
  {
    var p := Pow2(w - 1);
    var q := (a / 2) / p;
    var r := (a / 2) % p;
    assert a / 2 == q * p + r;
    assert a == q * (2 * p) + (2 * r + a % 2);
    DivModUnique(a, 2 * p, q, 2 * r + a % 2);
  }

  /** 2^w - 1 is odd, and halving it gives 2^(w-1) - 1. */
  lemma OddMask(w: nat)
    requires w > 0
    ensures (Pow2(w) - 1) % 2 == 1 && (Pow2(w) - 1) / 2 == Pow2(w - 1) - 1
  {
    var p := Pow2(w - 1);
    assert Pow2(w) - 1 == (p - 1) * 2 + 1;
    DivModUnique(Pow2(w) - 1, 2, p - 1, 1);
  }

  lemma LowMaskStep(a: nat, w: nat)
    requires w > 0 && a > 0
    requires BitAnd(a / 2, Pow2(w - 1) - 1) == (a / 2) % Pow2(w - 1)
    ensures BitAnd(a, Pow2(w) - 1) == a % Pow2(w)
  {
    OddMask(w);
    ModPow2Step(a, w);
  }

  /** Masking with w low one-bits keeps the value modulo 2^w. */
  lemma {:induction false} LowMask(a: nat, w: nat)
    ensures BitAnd(a, Pow2(w) - 1) == a % Pow2(w)
  {
    if w == 0 {
      assert Pow2(w) == 1;
    } else if a == 0 {
      assert BitAnd(a, Pow2(w) - 1) == 0;
    } else {
      LowMask(a / 2, w - 1);
      LowMaskStep(a, w);
    }
  }

  lemma Twice(x: int, p: int)
    ensures 2 * (x * p) == x * (2 * p)
  {
  }

  lemma {:induction false} MaskZero(s: nat, w: nat)
    requires Mask(s, w) == 0
    ensures w == 0
  {
    if s > 0 {
      MaskZero(s - 1, w);
    }
  }

  /** A mask above bit 0 is even, and halving it moves it down one bit. */
  lemma MaskEven(s: nat, w: nat)
    requires s > 0
    ensures Mask(s, w) % 2 == 0 && Mask(s, w) / 2 == Mask(s - 1, w)
  {
    DivModUnique(Mask(s, w), 2, Mask(s - 1, w), 0);
  }

  lemma MaskShiftStep(a: nat, s: nat, w: nat)
    requires s > 0
    requires BitAnd(a / 2, Mask(s - 1, w)) == Field(a / 2, s - 1, w) * Pow2(s - 1)
    ensures BitAnd(a, Mask(s, w)) == Field(a, s, w) * Pow2(s)
  {
    var f := Field(a, s, w);
    DivDiv(a, 2, Pow2(s - 1));
    assert Field(a / 2, s - 1, w) == f;
    Twice(f, Pow2(s - 1));
    if a == 0 {
      assert f == 0;
    } else if Mask(s, w) == 0 {
      MaskZero(s, w);
    } else {
      MaskEven(s, w);
      assert BitAnd(a, Mask(s, w)) == 2 * BitAnd(a / 2, Mask(s - 1, w));
    }
  }

  /** Masking a contiguous bit group leaves exactly that group, in place. */
  lemma {:induction false} MaskShift(a: nat, s: nat, w: nat)
    ensures BitAnd(a, Mask(s, w)) == Field(a, s, w) * Pow2(s)
  {
    if s == 0 {
      LowMask(a, w);
    } else {
      MaskShift(a / 2, s - 1, w);
      MaskShiftStep(a, s, w);
    }
  }

  /** `(a & mask) / 2^s` is the field value: the mask-and-shift idiom of the handlers. */
  lemma MaskShiftDiv(a: nat, s: nat, w: nat)
    ensures BitAnd(a, Mask(s, w)) / Pow2(s) == Field(a, s, w)
  {
    MaskShift(a, s, w);
    DivModUnique(BitAnd(a, Mask(s, w)), Pow2(s), Field(a, s, w), 0);
  }

  /** A single-bit mask tests that bit: `(a & 2^s) != 0` exactly when bit s is set. */
  lemma MaskBit(a: nat, s: nat)
    ensures (BitAnd(a, Mask(s, 1)) != 0) <==> Bit(a, s)
  {
    MaskShift(a, s, 1);
  }

  /** Splitting off the low bit group: a = low part + (high part << s). */
  lemma SplitLow(a: nat, s: nat)
    ensures a == a % Pow2(s) + Pow2(s) * (a / Pow2(s))
  {
  }

  lemma MulPred(d: int, x: int)
    ensures d * (x - 1) == d * x - d
  {
  }

  lemma MulMono(d: nat, x: nat, y: nat)
    requires x <= y
    ensures d * x <= d * y
  {
    assert d * y == d * x + d * (y - x);
  }

  lemma DivBound(a: nat, p: nat, m: nat)
    requires p > 0 && a < p * m
    ensures a / p < m
  {
    var q := a / p;
    assert a == p * q + a % p;
    if q >= m {
      MulMono(p, m, q);
    }
  }

  /** The powers of two the record layouts use. */
  lemma Pow2Table()
    ensures Pow2(0) == 1
    ensures Pow2(1) == 2
    ensures Pow2(2) == 4
    ensures Pow2(3) == 8
    ensures Pow2(4) == 16
    ensures Pow2(5) == 32
    ensures Pow2(6) == 64
    ensures Pow2(7) == 128
    ensures Pow2(8) == 256
    ensures Pow2(9) == 512
    ensures Pow2(10) == 1024
    ensures Pow2(11) == 2048
    ensures Pow2(12) == 0x1000
    ensures Pow2(13) == 0x2000
    ensures Pow2(14) == 0x4000
    ensures Pow2(15) == 0x8000
    ensures Pow2(16) == 0x1_0000
    ensures Pow2(17) == 0x2_0000
    ensures Pow2(18) == 0x4_0000
    ensures Pow2(19) == 0x8_0000
    ensures Pow2(20) == 0x10_0000
    ensures Pow2(21) == 0x20_0000
    ensures Pow2(22) == 0x40_0000
    ensures Pow2(23) == 0x80_0000
    ensures Pow2(24) == 0x100_0000
    ensures Pow2(25) == 0x200_0000
    ensures Pow2(26) == 0x400_0000
    ensures Pow2(27) == 0x800_0000
    ensures Pow2(28) == 0x1000_0000
    ensures Pow2(29) == 0x2000_0000
    ensures Pow2(30) == 0x4000_0000
    ensures Pow2(31) == 0x8000_0000
    ensures Pow2(32) == 0x1_0000_0000
  {
  }

  /** A mask is its all-ones group shifted into place. */
  lemma {:induction false} MaskValue(s: nat, w: nat)
    ensures Mask(s, w) == (Pow2(w) - 1) * Pow2(s)
  {
    if s > 0 {
      MaskValue(s - 1, w);
      Twice(Pow2(w) - 1, Pow2(s - 1));
    }
  }

  /** `(a & m) != 0` for the single-bit mask m = 2^s tests bit s. */
  lemma FlagBit(a: nat, s: nat, m: nat)
    requires m == Pow2(s)
    ensures (BitAnd(a, m) != 0) == Bit(a, s)
  {
    MaskValue(s, 1);
    MaskBit(a, s);
  }

  /** `(a & m) / d` for m = (2^w - 1) * 2^s and d = 2^s is the w-bit field at bit s. */
  lemma FlagField(a: nat, s: nat, w: nat, m: nat, d: nat)
    requires m == (Pow2(w) - 1) * Pow2(s) && d == Pow2(s)
    ensures BitAnd(a, m) / d == Field(a, s, w)
  {
    MaskValue(s, w);
    MaskShiftDiv(a, s, w);
  }

  // ---------------------------------------------------------------------
  // Building flag words: the inverse of field extraction

  lemma {:induction false} Pow2Add(a: nat, b: nat)
    ensures Pow2(a + b) == Pow2(a) * Pow2(b)
  {
    if a > 0 {
      Pow2Add(a - 1, b);
      assert Pow2(a + b) == 2 * (Pow2(a - 1) * Pow2(b));
    }
  }

  function B2N(b: bool): nat
  {
    if b then 1 else 0
  }

  /** Fields `vs` of widths `ws`, least significant first, packed into one word. */
  function PackBits(ws: seq<nat>, vs: seq<nat>): nat
    requires |ws| == |vs|
  {
    if ws == [] then 0 else vs[0] + Pow2(ws[0]) * PackBits(ws[1..], vs[1..])
  }

  /** The bit position at which field `i` starts. */
  function Offset(ws: seq<nat>, i: nat): nat
    requires i <= |ws|
  {
    if i == 0 then 0 else Offset(ws, i - 1) + ws[i - 1]
  }

  /** The offsets of the tail are those of the whole, less the first width. */
  lemma {:induction false} OffsetTail(ws: seq<nat>, i: nat)
    requires 0 < i <= |ws|
    ensures Offset(ws, i) == ws[0] + Offset(ws[1..], i - 1)
  {
    if i > 1 {
      OffsetTail(ws, i - 1);
    }
  }

  predicate FitsWidths(ws: seq<nat>, vs: seq<nat>)
  {
    |ws| == |vs| && forall i :: 0 <= i < |ws| ==> vs[i] < Pow2(ws[i])
  }

  lemma FieldLow(lo: nat, k: nat, rest: nat)
    requires lo < Pow2(k)
    ensures Field(lo + Pow2(k) * rest, 0, k) == lo
  {
    DivModUnique(lo + Pow2(k) * rest, Pow2(k), rest, lo);
  }

  lemma FieldShift(lo: nat, k: nat, rest: nat, s: nat, w: nat)
    requires lo < Pow2(k)
    ensures Field(lo + Pow2(k) * rest, k + s, w) == Field(rest, s, w)
  {
    var a := lo + Pow2(k) * rest;
    DivModUnique(a, Pow2(k), rest, lo);
    Pow2Add(k, s);
    DivDiv(a, Pow2(k), Pow2(s));
  }

  /** Every packed field reads back from its offset. */
  lemma {:induction false} FieldOfPack(ws: seq<nat>, vs: seq<nat>, i: nat)
    requires FitsWidths(ws, vs) && i < |ws|
    ensures Field(PackBits(ws, vs), Offset(ws, i), ws[i]) == vs[i]
  {
    var rest := PackBits(ws[1..], vs[1..]);
    if i == 0 {
      FieldLow(vs[0], ws[0], rest);
    } else {
      FitsTail(ws, vs);
      FieldOfPack(ws[1..], vs[1..], i - 1);
      OffsetTail(ws, i);
      FieldShift(vs[0], ws[0], rest, Offset(ws[1..], i - 1), ws[i]);
    }
  }

  lemma FitsTail(ws: seq<nat>, vs: seq<nat>)
    requires FitsWidths(ws, vs) && ws != []
    ensures FitsWidths(ws[1..], vs[1..])
  {
    forall j | 0 <= j < |ws| - 1
      ensures vs[1..][j] < Pow2(ws[1..][j])
    {
      assert vs[1..][j] == vs[j + 1] && ws[1..][j] == ws[j + 1];
    }
  }

  /** A low field below 2^k and a high part below 2^off fit in k + off bits. */
  lemma PackStepBound(lo: nat, k: nat, rest: nat, off: nat)
    requires lo < Pow2(k) && rest < Pow2(off)
    ensures lo + Pow2(k) * rest < Pow2(k + off)
  {
    var p, top := Pow2(k), Pow2(off);
    MulMono(p, rest, top - 1);
    MulPred(p, top);
    Pow2Add(k, off);
  }

  /** A packed word fits in the sum of the widths. */
  lemma {:induction false} PackBitsBound(ws: seq<nat>, vs: seq<nat>)
    requires FitsWidths(ws, vs)
    ensures PackBits(ws, vs) < Pow2(Offset(ws, |ws|))
  {
    if ws != [] {
      FitsTail(ws, vs);
      PackBitsBound(ws[1..], vs[1..]);
      var off := Offset(ws[1..], |ws| - 1);
      PackStepBound(vs[0], ws[0], PackBits(ws[1..], vs[1..]), off);
      OffsetTail(ws, |ws|);
    }
  }
}
