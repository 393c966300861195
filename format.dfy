/** The printf-style number formatting the dumper relies on: `%X`/`%x` with a
    minimum digit count (`"%4.4Xh: "`, `"0x%2.2X"`, `"\\x%2.2x"`) and `%d`.
    Each format is paired with its reading, and the round trip is proved. */
module Format {

  predicate IsHexDigit(c: char)
  {
    '0' <= c <= '9' || 'A' <= c <= 'F' || 'a' <= c <= 'f'
  }

  /** The digit character for `d` (upper- or lower-case letters above 9). */
  function DigitChar(d: nat, upper: bool): (c: char)
    requires d < 16
    ensures IsHexDigit(c) && DigitValue(c) == d
    ensures d < 10 ==> '0' <= c <= '9'
  {
    if d < 10 then ('0' as int + d) as char
    else if upper then ('A' as int + d - 10) as char
    else ('a' as int + d - 10) as char
  }

  function DigitValue(c: char): nat
  {
    if '0' <= c <= '9' then c as int - '0' as int
    else if 'A' <= c <= 'F' then c as int - 'A' as int + 10
    else if 'a' <= c <= 'f' then c as int - 'a' as int + 10
    else 0
  }

  /** The digits of `v` in `base` (10 or 16), most significant first, no padding. */
  function Digits(v: nat, base: nat, upper: bool): (s: string)
    requires base == 10 || base == 16
    ensures |s| >= 1
    ensures forall i :: 0 <= i < |s| ==> IsHexDigit(s[i])
    ensures base == 10 ==> forall i :: 0 <= i < |s| ==> '0' <= s[i] <= '9'
  {
    if v < base then [DigitChar(v, upper)]
    else Digits(v / base, base, upper) + [DigitChar(v % base, upper)]
  }

  /** The number a digit string denotes. */
  function ValueOf(s: string, base: nat): nat
  {
    if s == [] then 0 else base * ValueOf(s[..|s| - 1], base) + DigitValue(s[|s| - 1])
  }

  function Zeros(n: nat): (s: string)
    ensures |s| == n && forall i :: 0 <= i < n ==> s[i] == '0'
  {
    if n == 0 then [] else Zeros(n - 1) + ['0']
  }

  /** `"%w.wX"` (upper) or `"%w.wx"`: at least `width` hex digits, zero-padded. */
  function Hex(v: nat, width: nat, upper: bool): string
  {
    var d := Digits(v, 16, upper);
    if |d| >= width then d else Zeros(width - |d|) + d
  }

  /** `"%d"`. */
  function Decimal(i: int): string
  {
    if i < 0 then "-" + Digits(-i, 10, false) else Digits(i, 10, false)
  }

  /** Reading back what `Decimal` writes. */
  function ParseDecimal(s: string): int
  {
    if |s| > 0 && s[0] == '-' then 0 - ValueOf(s[1..], 10) as int else ValueOf(s, 10)
  }

  function Pow16(n: nat): (r: nat)
    ensures r >= 1
  {
    if n == 0 then 1 else 16 * Pow16(n - 1)
  }

  lemma {:induction false} ValueOfDigits(v: nat, base: nat, upper: bool)
    requires base == 10 || base == 16
    ensures ValueOf(Digits(v, base, upper), base) == v
  {
    var s := Digits(v, base, upper);
    if v >= base {
      var q, d := v / base, v % base;
      ValueOfDigits(q, base, upper);
      assert s[..|s| - 1] == Digits(q, base, upper);
      assert DigitValue(s[|s| - 1]) == d;
      DivModSplit(v, base);
    } else {
      assert s[..0] == [];
    }
  }

  lemma DivModSplit(v: nat, base: nat)
    requires base > 0
    ensures base * (v / base) + v % base == v
  {
  }

  lemma {:induction false} ValueOfZeros(n: nat, s: string, base: nat)
    ensures ValueOf(Zeros(n) + s, base) == ValueOf(s, base)
  {
    if s == [] {
      assert Zeros(n) + s == Zeros(n);
      if n > 0 {
        ValueOfZeros(n - 1, [], base);
        assert Zeros(n - 1) + [] == Zeros(n - 1);
      }
    } else {
      var t := Zeros(n) + s;
      assert t[..|t| - 1] == Zeros(n) + s[..|s| - 1];
      ValueOfZeros(n, s[..|s| - 1], base);
    }
  }

  /** Reading a formatted hex number gives the number back, whatever the padding. */
  lemma HexRoundTrip(v: nat, width: nat, upper: bool)
    ensures ValueOf(Hex(v, width, upper), 16) == v
  {
    var d := Digits(v, 16, upper);
    ValueOfDigits(v, 16, upper);
    if |d| < width {
      ValueOfZeros(width - |d|, d, 16);
    }
  }

  lemma {:induction false} DigitsFit(v: nat, n: nat, upper: bool)
    requires 1 <= n && v < Pow16(n)
    ensures |Digits(v, 16, upper)| <= n
  {
    if v >= 16 {
      DigitsFit(v / 16, n - 1, upper);
    }
  }

  /** A value below 16^width is printed with exactly `width` hex digits. */
  lemma HexWidth(v: nat, width: nat, upper: bool)
    requires 1 <= width && v < Pow16(width)
    ensures |Hex(v, width, upper)| == width
    ensures forall i :: 0 <= i < width ==> IsHexDigit(Hex(v, width, upper)[i])
  {
    DigitsFit(v, width, upper);
  }

  /** Every character of a formatted hex number is a hex digit. */
  lemma HexDigitsOnly(v: nat, width: nat, upper: bool)
    ensures forall i :: 0 <= i < |Hex(v, width, upper)| ==> IsHexDigit(Hex(v, width, upper)[i])
  {
  }

  lemma DecimalRoundTrip(i: int)
    ensures ParseDecimal(Decimal(i)) == i
  {
    if i < 0 {
      ValueOfDigits(-i, 10, false);
      assert ("-" + Digits(-i, 10, false))[1..] == Digits(-i, 10, false);
    } else {
      ValueOfDigits(i, 10, false);
    }
  }
}
