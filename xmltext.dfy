/** The text helpers of `msodumper/node.py`: `encodeString`, which makes text
    safe inside an XML document with the predefined entities of section 4.6 of
    the XML 1.0 Recommendation, and `convertAttrValue`, which turns an
    attribute value into the text printed for it. */
module XmlText {

  import Format

  // ---------------------------------------------------------------------
  // Attribute values

  /** The attribute values the document tree holds: `None`, a boolean, an
      integer or a string. */
  datatype AttrValue = AttrNone | AttrBool(b: bool) | AttrInt(i: int) | AttrText(text: string)

  /** `convertAttrValue`: a boolean becomes `true` or `false`, an integer its
      decimal numeral, anything else is kept. */
  function ConvertAttrValue(v: AttrValue): (r: AttrValue)
    ensures v.AttrBool? || v.AttrInt? || v.AttrText? ==> r.AttrText?
    ensures v.AttrBool? ==> (r.text == "true" <==> v.b) && (r.text == "false" <==> !v.b)
    ensures v.AttrInt? ==> Format.ParseDecimal(r.text) == v.i
    ensures v.AttrText? || v.AttrNone? ==> r == v
  {
    match v
    case AttrBool(b) => AttrText(if b then "true" else "false")
    case AttrInt(i) =>
      var s := Format.Decimal(i);
      Format.DecimalRoundTrip(i);
      AttrText(s)
    case _ => v
  }

  // ---------------------------------------------------------------------
  // encodeString

  /** The five characters of `encodeTable`. */
  predicate Special(c: char)
  {
    c == '>' || c == '<' || c == '&' || c == '"' || c == '\''
  }

  function Entity(c: char): string
    requires Special(c)
  {
    if c == '>' then "&gt;" else if c == '<' then "&lt;" else if c == '&' then "&amp;"
    else if c == '"' then "&quot;" else "&apos;"
  }

  /** What one input character becomes. In UTF-8 mode a zero character
      becomes `(nullbyte)`; otherwise a zero or non-ASCII character becomes
      `\x` and its code in hexadecimal. The five special characters become
      entities in both modes, and the rest is copied. */
  function EncodeChar(c: char, utf8: bool): string
  {
    if utf8 then
      if c == 0 as char then "(nullbyte)"
      else if Special(c) then Entity(c)
      else [c]
    else
      if c as int >= 128 || c as int == 0 then "\\x" + Format.Hex(c as int, 2, false)
      else if Special(c) then Entity(c)
      else [c]
  }

  function Encoded(s: string, utf8: bool): string
  {
    if |s| == 0 then "" else EncodeChar(s[0], utf8) + Encoded(s[1..], utf8)
  }

  /** The body of the `encodeString` loop, for one character. */
  method EncodeOne(c: char, utf8: bool) returns (e: string)
    ensures e == EncodeChar(c, utf8)
  {
    if utf8 {
      if c == 0 as char {
        e := "(nullbyte)";
      } else if Special(c) {
        e := Entity(c);
      } else {
        e := [c];
      }
    } else {
      if c as int >= 128 || c as int == 0 {
        e := "\\x" + Format.Hex(c as int, 2, false);
      } else if Special(c) {
        e := Entity(c);
      } else {
        e := [c];
      }
    }
  }

  /** `encodeString`, character by character. */
  method EncodeString(sin: string, utf8: bool) returns (sout: string)
    ensures sout == Encoded(sin, utf8)
  {
    sout := "";
    var i := 0;
    while i < |sin|
      invariant 0 <= i <= |sin|
      invariant sout + Encoded(sin[i..], utf8) == Encoded(sin, utf8)
    {
      var e := EncodeOne(sin[i], utf8);
      EncodedStep(sin, i, utf8);
      assert sout + e + Encoded(sin[i + 1..], utf8) == sout + (e + Encoded(sin[i + 1..], utf8));
      sout := sout + e;
      i := i + 1;
    }
  }

  lemma EncodedStep(s: string, i: nat, utf8: bool)
    requires i < |s|
    ensures Encoded(s[i..], utf8) == EncodeChar(s[i], utf8) + Encoded(s[i + 1..], utf8)
  {
    assert s[i..][1..] == s[i + 1..];
  }

  /** A character the output may hold: none of `< > " '` and no zero. */
  predicate SafeChar(c: char)
  {
    c != 0 as char && c != '<' && c != '>' && c != '"' && c != '\''
  }

  lemma EncodeCharSafe(c: char, utf8: bool)
    ensures forall k :: 0 <= k < |EncodeChar(c, utf8)| ==> SafeChar(EncodeChar(c, utf8)[k])
    ensures !utf8 ==> forall k :: 0 <= k < |EncodeChar(c, utf8)| ==> EncodeChar(c, utf8)[k] as int < 128
  {
    if !utf8 && (c as int >= 128 || c as int == 0) {
      Format.HexDigitsOnly(c as int, 2, false);
    }
  }

  /** The output never holds `<`, `>`, `"`, `'` or a zero character; without
      UTF-8 mode it is plain ASCII as well. */
  lemma {:induction false} EncodedSafe(s: string, utf8: bool)
    ensures forall k :: 0 <= k < |Encoded(s, utf8)| ==> SafeChar(Encoded(s, utf8)[k])
    ensures !utf8 ==> forall k :: 0 <= k < |Encoded(s, utf8)| ==> Encoded(s, utf8)[k] as int < 128
  {
    if |s| > 0 {
      EncodeCharSafe(s[0], utf8);
      EncodedSafe(s[1..], utf8);
      var e, t := EncodeChar(s[0], utf8), Encoded(s[1..], utf8);
      assert Encoded(s, utf8) == e + t;
      assert forall k :: |e| <= k < |e| + |t| ==> (e + t)[k] == t[k - |e|];
    }
  }

  /** A character copied unchanged. */
  predicate Plain(c: char, utf8: bool)
  {
    c != 0 as char && !Special(c) && (utf8 || c as int < 128)
  }

  /** Text with nothing to escape comes out as it went in. */
  lemma {:induction false} EncodedPlain(s: string, utf8: bool)
    requires forall k :: 0 <= k < |s| ==> Plain(s[k], utf8)
    ensures Encoded(s, utf8) == s
  {
    if |s| > 0 {
      EncodedPlain(s[1..], utf8);
      assert [s[0]] + s[1..] == s;
    }
  }

  /** Replaces the five predefined entities by their characters, as an XML
      reader does. */
  function Unescape(t: string): string
  {
    if |t| == 0 then ""
    else if t[0] == '&' && 4 <= |t| && t[..4] == "&gt;" then ">" + Unescape(t[4..])
    else if t[0] == '&' && 4 <= |t| && t[..4] == "&lt;" then "<" + Unescape(t[4..])
    else if t[0] == '&' && 5 <= |t| && t[..5] == "&amp;" then "&" + Unescape(t[5..])
    else if t[0] == '&' && 6 <= |t| && t[..6] == "&quot;" then "\"" + Unescape(t[6..])
    else if t[0] == '&' && 6 <= |t| && t[..6] == "&apos;" then "'" + Unescape(t[6..])
    else [t[0]] + Unescape(t[1..])
  }

  lemma UnescapeEntity(c: char, rest: string)
    requires Special(c)
    ensures Unescape(Entity(c) + rest) == [c] + Unescape(rest)
  {
    var t := Entity(c) + rest;
    var n := |Entity(c)|;
    assert t[..n] == Entity(c) && t[n..] == rest;
    if c == '>' {
      assert t[..4] == "&gt;";
    } else if c == '<' {
      assert t[..4] == "&lt;";
    } else if c == '&' {
      assert t[1] == 'a' && t[..5] == "&amp;";
    } else if c == '"' {
      assert t[1] == 'q' && t[..6] == "&quot;";
    } else {
      assert t[1] == 'a' && t[2] == 'p' && t[..6] == "&apos;";
    }
  }

  /** Reading the output back as XML gives the input again, for text with
      no zero character (and, without UTF-8 mode, only ASCII), whose
      characters are kept or replaced by an entity. */
  lemma {:induction false} EncodeRoundTrip(s: string, utf8: bool)
    requires forall k :: 0 <= k < |s| ==> s[k] != 0 as char && (utf8 || s[k] as int < 128)
    ensures Unescape(Encoded(s, utf8)) == s
  {
    if |s| > 0 {
      var rest := Encoded(s[1..], utf8);
      EncodeRoundTrip(s[1..], utf8);
      if Special(s[0]) {
        UnescapeEntity(s[0], rest);
      } else {
        assert ([s[0]] + rest)[1..] == rest;
      }
      assert [s[0]] + s[1..] == s;
    }
  }
}
