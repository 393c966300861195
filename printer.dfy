/** `printNode` of `msodumper/node.py`, as the text it writes. A root prints
    its children, each on lines of its own; an element prints as `<name .../>`
    without children and as `<name ...>` ... `</name>` with them, its
    attributes in ascending key order; a content node prints its encoded text.
    When lines are broken, each level is indented by four spaces, and the
    children of an element that has content are kept on its line. */
module Printer {
  import opened XmlText
  import opened DocTree

  // ---------------------------------------------------------------------
  // Attribute key order

  /** The order `keys.sort()` puts strings in: by character code, a proper
      prefix first. */
  predicate Less(a: string, b: string)
    decreases |a|
  {
    |b| > 0 && (|a| == 0 || a[0] < b[0] || (a[0] == b[0] && Less(a[1..], b[1..])))
  }

  lemma {:induction false} LessIrreflexive(a: string)
    ensures !Less(a, a)
    decreases |a|
  {
    if |a| > 0 {
      LessIrreflexive(a[1..]);
    }
  }

  lemma {:induction false} LessTransitive(a: string, b: string, c: string)
    requires Less(a, b) && Less(b, c)
    ensures Less(a, c)
    decreases |a|
  {
    if |a| > 0 && a[0] == b[0] && b[0] == c[0] {
      LessTransitive(a[1..], b[1..], c[1..]);
    }
  }

  lemma {:induction false} LessTotal(a: string, b: string)
    requires a != b
    ensures Less(a, b) || Less(b, a)
    decreases |a|
  {
    if |a| > 0 && |b| > 0 && a[0] == b[0] {
      assert a == [a[0]] + a[1..] && b == [b[0]] + b[1..];
      LessTotal(a[1..], b[1..]);
    }
  }

  predicate IsLeast(k: string, ks: set<string>)
  {
    k in ks && forall j :: j in ks && j != k ==> Less(k, j)
  }

  lemma LeastExists(ks: set<string>)
    requires ks != {}
    ensures exists k :: IsLeast(k, ks)
    decreases |ks|
  {
    var x :| x in ks;
    var rest := ks - {x};
    if rest == {} {
      assert ks == {x};
      assert IsLeast(x, ks);
    } else {
      LeastExists(rest);
      var y :| IsLeast(y, rest);
      if Less(x, y) {
        forall j | j in ks && j != x
          ensures Less(x, j)
        {
          if j != y {
            LessTransitive(x, y, j);
          }
        }
        assert IsLeast(x, ks);
      } else {
        LessTotal(x, y);
        assert IsLeast(y, ks);
      }
    }
  }

  lemma LeastUnique(a: string, b: string, ks: set<string>)
    requires IsLeast(a, ks) && IsLeast(b, ks)
    ensures a == b
  {
    if a != b {
      LessTransitive(a, b, a);
      LessIrreflexive(a);
    }
  }

  /** The keys in ascending order. */
  ghost function SortedKeys(ks: set<string>): seq<string>
    decreases |ks|
  {
    if ks == {} then []
    else
      LeastExists(ks);
      var k :| IsLeast(k, ks);
      [k] + SortedKeys(ks - {k})
  }

  lemma SortedKeysUnfold(ks: set<string>, k: string)
    requires IsLeast(k, ks)
    ensures SortedKeys(ks) == [k] + SortedKeys(ks - {k})
  {
    var s := SortedKeys(ks);
    assert IsLeast(s[0], ks) && s == [s[0]] + SortedKeys(ks - {s[0]});
    LeastUnique(k, s[0], ks);
  }

  /** Every key appears once, and each before every greater key. */
  lemma {:induction false} SortedKeysSpec(ks: set<string>)
    ensures var s := SortedKeys(ks);
      |s| == |ks| && (forall k :: k in s <==> k in ks) &&
      forall i, j :: 0 <= i < j < |s| ==> Less(s[i], s[j])
    decreases |ks|
  {
    if ks != {} {
      LeastExists(ks);
      var k :| IsLeast(k, ks);
      SortedKeysUnfold(ks, k);
      SortedKeysSpec(ks - {k});
      var s, t := SortedKeys(ks), SortedKeys(ks - {k});
      assert s == [k] + t;
      forall i, j | 0 <= i < j < |s|
        ensures Less(s[i], s[j])
      {
        if i == 0 {
          assert s[j] == t[j - 1] && s[j] in ks - {k};
        } else {
          assert s[i] == t[i - 1] && s[j] == t[j - 1];
        }
      }
    }
  }

  /** `keys = attrs.keys(); keys.sort()`: the least remaining key, each time. */
  method SortKeys(ks: set<string>) returns (keys: seq<string>)
    ensures keys == SortedKeys(ks)
  {
    keys := [];
    var rest := ks;
    while rest != {}
      invariant keys + SortedKeys(rest) == SortedKeys(ks)
      decreases |rest|
    {
      LeastExists(rest);
      var k :| IsLeast(k, rest);
      SortedKeysUnfold(rest, k);
      assert keys + SortedKeys(rest) == keys + [k] + SortedKeys(rest - {k});
      keys := keys + [k];
      rest := rest - {k};
    }
    assert keys + [] == keys;
  }

  // ---------------------------------------------------------------------
  // Attributes

  /** One attribute as printed: nothing for `None`, otherwise a space, the
      key, and the converted value encoded between double quotes. */
  function AttrSegment(attrs: map<string, AttrValue>, key: string, utf8: bool): string
    requires key in attrs
  {
    var v := attrs[key];
    if v == AttrNone then "" else " " + key + "=\"" + Encoded(ConvertAttrValue(v).text, utf8) + "\""
  }

  /** The first i attributes in the order of `keys`. */
  function AttrPart(attrs: map<string, AttrValue>, keys: seq<string>, i: nat, utf8: bool): string
    requires i <= |keys| && forall k :: k in keys ==> k in attrs
  {
    if i == 0 then "" else AttrPart(attrs, keys, i - 1, utf8) + AttrSegment(attrs, keys[i - 1], utf8)
  }

  lemma AttrPartStep(attrs: map<string, AttrValue>, keys: seq<string>, i: nat, utf8: bool)
    requires i < |keys| && forall k :: k in keys ==> k in attrs
    ensures AttrPart(attrs, keys, i + 1, utf8) == AttrPart(attrs, keys, i, utf8) + AttrSegment(attrs, keys[i], utf8)
  {
  }

  ghost function AttrLine(attrs: map<string, AttrValue>, utf8: bool): string
  {
    var keys := SortedKeys(attrs.Keys);
    SortedKeysSpec(attrs.Keys);
    AttrPart(attrs, keys, |keys|, utf8)
  }

  /** Attributes whose values are all `None` print nothing. */
  lemma {:induction false} AttrPartNone(attrs: map<string, AttrValue>, keys: seq<string>, i: nat, utf8: bool)
    requires i <= |keys| && forall k :: k in keys ==> k in attrs
    requires forall k :: k in attrs ==> attrs[k] == AttrNone
    ensures AttrPart(attrs, keys, i, utf8) == ""
  {
    if i > 0 {
      AttrPartNone(attrs, keys, i - 1, utf8);
    }
  }

  lemma AttrLineNone(attrs: map<string, AttrValue>, utf8: bool)
    requires forall k :: k in attrs ==> attrs[k] == AttrNone
    ensures AttrLine(attrs, utf8) == ""
  {
    var keys := SortedKeys(attrs.Keys);
    SortedKeysSpec(attrs.Keys);
    AttrPartNone(attrs, keys, |keys|, utf8);
  }

  /** One turn of the attribute loop of `printNode`. */
  method PrintAttr(attrs: map<string, AttrValue>, key: string, utf8: bool) returns (segment: string)
    requires key in attrs
    ensures segment == AttrSegment(attrs, key, utf8)
  {
    segment := "";
    var val := attrs[key];
    if val != AttrNone {
      var text := EncodeString(ConvertAttrValue(val).text, utf8);
      segment := " " + key + "=\"" + text + "\"";
    }
  }

  /** The attribute loop of `printNode`, over keys already sorted. */
  method PrintAttrList(attrs: map<string, AttrValue>, keys: seq<string>, utf8: bool) returns (line: string)
    requires forall k :: k in keys ==> k in attrs
    ensures line == AttrPart(attrs, keys, |keys|, utf8)
  {
    line := "";
    var i := 0;
    while i < |keys|
      invariant 0 <= i <= |keys|
      invariant line == AttrPart(attrs, keys, i, utf8)
    {
      var segment := PrintAttr(attrs, keys[i], utf8);
      AttrPartStep(attrs, keys, i, utf8);
      line := line + segment;
      i := i + 1;
    }
  }

  /** The attribute text of an element's name line: its keys in ascending
      order, skipped altogether when there are no attributes. */
  method PrintAttrs(attrs: map<string, AttrValue>, utf8: bool) returns (line: string)
    ensures line == AttrLine(attrs, utf8)
  {
    line := "";
    var keys := SortKeys(attrs.Keys);
    SortedKeysSpec(attrs.Keys);
    if |attrs| > 0 {
      line := PrintAttrList(attrs, keys, utf8);
    } else {
      assert |keys| == 0;
    }
  }

  // ---------------------------------------------------------------------
  // printNode

  /** `singleIndent * level`. */
  function Repeat(s: string, n: nat): string
  {
    if n == 0 then "" else Repeat(s, n - 1) + s
  }

  ghost function Printed(n: Node, level: nat, breakLine: bool, utf8: bool): string
    requires n.Valid()
    reads n.Repr
    decreases n.Repr, |n.children| + 1
  {
    var indent := Repeat(if breakLine then "    " else "", level);
    var lf := if breakLine then "\n" else "";
    if n.nodeType == NodeType.Root then PrintedChildren(n, |n.children|, level, true, utf8)
    else if n.nodeType == NodeType.Element then
      var line := n.name + AttrLine(n.attrs, utf8);
      if |n.children| > 0 then
        var breakChildren := breakLine && !n.hasContent;
        indent + "<" + line + ">" + (if breakChildren then "\n" else "") +
        PrintedChildren(n, |n.children|, level + 1, breakChildren, utf8) +
        (if breakChildren then indent else "") + "</" + n.name + ">" + lf
      else
        indent + "<" + line + "/>" + lf
    else if n.nodeType == NodeType.Content then
      var text := Encoded(n.content, utf8);
      if |text| > 0 then indent + text + lf else ""
    else ""
  }

  /** The first j children, one after the other. */
  ghost function PrintedChildren(n: Node, j: nat, level: nat, breakLine: bool, utf8: bool): string
    requires n.Valid() && j <= |n.children|
    reads n.Repr
    decreases n.Repr, j
  {
    if j == 0 then ""
    else PrintedChildren(n, j - 1, level, breakLine, utf8) + Printed(n.children[j - 1], level, breakLine, utf8)
  }

  /** `printNode(fd, node, level, breakLine, utf8)`. */
  method PrintNode(n: Node, level: nat, breakLine: bool, utf8: bool) returns (out: string)
    requires n.Valid()
    ensures out == Printed(n, level, breakLine, utf8)
    decreases n.Repr, |n.children| + 1, 1
  {
    var singleIndent := "";
    var lf := "";
    if breakLine {
      singleIndent := "    ";
      lf := "\n";
    }
    var indent := Repeat(singleIndent, level);
    out := "";
    if n.nodeType == NodeType.Root {
      out := PrintChildren(n, level, true, utf8);
    } else if n.nodeType == NodeType.Element {
      out := PrintElement(n, level, breakLine, utf8, indent, lf);
    } else if n.nodeType == NodeType.Content {
      var text := EncodeString(n.content, utf8);
      if |text| > 0 {
        out := indent + text + lf;
      }
    }
  }

  /** The element branch of `printNode`: an empty element closes itself, and
      the closing tag of one with children is indented only when its
      children broke lines. */
  method PrintElement(n: Node, level: nat, breakLine: bool, utf8: bool, indent: string, lf: string)
    returns (out: string)
    requires n.Valid() && n.nodeType == NodeType.Element
    requires indent == Repeat(if breakLine then "    " else "", level)
    requires lf == if breakLine then "\n" else ""
    ensures out == Printed(n, level, breakLine, utf8)
    decreases n.Repr, |n.children| + 1, 0
  {
    var attrText := PrintAttrs(n.attrs, utf8);
    var line := n.name + attrText;
    if |n.children| > 0 {
      var breakChildren := breakLine && !n.hasContent;
      var inner := PrintChildren(n, level + 1, breakChildren, utf8);
      out := indent + "<" + line + ">" + (if breakChildren then "\n" else "") +
        inner + (if breakChildren then indent else "") + "</" + n.name + ">" + lf;
    } else {
      out := indent + "<" + line + "/>" + lf;
    }
  }

  /** The loop over the children. */
  method PrintChildren(n: Node, level: nat, breakLine: bool, utf8: bool) returns (out: string)
    requires n.Valid()
    ensures out == PrintedChildren(n, |n.children|, level, breakLine, utf8)
    decreases n.Repr, |n.children|
  {
    out := "";
    var i := 0;
    while i < |n.children|
      invariant 0 <= i <= |n.children|
      invariant out == PrintedChildren(n, i, level, breakLine, utf8)
    {
      ChildInside(n, i);
      var piece := PrintNode(n.children[i], level, breakLine, utf8);
      out := out + piece;
      i := i + 1;
    }
  }

  /** A child is a tree whose nodes are nodes of its parent's tree. */
  lemma ChildInside(n: Node, i: nat)
    requires n.Valid() && i < |n.children|
    ensures n.children[i].Valid() && n.children[i].Repr < n.Repr
  {
  }

  /** An element without children whose attributes are all `None` prints as
      a bare self-closing tag. */
  lemma PrintedEmptyElement(n: Node, level: nat, breakLine: bool, utf8: bool)
    requires n.Valid() && n.nodeType == NodeType.Element && n.children == []
    requires forall k :: k in n.attrs ==> n.attrs[k] == AttrNone
    ensures Printed(n, level, breakLine, utf8) ==
      Repeat(if breakLine then "    " else "", level) + "<" + n.name + "/>" + (if breakLine then "\n" else "")
  {
    AttrLineNone(n.attrs, utf8);
  }

  /** An element with children opens with its name and its attributes in key
      order, and closes with its own name: the output starts with the opening
      tag, and ends with the closing tag and, when lines break, a newline. */
  lemma PrintedElementTags(n: Node, level: nat, breakLine: bool, utf8: bool)
    requires n.Valid() && n.nodeType == NodeType.Element && |n.children| > 0
    ensures var out := Printed(n, level, breakLine, utf8);
      var open := Repeat(if breakLine then "    " else "", level) + "<" + (n.name + AttrLine(n.attrs, utf8)) + ">";
      var close := "</" + n.name + ">" + (if breakLine then "\n" else "");
      open <= out && |close| <= |out| && out[|out| - |close|..] == close
  {
    var body := ElementBody(n, level, breakLine, utf8);
    Enclosed(Printed(n, level, breakLine, utf8),
      Repeat(if breakLine then "    " else "", level) + "<" + (n.name + AttrLine(n.attrs, utf8)) + ">",
      body, n.name, if breakLine then "\n" else "");
  }

  /** An element with children prints as everything up to its closing tag,
      which starts with the opening tag, followed by the closing tag. */
  lemma ElementBody(n: Node, level: nat, breakLine: bool, utf8: bool) returns (body: string)
    requires n.Valid() && n.nodeType == NodeType.Element && |n.children| > 0
    ensures Repeat(if breakLine then "    " else "", level) + "<" + (n.name + AttrLine(n.attrs, utf8)) + ">" <= body
    ensures Printed(n, level, breakLine, utf8) == body + "</" + n.name + ">" + (if breakLine then "\n" else "")
  {
    var indent := Repeat(if breakLine then "    " else "", level);
    var open := indent + "<" + (n.name + AttrLine(n.attrs, utf8)) + ">";
    var breakChildren := breakLine && !n.hasContent;
    var inner := PrintedChildren(n, |n.children|, level + 1, breakChildren, utf8);
    body := open + (if breakChildren then "\n" else "") + inner + (if breakChildren then indent else "");
    PrefixOf(open, if breakChildren then "\n" else "", inner, if breakChildren then indent else "");
  }

  lemma PrefixOf(open: string, a: string, b: string, c: string)
    ensures open <= open + a + b + c
  {
    assert open + a + b + c == open + (a + b + c);
  }

  /** The string facts behind `PrintedElementTags`. */
  lemma Enclosed(out: string, open: string, body: string, name: string, lf: string)
    requires open <= body && out == body + "</" + name + ">" + lf
    ensures open <= out && |"</" + name + ">" + lf| <= |out| && out[|out| - |"</" + name + ">" + lf|..] == "</" + name + ">" + lf
  {
    assert out == body + ("</" + name + ">" + lf);
  }

  // ---------------------------------------------------------------------
  // Printing without line breaks

  /** No root node anywhere in the subtree (a root always breaks lines). */
  ghost predicate NoRoot(n: Node)
    requires n.Valid()
    reads n.Repr
    decreases n.Repr
  {
    n.nodeType != NodeType.Root && forall i :: 0 <= i < |n.children| ==> NoRoot(n.children[i])
  }

  lemma {:induction false} RepeatEmpty(n: nat)
    ensures Repeat("", n) == ""
  {
    if n > 0 {
      RepeatEmpty(n - 1);
    }
  }

  /** Without line breaks nothing is indented, so a subtree with no root node
      prints the same at every level. */
  lemma {:induction false} PrintedFlat(n: Node, level: nat, utf8: bool)
    requires n.Valid() && NoRoot(n)
    ensures Printed(n, level, false, utf8) == Printed(n, 0, false, utf8)
    decreases n.Repr, |n.children| + 1
  {
    RepeatEmpty(level);
    if n.nodeType == NodeType.Element && |n.children| > 0 {
      PrintedChildrenFlat(n, |n.children|, level + 1, utf8);
      PrintedChildrenFlat(n, |n.children|, 1, utf8);
    }
  }

  lemma {:induction false} PrintedChildrenFlat(n: Node, j: nat, level: nat, utf8: bool)
    requires n.Valid() && NoRoot(n) && j <= |n.children|
    ensures PrintedChildren(n, j, level, false, utf8) == PrintedChildren(n, j, 0, false, utf8)
    decreases n.Repr, j
  {
    if j > 0 {
      PrintedChildrenFlat(n, j - 1, level, utf8);
      PrintedFlat(n.children[j - 1], level, utf8);
    }
  }
}
