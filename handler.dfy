/** What every record handler inherits from `BaseRecordHandler`: the output
    line prefix, the yes/no helpers, the colour readers and the word-wrapping
    `appendMultiLine`. */
module Handler {
  import opened Stream
  import opened Format

  /** `"%4.4Xh: "`: the record's hex id, the prefix of each output line. */
  function HeaderStr(header: nat): string
  {
    Hex(header, 4, true) + "h: "
  }

  /** A 16-bit record id gives a 7-character prefix that reads back as the id. */
  lemma HeaderStrWidth(header: nat)
    requires header < 0x1_0000
    ensures |HeaderStr(header)| == 7
    ensures ValueOf(HeaderStr(header)[..4], 16) == header && HeaderStr(header)[4..] == "h: "
  {
    assert Pow16(4) == 0x1_0000;
    HexWidth(header, 4, true);
    HexRoundTrip(header, 4, true);
    assert HeaderStr(header)[..4] == Hex(header, 4, true);
  }

  function GetYesNo(boolVal: bool): (r: string)
    ensures (r == "yes") == boolVal && (r == "no") == !boolVal
  {
    if boolVal then "yes" else "no"
  }

  function GetBoolVal(boolVal: bool, trueStr: string, falseStr: string): (r: string)
    ensures boolVal ==> r == trueStr
    ensures !boolVal ==> r == falseStr
  {
    if boolVal then trueStr else falseStr
  }

  datatype LongRGB = LongRGB(red: Byte, green: Byte, blue: Byte)

  datatype ICV = ICV(value: nat)

  /** Three colour bytes followed by one reserved byte. */
  method ReadLongRGB(s: ByteStream) returns (r: Result<LongRGB>)
    requires s.Valid()
    modifies s
    ensures s.Valid()
    ensures r.Success? <==> 4 <= old(s.Remaining())
    ensures r.Success? ==> s.pos == old(s.pos) + 4
    ensures r.Success? ==>
      r.value == LongRGB(s.bytes[old(s.pos)], s.bytes[old(s.pos) + 1], s.bytes[old(s.pos) + 2])
  {
    var red :- s.ReadUnsignedInt(1);
    var green :- s.ReadUnsignedInt(1);
    var blue :- s.ReadUnsignedInt(1);
    var reserved :- s.ReadBytes(1);
    assert s.bytes[old(s.pos)..old(s.pos) + 1] == [s.bytes[old(s.pos)]];
    assert s.bytes[old(s.pos) + 1..old(s.pos) + 2] == [s.bytes[old(s.pos) + 1]];
    assert s.bytes[old(s.pos) + 2..old(s.pos) + 3] == [s.bytes[old(s.pos) + 2]];
    r := Success(LongRGB(red, green, blue));
  }

  method ReadICV(s: ByteStream) returns (r: Result<ICV>)
    requires s.Valid()
    modifies s
    ensures s.Valid()
    ensures r.Success? <==> 2 <= old(s.Remaining())
    ensures r.Success? ==> s.pos == old(s.pos) + 2 && r.value == ICV(UInt(s.bytes, old(s.pos), 2))
  {
    var v :- s.ReadUnsignedInt(2);
    r := Success(ICV(v));
  }

  // ---------------------------------------------------------------------
  // Words and word wrapping

  /** The whitespace of Python's `str.split()`: space, tab, LF, VT, FF, CR. */
  predicate IsSpace(c: char)
  {
    c == ' ' || 9 <= c as int <= 13
  }

  predicate IsWord(w: string)
  {
    |w| > 0 && forall i :: 0 <= i < |w| ==> !IsSpace(w[i])
  }

  /** A line that holds exactly one word and its trailing space. */
  predicate OneWord(line: string)
  {
    |line| >= 2 && line[|line| - 1] == ' ' && IsWord(line[..|line| - 1])
  }

  function WordEnd(s: string, i: nat): (k: nat)
    requires i <= |s|
    ensures i <= k <= |s|
    ensures forall j :: i <= j < k ==> !IsSpace(s[j])
    ensures k < |s| ==> IsSpace(s[k])
    decreases |s| - i
  {
    if i == |s| || IsSpace(s[i]) then i else WordEnd(s, i + 1)
  }

  /** `s.split()`: the maximal runs of non-whitespace characters, in order. */
  function Words(s: string): (ws: seq<string>)
    ensures forall k :: 0 <= k < |ws| ==> IsWord(ws[k])
    decreases |s|
  {
    if s == [] then []
    else if IsSpace(s[0]) then Words(s[1..])
    else
      var k := WordEnd(s, 0);
      [s[..k]] + Words(s[k..])
  }

  /** Each word followed by one space, all concatenated. */
  function Spaced(ws: seq<string>): string
  {
    if ws == [] then "" else ws[0] + " " + Spaced(ws[1..])
  }

  function Concat(lines: seq<string>): string
  {
    if lines == [] then "" else lines[0] + Concat(lines[1..])
  }

  function Flatten(runs: seq<seq<string>>): seq<string>
  {
    if runs == [] then [] else runs[0] + Flatten(runs[1..])
  }

  lemma {:induction false} FlattenAppend(runs: seq<seq<string>>, run: seq<string>)
    ensures Flatten(runs + [run]) == Flatten(runs) + run
  {
    if runs != [] {
      assert (runs + [run])[1..] == runs[1..] + [run];
      FlattenAppend(runs[1..], run);
    }
  }

  lemma {:induction false} SpacedAppend(ws: seq<string>, w: string)
    ensures Spaced(ws + [w]) == Spaced(ws) + w + " "
  {
    if ws != [] {
      assert (ws + [w])[1..] == ws[1..] + [w];
      SpacedAppend(ws[1..], w);
    }
  }

  lemma SpacedPrefix(ws: seq<string>, i: nat)
    requires i < |ws|
    ensures Spaced(ws[..i + 1]) == Spaced(ws[..i]) + ws[i] + " "
  {
    assert ws[..i + 1] == ws[..i] + [ws[i]];
    SpacedAppend(ws[..i], ws[i]);
  }

  lemma {:induction false} ConcatAppend(lines: seq<string>, l: string)
    ensures Concat(lines + [l]) == Concat(lines) + l
  {
    if lines != [] {
      assert (lines + [l])[1..] == lines[1..] + [l];
      ConcatAppend(lines[1..], l);
    }
  }

  lemma {:induction false} WordsOfSpaced(ws: seq<string>)
    requires forall k :: 0 <= k < |ws| ==> IsWord(ws[k])
    ensures Words(Spaced(ws)) == ws
  {
    if ws != [] {
      var w, rest := ws[0], Spaced(ws[1..]);
      var s := w + " " + rest;
      assert s == Spaced(ws);
      WordEndAt(s, w);
      assert s[..|w|] == w;
      assert s[|w|..] == " " + rest;
      assert (" " + rest)[1..] == rest;
      WordsOfSpaced(ws[1..]);
    }
  }

  lemma {:induction false} WordEndAt(s: string, w: string)
    requires IsWord(w) && |s| > |w| && s[..|w|] == w && IsSpace(s[|w|])
    ensures WordEnd(s, 0) == |w|
  {
    WordEndFrom(s, 0, |w|);
  }

  lemma {:induction false} WordEndFrom(s: string, i: nat, k: nat)
    requires i <= k < |s| && IsSpace(s[k]) && forall j :: i <= j < k ==> !IsSpace(s[j])
    ensures WordEnd(s, i) == k
    decreases k - i
  {
    if i < k {
      WordEndFrom(s, i + 1, k);
    }
  }

  /** What the wrapping loop keeps once the first `i` words are placed: the
      finished lines and the current line spell out those words; a line longer
      than the width holds a single word; only the first line can be empty,
      and it is empty exactly when the first word alone overflows. */
  ghost predicate WrapInv(words: seq<string>, i: nat, lines: seq<string>, singleLine: string, charWidth: int)
  {
    i <= |words| &&
    Concat(lines) + singleLine == Spaced(words[..i]) &&
    (i == 0) == (singleLine == "") &&
    (singleLine != "" && |singleLine| > charWidth ==> OneWord(singleLine)) &&
    (forall k :: 0 <= k < |lines| && lines[k] != "" && |lines[k]| > charWidth ==> OneWord(lines[k])) &&
    (forall k :: 0 < k < |lines| ==> lines[k] != "") &&
    ((|lines| > 0 && lines[0] == "") <==> (i > 0 && |words[0]| + 1 > charWidth))
  }

  /** The next word overflows the current line: that line is finished and the
      word starts the next one. */
  lemma WrapBreak(words: seq<string>, i: nat, lines: seq<string>, singleLine: string, charWidth: int)
    requires WrapInv(words, i, lines, singleLine, charWidth) && i < |words| && IsWord(words[i])
    requires |singleLine + words[i] + " "| > charWidth
    ensures WrapInv(words, i + 1, lines + [singleLine], words[i] + " ", charWidth)
  {
    var word, next := words[i], lines + [singleLine];
    SpacedPrefix(words, i);
    ConcatAppend(lines, singleLine);
    assert Concat(next) + (word + " ") == Concat(lines) + singleLine + word + " ";
    assert (word + " ")[..|word + " "| - 1] == word;
    assert forall k :: 0 <= k < |lines| ==> next[k] == lines[k];
  }

  /** The next word fits: it is added to the current line. */
  lemma WrapExtend(words: seq<string>, i: nat, lines: seq<string>, singleLine: string, charWidth: int)
    requires WrapInv(words, i, lines, singleLine, charWidth) && i < |words|
    requires |singleLine + words[i] + " "| <= charWidth
    ensures WrapInv(words, i + 1, lines, singleLine + words[i] + " ", charWidth)
  {
    SpacedPrefix(words, i);
    assert Concat(lines) + (singleLine + words[i] + " ") == Concat(lines) + singleLine + words[i] + " ";
  }

  /** How the finished lines and the current line split the first `i` words:
      each line is one run of consecutive words, each followed by a space,
      and only the first line's run can be empty. */
  ghost predicate RunsInv(words: seq<string>, i: nat, lines: seq<string>, runs: seq<seq<string>>,
                          cur: seq<string>, singleLine: string)
  {
    i <= |words| && |runs| == |lines| &&
    (forall k :: 0 <= k < |lines| ==> lines[k] == Spaced(runs[k])) &&
    (forall k :: 0 < k < |runs| ==> runs[k] != []) &&
    Flatten(runs) + cur == words[..i] &&
    singleLine == Spaced(cur) &&
    (cur == [] <==> i == 0) && (i == 0 ==> runs == [])
  }

  /** The overflowing word closes the current run and starts a new one. */
  lemma RunsBreak(words: seq<string>, i: nat, lines: seq<string>, runs: seq<seq<string>>,
                  cur: seq<string>, singleLine: string)
    requires RunsInv(words, i, lines, runs, cur, singleLine) && i < |words|
    ensures RunsInv(words, i + 1, lines + [singleLine], runs + [cur], [words[i]], words[i] + " ")
  {
    FlattenAppend(runs, cur);
    assert words[..i + 1] == words[..i] + [words[i]];
    assert Spaced([words[i]]) == words[i] + " " + Spaced([]);
  }

  /** A word that fits extends the current run. */
  lemma RunsExtend(words: seq<string>, i: nat, lines: seq<string>, runs: seq<seq<string>>,
                   cur: seq<string>, singleLine: string)
    requires RunsInv(words, i, lines, runs, cur, singleLine) && i < |words|
    ensures RunsInv(words, i + 1, lines, runs, cur + [words[i]], singleLine + words[i] + " ")
  {
    SpacedAppend(cur, words[i]);
    assert words[..i + 1] == words[..i] + [words[i]];
    assert Flatten(runs) + (cur + [words[i]]) == Flatten(runs) + cur + [words[i]];
  }

  /** After the loop the current run, when not empty, is closed as the last. */
  lemma RunsEnd(words: seq<string>, lines: seq<string>, runs: seq<seq<string>>,
                cur: seq<string>, singleLine: string)
    requires RunsInv(words, |words|, lines, runs, cur, singleLine)
    ensures var ls := if singleLine != "" then lines + [singleLine] else lines;
      var rs := if singleLine != "" then runs + [cur] else runs;
      |rs| == |ls| && Flatten(rs) == words &&
      (forall k :: 0 <= k < |ls| ==> ls[k] == Spaced(rs[k])) &&
      (forall k :: 0 < k < |rs| ==> rs[k] != [])
  {
    assert words[..|words|] == words;
    FlattenAppend(runs, cur);
  }

  /** After the loop the current line, when not empty, is the last line. */
  lemma WrapEnd(words: seq<string>, lines: seq<string>, singleLine: string, charWidth: int)
    requires WrapInv(words, |words|, lines, singleLine, charWidth)
    ensures var ls := if singleLine != "" then lines + [singleLine] else lines;
      Concat(ls) == Spaced(words) &&
      (forall k :: 0 <= k < |ls| && ls[k] != "" && |ls[k]| > charWidth ==> OneWord(ls[k])) &&
      (forall k :: 0 < k < |ls| ==> ls[k] != "") &&
      ((|ls| > 0 && ls[0] == "") <==> (|words| > 0 && |words[0]| + 1 > charWidth))
  {
    assert words[..|words|] == words;
    if singleLine != "" {
      WrapFinish(lines, singleLine, charWidth);
    }
  }

  /** The wrapping loop of `appendMultiLine`: words are added to the current
      line while it stays within `charWidth`; the word that would overflow it
      starts a new line. Every line is a run of whole consecutive words, each
      followed by a space (`runs` names them); only the first line can be
      empty. */
  method Wrap(line: string, charWidth: int) returns (lines: seq<string>, ghost runs: seq<seq<string>>)
    ensures Concat(lines) == Spaced(Words(line))
    ensures |runs| == |lines| && Flatten(runs) == Words(line)
    ensures forall k :: 0 <= k < |lines| ==> lines[k] == Spaced(runs[k])
    ensures forall k :: 0 < k < |runs| ==> runs[k] != []
    ensures forall k :: 0 <= k < |lines| && lines[k] != "" && |lines[k]| > charWidth ==> OneWord(lines[k])
    ensures forall k :: 0 < k < |lines| ==> lines[k] != ""
    ensures (|lines| > 0 && lines[0] == "") <==> (|Words(line)| > 0 && |Words(line)[0]| + 1 > charWidth)
  {
    var words := Words(line);
    var singleLine;
    ghost var cur;
    lines, singleLine, runs, cur := WrapWords(words, charWidth);
    WrapEnd(words, lines, singleLine, charWidth);
    RunsEnd(words, lines, runs, cur, singleLine);
    if |singleLine| > 0 {
      lines, runs := lines + [singleLine], runs + [cur];
    }
  }

  /** The loop of `appendMultiLine` over the words: the finished lines and
      the current, not yet appended, line. */
  method WrapWords(words: seq<string>, charWidth: int)
    returns (lines: seq<string>, singleLine: string, ghost runs: seq<seq<string>>, ghost cur: seq<string>)
    requires forall k :: 0 <= k < |words| ==> IsWord(words[k])
    ensures WrapInv(words, |words|, lines, singleLine, charWidth)
    ensures RunsInv(words, |words|, lines, runs, cur, singleLine)
  {
    var testLine := "";
    var i := 0;
    lines, singleLine, runs, cur := [], "", [], [];
    while i < |words|
      invariant testLine == singleLine
      invariant WrapInv(words, i, lines, singleLine, charWidth)
      invariant RunsInv(words, i, lines, runs, cur, singleLine)
    {
      var word := words[i];
      testLine := testLine + word + " ";
      if |testLine| > charWidth {
        WrapBreak(words, i, lines, singleLine, charWidth);
        RunsBreak(words, i, lines, runs, cur, singleLine);
        lines, runs, cur := lines + [singleLine], runs + [cur], [word];
        testLine := word + " ";
      } else {
        WrapExtend(words, i, lines, singleLine, charWidth);
        RunsExtend(words, i, lines, runs, cur, singleLine);
        cur := cur + [word];
      }
      singleLine := testLine;
      i := i + 1;
    }
  }

  /** The last, non-empty line is appended after the loop. */
  lemma WrapFinish(lines: seq<string>, singleLine: string, charWidth: int)
    requires singleLine != ""
    ensures Concat(lines + [singleLine]) == Concat(lines) + singleLine
    ensures forall k :: 0 <= k < |lines| ==> (lines + [singleLine])[k] == lines[k]
  {
    ConcatAppend(lines, singleLine);
  }

  /** Wrapping loses no words and keeps their order. */
  lemma WrapKeepsWords(line: string, lines: seq<string>)
    requires Concat(lines) == Spaced(Words(line))
    ensures Words(Concat(lines)) == Words(line)
  {
    WordsOfSpaced(Words(line));
  }

  /** `appendMultiLine`: the wrapped lines of `line`, for the width left after
      the header prefix, appended to the record's output lines. */
  method AppendMultiLine(output: seq<string>, header: nat, outputWidth: int, line: string)
    returns (r: seq<string>, ghost runs: seq<seq<string>>)
    ensures |r| >= |output| && r[..|output|] == output
    ensures Concat(r[|output|..]) == Spaced(Words(line))
    ensures |runs| == |r| - |output| && Flatten(runs) == Words(line)
    ensures forall k :: |output| <= k < |r| ==> r[k] == Spaced(runs[k - |output|])
    ensures forall k :: 0 < k < |runs| ==> runs[k] != []
    ensures forall k :: |output| <= k < |r| && r[k] != "" && |r[k]| > outputWidth - |HeaderStr(header)| ==>
      OneWord(r[k])
    ensures forall k :: |output| < k < |r| ==> r[k] != ""
    ensures (|r| > |output| && r[|output|] == "") <==>
      (|Words(line)| > 0 && |Words(line)[0]| + 1 > outputWidth - |HeaderStr(header)|)
  {
    var added;
    added, runs := Wrap(line, outputWidth - |HeaderStr(header)|);
    r := output + added;
    assert r[|output|..] == added;
  }
}
