/**
 `str.splitlines()` as Python defines it, next to the '\n'-only split of
 `Lines`. Python's parser numbers lines at '\n' alone, while `splitlines`
 also ends a line at several other characters, so a text holding one of them
 gets `get_lines` ranges that no longer match the parser's line numbers.
 */
module Splitlines {
  import opened Lines

  /** The characters at which `str.splitlines` ends a line; a '\r' followed
      by '\n' ends one line, not two. */
  predicate IsBoundary(c: char) {
    || c == '\n' || c == '\r'
    || c == '\U{0B}' || c == '\U{0C}'
    || c == '\U{1C}' || c == '\U{1D}' || c == '\U{1E}'
    || c == '\U{85}' || c == '\U{2028}' || c == '\U{2029}'
  }

  /** No character of `s` ends a line. */
  predicate NoBoundary(s: string) {
    forall j :: 0 <= j < |s| ==> !IsBoundary(s[j])
  }

  /** Index of the first line boundary in `s`, or `|s|` when there is none. */
  function BoundaryIndex(s: string): (i: nat)
    ensures i <= |s|
    ensures i < |s| ==> IsBoundary(s[i])
    ensures NoBoundary(s[..i])
  {
    if s == [] || IsBoundary(s[0]) then 0
    else
      var i := 1 + BoundaryIndex(s[1..]);
      assert forall j :: 1 <= j < i ==> s[..i][j] == s[1..][..i - 1][j - 1];
      i
  }

  /** The first line boundary is unique. */
  lemma {:induction false} BoundaryIndexIs(s: string, i: nat)
    requires i <= |s| && (i < |s| ==> IsBoundary(s[i]))
    requires forall j :: 0 <= j < i ==> !IsBoundary(s[j])
    ensures BoundaryIndex(s) == i
  {
    if s != [] && !IsBoundary(s[0]) {
      BoundaryIndexIs(s[1..], i - 1);
    }
  }

  /** Length of the boundary at `i`: two for "\r\n", one otherwise. */
  function BoundaryLength(s: string, i: nat): (n: nat)
    requires i < |s| && IsBoundary(s[i])
    ensures n == 1 || n == 2
    ensures i + n <= |s|
  {
    if s[i] == '\r' && i + 1 < |s| && s[i + 1] == '\n' then 2 else 1
  }

  /** `str.splitlines()` as written in split.py: the boundaries are dropped,
      and a final boundary does not open one more, empty, line. */
  function SplitLinesAsWritten(s: string): (lines: seq<string>)
    ensures forall k :: 0 <= k < |lines| ==> NoBoundary(lines[k])
    ensures |lines| == 0 <==> |s| == 0
    decreases |s|
  {
    if s == [] then []
    else
      var i := BoundaryIndex(s);
      if i == |s| then
        assert s[..i] == s;
        [s]
      else [s[..i]] + SplitLinesAsWritten(s[i + BoundaryLength(s, i)..])
  }

  /** Every line boundary turned into '\n', with "\r\n" turned into a single
      '\n': afterwards '\n' is the only boundary, and the text is no longer. */
  function Normalize(s: string): (r: string)
    ensures |r| <= |s|
    ensures forall j :: 0 <= j < |r| && IsBoundary(r[j]) ==> r[j] == '\n'
    decreases |s|
  {
    if s == [] then []
    else if IsBoundary(s[0]) then
      var rest := Normalize(s[BoundaryLength(s, 0)..]);
      assert forall j :: 1 <= j < 1 + |rest| ==> ("\n" + rest)[j] == rest[j - 1];
      "\n" + rest
    else
      var rest := Normalize(s[1..]);
      assert forall j :: 1 <= j < 1 + |rest| ==> ([s[0]] + rest)[j] == rest[j - 1];
      [s[0]] + rest
  }

  /** Normalising leaves the text up to its first boundary alone, turns that
      boundary into one '\n' and normalises the rest. */
  lemma {:induction false} NormalizeAtBoundary(s: string)
    requires BoundaryIndex(s) < |s|
    ensures var i := BoundaryIndex(s);
      Normalize(s) == s[..i] + "\n" + Normalize(s[i + BoundaryLength(s, i)..])
    decreases |s|
  {
    var i := BoundaryIndex(s);
    if i > 0 {
      var t := s[1..];
      var len := BoundaryLength(s, i);
      BoundaryIndexIs(t, i - 1);
      NormalizeAtBoundary(t);
      assert BoundaryLength(t, i - 1) == len;
      var rest := Normalize(s[i + len..]);
      assert t[i - 1 + len..] == s[i + len..];
      assert Normalize(t) == t[..i - 1] + "\n" + rest;
      assert Normalize(s) == [s[0]] + Normalize(t);
      assert s[..i] == [s[0]] + t[..i - 1];
    }
  }

  /** A text without boundaries is its own normal form. */
  lemma {:induction false} NormalizeNoBoundary(s: string)
    requires NoBoundary(s)
    ensures Normalize(s) == s
    decreases |s|
  {
    if s != [] {
      NormalizeNoBoundary(s[1..]);
    }
  }

  /** `str.splitlines()` is the '\n' split of the normalised text: the lines
      are exactly the pieces between boundaries, with "\r\n" one boundary.
      With `Lines.JoinSplit` this rebuilds the normalised text from the lines. */
  lemma {:induction false} AsWrittenIsNormalizedSplit(s: string)
    ensures SplitLinesAsWritten(s) == SplitLines(Normalize(s))
    decreases |s|
  {
    if s != [] {
      var i := BoundaryIndex(s);
      var head := s[..i];
      assert forall j :: 0 <= j < i ==> head[j] != '\n' by {
        assert NoBoundary(head);
      }
      if i == |s| {
        assert head == s;
        NormalizeNoBoundary(s);
        NewlineIndexIs(s, |s|);
      } else {
        var rest := s[i + BoundaryLength(s, i)..];
        NormalizeAtBoundary(s);
        var n := Normalize(s);
        var nr := Normalize(rest);
        assert n == head + "\n" + nr;
        assert forall j :: 0 <= j < i ==> n[j] == head[j];
        NewlineIndexIs(n, i);
        assert n[..i] == head && n[i + 1..] == nr;
        AsWrittenIsNormalizedSplit(rest);
      }
    }
  }

  /** `get_lines` as written, on top of `str.splitlines()`. */
  function GetLinesAsWritten(text: string, startLine: int, endLine: int): (r: seq<string>)
    ensures 1 <= startLine && 0 <= endLine ==>
      |r| == Max(0, Min(endLine, |SplitLinesAsWritten(text)|) - (startLine - 1))
    ensures 1 <= startLine ==>
      forall k :: 0 <= k < |r| ==>
        startLine - 1 + k < |SplitLinesAsWritten(text)|
        && r[k] == SplitLinesAsWritten(text)[startLine - 1 + k]
  {
    Slice(SplitLinesAsWritten(text), startLine - 1, endLine)
  }

  /** On a text whose only line boundary is '\n', `str.splitlines()` is the
      '\n'-only split, so every property of the model carries over to it. */
  lemma {:induction false} AsWrittenAgreesOnNewlineText(s: string)
    requires forall j :: 0 <= j < |s| && IsBoundary(s[j]) ==> s[j] == '\n'
    ensures SplitLinesAsWritten(s) == SplitLines(s)
    decreases |s|
  {
    if s != [] {
      var i := BoundaryIndex(s);
      assert forall j :: 0 <= j < i ==> s[..i][j] == s[j];
      NewlineIndexIs(s, i);
      if i < |s| {
        assert BoundaryLength(s, i) == 1;
        AsWrittenAgreesOnNewlineText(s[i + 1..]);
      }
    }
  }

  /** A boundary other than '\r' at the head of a text ends an empty line. */
  lemma LeadingBoundary(c: char, rest: string)
    requires IsBoundary(c) && c != '\r'
    ensures SplitLinesAsWritten([c] + rest) == [""] + SplitLinesAsWritten(rest)
  {
    var s := [c] + rest;
    assert BoundaryIndex(s) == 0;
    assert s[1..] == rest;
  }

  /** Two lines without boundaries, joined by '\n', split back into the two. */
  lemma TwoLinesAsWritten(a: string, b: string)
    requires b != [] && NoBoundary(a) && NoBoundary(b)
    ensures SplitLinesAsWritten(a + "\n" + b) == [a, b]
  {
    var ab := a + "\n" + b;
    assert forall j :: 0 <= j < |a| ==> ab[j] == a[j];
    BoundaryIndexIs(b, |b|);
    assert b[..|b|] == b;
    BoundaryIndexIs(ab, |a|);
    assert ab[..|a|] == a && ab[|a| + 1..] == b;
  }

  /** A form feed alone on the first line, then two lines `a` and `b`. */
  predicate FormFeedText(text: string, a: string, b: string) {
    && a != [] && b != [] && NoBoundary(a) && NoBoundary(b)
    && text == ['\U{0C}'] + (['\n'] + (a + "\n" + b))
  }

  /** The parser's lines of such a text: the form feed line, `a` and `b`. */
  lemma FormFeedParserLines(text: string, a: string, b: string)
    requires FormFeedText(text, a, b)
    ensures SplitLines(text) == ["\U{0C}", a, b]
  {
    assert forall j :: 0 <= j < |a| ==> '\n' != a[j];
    assert forall j :: 0 <= j < |b| ==> '\n' != b[j];
    var lines := ["\U{0C}", a, b];
    assert lines[1..] == [a, b];
    assert JoinLines([a, b]) == a + "\n" + b;
    assert JoinLines(lines) == "\U{0C}" + "\n" + (a + "\n" + b);
    assert JoinLines(lines) == text;
    SplitJoin(lines);
  }

  /** The lines `str.splitlines()` makes of such a text: two empty lines, as
      the form feed ends one line and the '\n' another, then `a` and `b`. */
  lemma FormFeedAsWrittenLines(text: string, a: string, b: string)
    requires FormFeedText(text, a, b)
    ensures SplitLinesAsWritten(text) == ["", "", a, b]
  {
    var ab := a + "\n" + b;
    TwoLinesAsWritten(a, b);
    LeadingBoundary('\n', ab);
    LeadingBoundary('\U{0C}', ['\n'] + ab);
  }

  /** A form feed alone on the first line: the parser counts it as one line,
      `str.splitlines()` as two, so the source `get_lines` gives the
      declaration on lines 2 and 3 starts one line too early and loses its
      last line. */
  lemma FormFeedShiftsLines(text: string, a: string, b: string)
    requires FormFeedText(text, a, b)
    ensures JoinLines(GetLines(text, 2, 3)) == a + "\n" + b
    ensures JoinLines(GetLinesAsWritten(text, 2, 3)) == "\n" + a
  {
    FormFeedParserLines(text, a, b);
    assert GetLines(text, 2, 3) == [a, b];
    FormFeedAsWrittenSource(text, a, b);
  }

  /** The as-written half: `get_lines` for lines 2 to 3 yields an empty line
      and `a`. */
  lemma FormFeedAsWrittenSource(text: string, a: string, b: string)
    requires FormFeedText(text, a, b)
    ensures JoinLines(GetLinesAsWritten(text, 2, 3)) == "\n" + a
  {
    FormFeedAsWrittenLines(text, a, b);
    var asWritten := GetLinesAsWritten(text, 2, 3);
    assert asWritten == ["", a];
    assert JoinLines(asWritten) == "" + "\n" + a;
  }

  /** The module "\f\ndef b():\n    pass", whose `def b` the parser puts on
      lines 2 and 3, is such a text, with `a` = "def b():" and `b` =
      "    pass": the code gives `def b` the source "\ndef b():" where the
      parser's lines give "def b():\n    pass". */
  lemma FormFeedExample(text: string)
    requires text == "\U{0C}\ndef b():\n    pass"
    ensures FormFeedText(text, "def b():", "    pass")
  {
    var a, b := "def b():", "    pass";
    assert NoBoundary(a) && NoBoundary(b);
    assert a + "\n" + b == "def b():\n    pass";
    assert ['\n'] + (a + "\n" + b) == "\ndef b():\n    pass";
  }
}
