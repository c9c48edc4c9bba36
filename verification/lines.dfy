/**
 Line handling of the splitter: cutting a file's text into lines, Python's
 slice of a list of lines, `get_lines`, and `"\n".join`.
 */
module Lines {

  function Min(a: int, b: int): int {
    if a < b then a else b
  }

  function Max(a: int, b: int): int {
    if a < b then b else a
  }

  /** Index of the first '\n' in `s`, or `|s|` when there is none. */
  function NewlineIndex(s: string): (i: nat)
    ensures i <= |s|
    ensures i < |s| ==> s[i] == '\n'
    ensures forall j :: 0 <= j < i ==> s[j] != '\n'
  {
    if s == [] || s[0] == '\n' then 0 else 1 + NewlineIndex(s[1..])
  }

  /** The first '\n' is unique: any position with `NewlineIndex`'s
      contract is `NewlineIndex`. */
  lemma {:induction false} NewlineIndexIs(s: string, i: nat)
    requires i <= |s| && (i < |s| ==> s[i] == '\n')
    requires forall j :: 0 <= j < i ==> s[j] != '\n'
    ensures NewlineIndex(s) == i
  {
    if s != [] && s[0] != '\n' {
      NewlineIndexIs(s[1..], i - 1);
    }
  }

  /** `str.splitlines()` with '\n' as the only line boundary: the boundaries
      are dropped, and a final '\n' does not open one more, empty, line. */
  function SplitLines(s: string): (lines: seq<string>)
    ensures forall i :: 0 <= i < |lines| ==> '\n' !in lines[i]
    ensures |lines| == 0 <==> |s| == 0
    decreases |s|
  {
    if s == [] then []
    else
      var i := NewlineIndex(s);
      if i == |s| then [s] else [s[..i]] + SplitLines(s[i + 1..])
  }

  /** `"\n".join(lines)`: no lines give the empty text, and otherwise the
      text starts with the first line. */
  function JoinLines(lines: seq<string>): (s: string)
    ensures |lines| == 0 ==> s == ""
    ensures |lines| > 0 ==> lines[0] <= s
  {
    if |lines| == 0 then ""
    else if |lines| == 1 then lines[0]
    else lines[0] + "\n" + JoinLines(lines[1..])
  }

  /** The joined text ends with the last line. */
  lemma {:induction false} JoinLinesLast(lines: seq<string>)
    ensures |lines| > 0 ==> var last := lines[|lines| - 1];
      |last| <= |JoinLines(lines)| && JoinLines(lines)[|JoinLines(lines)| - |last|..] == last
  {
    if |lines| > 1 {
      JoinLinesLast(lines[1..]);
      var last := lines[|lines| - 1];
      var t := JoinLines(lines[1..]);
      assert lines[1..][|lines| - 2] == last;
      assert JoinLines(lines) == lines[0] + "\n" + t;
      assert (lines[0] + "\n" + t)[|lines[0] + "\n" + t| - |last|..] == t[|t| - |last|..];
    }
  }

  /** Python's normalisation of one slice bound against a sequence of length
      `n`: a negative bound counts from the end, and the result is clamped
      to `0..n`. */
  function SliceBound(i: int, n: nat): (b: nat)
    ensures b <= n
    ensures 0 <= i ==> b == Min(i, n)
    ensures i < 0 ==> b == Max(i + n, 0)
  {
    if i < 0 then Max(i + n, 0) else Min(i, n)
  }

  /** Python's `a[start:stop]` (step 1). */
  function Slice<T>(a: seq<T>, start: int, stop: int): (r: seq<T>)
    ensures |r| <= |a|
    ensures 0 <= start && 0 <= stop ==> |r| == Max(0, Min(stop, |a|) - start)
    ensures 0 <= start ==> forall k :: 0 <= k < |r| ==> start + k < |a| && r[k] == a[start + k]
  {
    var lo := SliceBound(start, |a|);
    var hi := SliceBound(stop, |a|);
    if lo < hi then a[lo..hi] else []
  }

  /** A negative slice bound counts back from the end of the sequence, and
      one before its start clamps to the start (for `stop`, gives nothing). */
  lemma SliceFromEnd<T>(a: seq<T>, start: int, stop: int)
    ensures -|a| <= start < 0 ==> Slice(a, start, stop) == Slice(a, start + |a|, stop)
    ensures start < -|a| ==> Slice(a, start, stop) == Slice(a, 0, stop)
    ensures -|a| <= stop < 0 ==> Slice(a, start, stop) == Slice(a, start, stop + |a|)
    ensures stop < -|a| ==> Slice(a, start, stop) == []
  {
  }

  /** `get_lines(source, start_line, end_line)`: the 1-based, inclusive line
      range `start_line..end_line` of the text, clipped to the lines there are. */
  function GetLines(text: string, startLine: int, endLine: int): (r: seq<string>)
    ensures 1 <= startLine && 0 <= endLine ==>
      |r| == Max(0, Min(endLine, |SplitLines(text)|) - (startLine - 1))
    ensures 1 <= startLine ==>
      forall k :: 0 <= k < |r| ==>
        startLine - 1 + k < |SplitLines(text)| && r[k] == SplitLines(text)[startLine - 1 + k]
  {
    var lines := SplitLines(text);
    Slice(lines, startLine - 1, endLine)
  }

  /** Joining the lines of a text gives the text back, without its final
      '\n' if it has one: a final line break opens no line of its own. */
  lemma {:induction false} JoinSplit(s: string)
    ensures JoinLines(SplitLines(s)) == if s != [] && s[|s| - 1] == '\n' then s[..|s| - 1] else s
    decreases |s|
  {
    if s != [] {
      var i := NewlineIndex(s);
      if i < |s| {
        var rest := s[i + 1..];
        assert s == s[..i] + "\n" + rest;
        if rest == [] {
          assert SplitLines(s) == [s[..i]];
        } else {
          assert rest[|rest| - 1] == s[|s| - 1];
          JoinSplit(rest);
          var tail := SplitLines(rest);
          assert SplitLines(s) == [s[..i]] + tail;
          assert JoinLines(SplitLines(s)) == s[..i] + "\n" + JoinLines(tail);
          if s[|s| - 1] == '\n' {
            assert s[..|s| - 1] == s[..i] + "\n" + rest[..|rest| - 1];
          }
        }
      }
    }
  }

  /** A final '\n' after a non-empty text adds no line: `"a\n".splitlines()`
      is `"a".splitlines()`. */
  lemma {:induction false} SplitLinesFinalBreak(s: string)
    requires s != [] && s[|s| - 1] != '\n'
    ensures SplitLines(s + "\n") == SplitLines(s)
    decreases |s|
  {
    var t := s + "\n";
    var i := NewlineIndex(s);
    assert forall j :: 0 <= j < |s| ==> t[j] == s[j];
    if i == |s| {
      NewlineIndexIs(t, |s|);
      assert t[|s| + 1..] == [];
      assert t[..|s|] == s;
    } else {
      NewlineIndexIs(t, i);
      var rest := s[i + 1..];
      assert |rest| > 0 && rest[|rest| - 1] == s[|s| - 1];
      assert t[i + 1..] == rest + "\n";
      assert t[..i] == s[..i];
      SplitLinesFinalBreak(rest);
    }
  }

  /** Splitting joined lines gives the lines back, provided no line holds a
      newline and the last line is not empty. */
  lemma {:induction false} SplitJoin(lines: seq<string>)
    requires forall i :: 0 <= i < |lines| ==> '\n' !in lines[i]
    requires lines == [] || lines[|lines| - 1] != []
    ensures SplitLines(JoinLines(lines)) == lines
  {
    if |lines| == 1 {
      var s := lines[0];
      assert NewlineIndex(s) == |s|;
    } else if |lines| > 1 {
      var a := lines[0];
      var t := JoinLines(lines[1..]);
      var s := a + "\n" + t;
      assert s == JoinLines(lines);
      var i := NewlineIndex(s);
      assert s[|a|] == '\n';
      assert forall j :: 0 <= j < |a| ==> s[j] == a[j];
      assert i == |a|;
      assert s[..i] == a;
      assert s[i + 1..] == t;
      SplitJoin(lines[1..]);
    }
  }
}
