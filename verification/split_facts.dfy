/**
 Properties of the splitter stated against independent descriptions: when it
 raises, which declaration a map entry holds, how a unit's text relates to the
 file's text, and how the module variables follow the statements.
 */
module SplitFacts {
  import opened Syntax
  import opened Lines
  import opened Split

  /** Whether the code raises on a declaration: a class raises on an annotated
      field directly in its body, and a function or class raises when a
      declaration directly in its body raises. */
  predicate Raises(n: Node)
    decreases n
  {
    match n
    case FunctionDef(_, _, _, _, body) =>
      exists i :: 0 <= i < |body| && IsDef(body[i]) && Raises(body[i])
    case ClassDef(_, _, _, body) =>
      exists i :: 0 <= i < |body| && (body[i].AnnAssign? || (IsDef(body[i]) && Raises(body[i])))
    case _ => false
  }

  /** Some declaration of the given kind among the first `k` statements raises. */
  predicate SomeDefRaises(body: seq<Node>, k: nat, kind: Kind)
    requires k <= |body|
  {
    exists i :: 0 <= i < k && IsDefOf(body[i], kind) && Raises(body[i])
  }

  /** Some statement of a parsed module makes `parse_file` raise. */
  predicate FileRaises(body: seq<Node>) {
    || (exists i :: 0 <= i < |body| && IsDef(body[i]) && Raises(body[i]))
    || (exists i :: 0 <= i < |body| && body[i].Assign? && !SimpleAssign(body[i]))
  }

  // ---------------------------------------------------------------------
  // All or nothing: a unit fails exactly when something below it raises.
  // ---------------------------------------------------------------------

  /** A declaration's unit is an error exactly when `Raises` says so: an
      annotated class field anywhere below it, reached through declarations
      only, makes it fail. */
  lemma {:induction false} DefFailsIffRaises(n: Node, text: string)
    requires IsDef(n)
    ensures ParseDef(n, text).Err? <==> Raises(n)
    decreases n, 1
  {
    ChildrenFailIffRaises(n, text, |n.body|);
    var fails := SomeDefRaises(n.body, |n.body|, FunctionKind) || SomeDefRaises(n.body, |n.body|, ClassKind);
    assert fails <==> exists i :: 0 <= i < |n.body| && IsDef(n.body[i]) && Raises(n.body[i]) by {
      if SomeDefRaises(n.body, |n.body|, FunctionKind) {
        var i :| 0 <= i < |n.body| && IsDefOf(n.body[i], FunctionKind) && Raises(n.body[i]);
        assert IsDef(n.body[i]);
      }
      if SomeDefRaises(n.body, |n.body|, ClassKind) {
        var i :| 0 <= i < |n.body| && IsDefOf(n.body[i], ClassKind) && Raises(n.body[i]);
        assert IsDef(n.body[i]);
      }
      if exists i :: 0 <= i < |n.body| && IsDef(n.body[i]) && Raises(n.body[i]) {
        var i :| 0 <= i < |n.body| && IsDef(n.body[i]) && Raises(n.body[i]);
        assert IsDefOf(n.body[i], KindOf(n.body[i]));
      }
    }
  }

  /** The walk over the first `k` statements of a body fails exactly when one
      of the declarations among them raises. */
  lemma {:induction false} ChildrenFailIffRaises(p: Node, text: string, k: nat)
    requires IsDef(p) && k <= |p.body|
    ensures ParseChildren(p, text, k).Err? <==>
      SomeDefRaises(p.body, k, FunctionKind) || SomeDefRaises(p.body, k, ClassKind)
    decreases p, 0, k
  {
    if k > 0 {
      ChildrenFailIffRaises(p, text, k - 1);
      var n := p.body[k - 1];
      if IsDef(n) {
        DefFailsIffRaises(n, text);
        assert IsDefOf(n, KindOf(n));
      }
      if SomeDefRaises(p.body, k, FunctionKind) && !SomeDefRaises(p.body, k - 1, FunctionKind) {
        var i :| 0 <= i < k && IsDefOf(p.body[i], FunctionKind) && Raises(p.body[i]);
        assert i == k - 1;
      }
      if SomeDefRaises(p.body, k, ClassKind) && !SomeDefRaises(p.body, k - 1, ClassKind) {
        var i :| 0 <= i < k && IsDefOf(p.body[i], ClassKind) && Raises(p.body[i]);
        assert i == k - 1;
      }
    }
  }

  /** A top-level dict comprehension fails exactly when one of the
      declarations it visits raises. */
  lemma {:induction false} CollectFailsIffRaises(body: seq<Node>, text: string, kind: Kind, k: nat)
    requires k <= |body|
    ensures CollectDefs(body, text, kind, k).Err? <==> SomeDefRaises(body, k, kind)
  {
    if k > 0 {
      CollectFailsIffRaises(body, text, kind, k - 1);
      var n := body[k - 1];
      if IsDefOf(n, kind) {
        DefFailsIffRaises(n, text);
      }
      if SomeDefRaises(body, k, kind) && !SomeDefRaises(body, k - 1, kind) {
        var i :| 0 <= i < k && IsDefOf(body[i], kind) && Raises(body[i]);
        assert i == k - 1;
      }
    }
  }

  /** The whole file fails exactly when a declaration at any depth raises or a
      top-level assignment's first target is not a plain name; there is no
      partial result. */
  lemma ParseFileFailsIff(text: string, body: seq<Node>)
    ensures ParseFile(text, body).Err? <==> FileRaises(body)
  {
    CollectFailsIffRaises(body, text, FunctionKind, |body|);
    CollectFailsIffRaises(body, text, ClassKind, |body|);
    if exists i :: 0 <= i < |body| && IsDef(body[i]) && Raises(body[i]) {
      var i :| 0 <= i < |body| && IsDef(body[i]) && Raises(body[i]);
      assert IsDefOf(body[i], KindOf(body[i]));
    }
  }

  /** Which exception the file reports. The declarations are parsed before
      the module variables are read, so a raising declaration decides the
      error (an annotated class field) even when a rejected assignment comes
      earlier in the file; only when no declaration raises is the error that
      of the first rejected assignment. */
  lemma ParseFileErrorOrder(text: string, body: seq<Node>)
    ensures (exists i :: 0 <= i < |body| && IsDef(body[i]) && Raises(body[i])) ==>
      ParseFile(text, body).Err? && ParseFile(text, body).error.AnnAssignHasNoTargets?
    ensures !(exists i :: 0 <= i < |body| && IsDef(body[i]) && Raises(body[i])) && ParseFile(text, body).Err? ==>
      exists i :: FirstBadAssignAt(body, i) && ParseFile(text, body).error == AssignError(body[i])
  {
    ParseFileFailsIff(text, body);
    CollectFailsIffRaises(body, text, FunctionKind, |body|);
    CollectFailsIffRaises(body, text, ClassKind, |body|);
    if !(exists i :: 0 <= i < |body| && IsDef(body[i]) && Raises(body[i])) {
      assert !SomeDefRaises(body, |body|, FunctionKind);
      assert !SomeDefRaises(body, |body|, ClassKind);
    }
  }

  // ---------------------------------------------------------------------
  // Last write wins.
  // ---------------------------------------------------------------------

  /** In the maps of a unit, the entry for a name is the unit of the last
      declaration of that kind and name among the statements walked. */
  lemma {:induction false} ChildrenLastWins(p: Node, text: string, k: nat, j: nat)
    requires IsDef(p) && j < k <= |p.body|
    requires IsDef(p.body[j])
    requires forall i :: j < i < k ==> !SameSlot(p.body[i], p.body[j])
    requires ParseChildren(p, text, k).Ok?
    ensures ParseDef(p.body[j], text).Ok?
    ensures p.body[j].name in ParseChildren(p, text, k).value.Get(KindOf(p.body[j]))
    ensures ParseChildren(p, text, k).value.Get(KindOf(p.body[j]))[p.body[j].name]
            == ParseDef(p.body[j], text).value
  {
    if j < k - 1 {
      ChildrenLastWins(p, text, k - 1, j);
      var m := p.body[k - 1];
      if IsDef(m) {
        assert !SameSlot(m, p.body[j]);
      }
    }
  }

  /** In the top-level maps of a file, the entry for a name is the unit of the
      last top-level declaration of that kind and name. */
  lemma {:induction false} CollectLastWins(body: seq<Node>, text: string, kind: Kind, k: nat, j: nat)
    requires j < k <= |body|
    requires IsDefOf(body[j], kind)
    requires forall i :: j < i < k ==> !(IsDefOf(body[i], kind) && body[i].name == body[j].name)
    requires CollectDefs(body, text, kind, k).Ok?
    ensures ParseDef(body[j], text).Ok?
    ensures body[j].name in CollectDefs(body, text, kind, k).value
    ensures CollectDefs(body, text, kind, k).value[body[j].name] == ParseDef(body[j], text).value
  {
    if j < k - 1 {
      CollectLastWins(body, text, kind, k - 1, j);
    }
  }

  // ---------------------------------------------------------------------
  // The text of a unit.
  // ---------------------------------------------------------------------

  /** The lines of a unit's text are exactly the lines `lineno..EndLine` of
      the file, clipped to the file, in order (as long as the last of them is
      not empty, since splitting drops a final empty line). */
  lemma UnitSourceLines(n: Node, text: string)
    requires IsDef(n)
    requires var lines := GetLines(text, n.lineno, EndLine(n)); lines == [] || lines[|lines| - 1] != []
    ensures SplitLines(UnitSource(n, text)) == GetLines(text, n.lineno, EndLine(n))
  {
    var lines := GetLines(text, n.lineno, EndLine(n));
    forall i | 0 <= i < |lines|
      ensures '\n' !in lines[i]
    {
      assert lines[i] == SplitLines(text)[n.lineno - 1 + i];
    }
    SplitJoin(lines);
  }

  /** When a unit's line range lies within the file, its source ends with
      the last line of its last statement. */
  lemma UnitSourceEnds(n: Node, text: string)
    requires IsDef(n)
    requires n.lineno <= EndLine(n) <= |SplitLines(text)|
    ensures var last := SplitLines(text)[EndLine(n) - 1];
      |last| <= |UnitSource(n, text)| && UnitSource(n, text)[|UnitSource(n, text)| - |last|..] == last
  {
    var r := GetLines(text, n.lineno, EndLine(n));
    assert r[|r| - 1] == SplitLines(text)[EndLine(n) - 1];
    JoinLinesLast(r);
  }

  /** A declaration with an empty body is exactly its own line of the file
      (or empty text when the file has fewer lines). */
  lemma EmptyBodySource(n: Node, text: string)
    requires IsDef(n) && n.body == []
    ensures var lines := SplitLines(text);
      UnitSource(n, text) == if n.lineno <= |lines| then lines[n.lineno - 1] else ""
  {
  }

  /** `s` occurs in `t` as one contiguous piece. */
  ghost predicate IsInfix(s: string, t: string) {
    exists off :: OccursAt(s, t, off)
  }

  /** `s` occurs in `t` starting at position `off`. */
  ghost predicate OccursAt(s: string, t: string, off: int) {
    0 <= off && off + |s| <= |t| && t[off..off + |s|] == s
  }

  /** Joining two non-empty runs of lines puts one newline between them. */
  lemma {:induction false} JoinAppend(xs: seq<string>, ys: seq<string>)
    requires |xs| > 0 && |ys| > 0
    ensures JoinLines(xs + ys) == JoinLines(xs) + "\n" + JoinLines(ys)
    decreases |xs|
  {
    if |xs| > 1 {
      assert (xs + ys)[1..] == xs[1..] + ys;
      JoinAppend(xs[1..], ys);
    } else {
      assert (xs + ys)[1..] == ys;
    }
  }

  /** An occurrence stays put when text is appended. */
  lemma OccursBeforeAppend(w: string, t: string, off: int, more: string)
    requires OccursAt(w, t, off)
    ensures OccursAt(w, t + more, off)
  {
  }

  /** The text after a separator occurs right after it. */
  lemma OccursAfterNewline(before: string, w: string)
    ensures OccursAt(w, before + "\n" + w, |before| + 1)
  {
  }

  /** The joined text of a run of lines occurs in the joined text of all of
      them. */
  lemma JoinWindow(all: seq<string>, lo: nat, hi: nat)
    requires lo <= hi <= |all|
    ensures IsInfix(JoinLines(all[lo..hi]), JoinLines(all))
  {
    var w := JoinLines(all[lo..hi]);
    if lo == hi {
      assert OccursAt(w, JoinLines(all), 0);
    } else {
      var off := JoinEndsWith(all[..hi], lo);
      assert all[..hi][lo..] == all[lo..hi];
      JoinStartsWith(all, hi);
      OccursBeforeAppend(w, JoinLines(all[..hi]), off, JoinLines(all)[|JoinLines(all[..hi])|..]);
    }
  }

  /** The joined text of the lines from `lo` on ends the joined text of all of
      them, at the returned offset. */
  lemma JoinEndsWith(all: seq<string>, lo: nat) returns (off: int)
    requires lo < |all|
    ensures OccursAt(JoinLines(all[lo..]), JoinLines(all), off)
  {
    var w := JoinLines(all[lo..]);
    if lo > 0 {
      JoinAppend(all[..lo], all[lo..]);
      assert all[..lo] + all[lo..] == all;
      OccursAfterNewline(JoinLines(all[..lo]), w);
      off := |JoinLines(all[..lo])| + 1;
    } else {
      assert all[lo..] == all;
      assert JoinLines(all)[0..|w|] == w;
      off := 0;
    }
  }

  /** The joined text of the first `hi` lines begins the joined text of all
      of them. */
  lemma JoinStartsWith(all: seq<string>, hi: nat)
    requires 0 < hi <= |all|
    ensures |JoinLines(all[..hi])| <= |JoinLines(all)|
    ensures JoinLines(all) == JoinLines(all[..hi]) + JoinLines(all)[|JoinLines(all[..hi])|..]
  {
    if hi < |all| {
      JoinAppend(all[..hi], all[hi..]);
      assert all[..hi] + all[hi..] == all;
    } else {
      assert all[..hi] == all;
    }
  }

  /** Joining the lines of a text gives a prefix of the text: all of it but a
      final newline. */
  lemma {:induction false} JoinSplitPrefix(s: string)
    ensures |JoinLines(SplitLines(s))| <= |s|
    ensures JoinLines(SplitLines(s)) == s[..|JoinLines(SplitLines(s))|]
    decreases |s|
  {
    if s != [] {
      var i := NewlineIndex(s);
      if i < |s| {
        var rest := s[i + 1..];
        JoinSplitPrefix(rest);
        var tail := SplitLines(rest);
        assert SplitLines(s) == [s[..i]] + tail;
        if |tail| == 0 {
          assert JoinLines(SplitLines(s)) == s[..i];
        } else {
          JoinAppend([s[..i]], tail);
          PrefixAfterNewline(s, i, JoinLines(tail));
        }
      } else {
        assert SplitLines(s) == [s];
      }
    }
  }

  /** A line, a newline, and a prefix of what follows make a prefix. */
  lemma PrefixAfterNewline(s: string, i: nat, after: string)
    requires i < |s| && s[i] == '\n'
    requires |after| <= |s| - (i + 1) && after == s[i + 1..][..|after|]
    ensures s[..i] + "\n" + after == s[..i + 1 + |after|]
  {
  }

  /** Every unit's text is one contiguous piece of the file's text. */
  lemma UnitSourceInText(n: Node, text: string)
    requires IsDef(n)
    ensures IsInfix(UnitSource(n, text), text)
  {
    var all := SplitLines(text);
    var r := GetLines(text, n.lineno, EndLine(n));
    var lo := Min(n.lineno - 1, |all|);
    var hi := lo + |r|;
    assert hi <= |all|;
    assert r == all[lo..hi];
    JoinWindow(all, lo, hi);
    JoinSplitPrefix(text);
    var w := UnitSource(n, text);
    var joined := JoinLines(all);
    var off :| OccursAt(w, joined, off);
    assert text == joined + text[|joined|..];
    OccursBeforeAppend(w, joined, off, text[|joined|..]);
  }

  // ---------------------------------------------------------------------
  // Module variables.
  // ---------------------------------------------------------------------

  /** Running one comprehension after another: the first error, or both
      lists in order. */
  function Then(a: Result<seq<string>>, b: Result<seq<string>>): Result<seq<string>> {
    if a.Err? then a else if b.Err? then b else Ok(a.value + b.value)
  }

  /** The module variables of consecutive runs of statements are those of the
      first run followed by those of the second. */
  lemma {:induction false} ModuleVariablesAppend(a: seq<Node>, b: seq<Node>)
    ensures ModuleVariables(a + b) == Then(ModuleVariables(a), ModuleVariables(b))
  {
    if a == [] {
      assert a + b == b;
      if ModuleVariables(b).Ok? {
        assert [] + ModuleVariables(b).value == ModuleVariables(b).value;
      }
    } else {
      var n := a[0];
      assert (a + b)[0] == n;
      assert (a + b)[1..] == a[1..] + b;
      ModuleVariablesAppend(a[1..], b);
      var tailA := ModuleVariables(a[1..]);
      var tailAB := ModuleVariables(a[1..] + b);
      if n.Assign? && SimpleAssign(n) {
        assert ModuleVariables(a) == if tailA.Err? then Err(tailA.error) else Ok([n.targets[0].id] + tailA.value);
        assert ModuleVariables(a + b) == if tailAB.Err? then Err(tailAB.error) else Ok([n.targets[0].id] + tailAB.value);
        if tailA.Ok? && ModuleVariables(b).Ok? {
          assert [n.targets[0].id] + (tailA.value + ModuleVariables(b).value)
              == ([n.targets[0].id] + tailA.value) + ModuleVariables(b).value;
        }
      }
    }
  }

  /** What one statement contributes: an `Assign` its first target's name (or
      the exception), anything else nothing. */
  lemma ModuleVariablesOfOne(n: Node)
    ensures ModuleVariables([n]) ==
      if !n.Assign? then Ok([])
      else if SimpleAssign(n) then Ok([n.targets[0].id])
      else Err(AssignError(n))
  {
    assert [n][1..] == [];
    if n.Assign? && SimpleAssign(n) {
      assert [n.targets[0].id] + [] == [n.targets[0].id];
    }
  }
}
