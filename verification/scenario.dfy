/**
 Works out, by proof, the tree the model gives for a small module: a module
 variable, a function, and a class holding a method.
 */
module Scenario {
  import opened Syntax
  import opened Lines
  import opened Split
  import opened SplitFacts

  /** The lines of the small module, with the annotated field `y: int` in the
      class body when `withField` holds. */
  function FileLines(withField: bool): seq<string> {
    if withField then
      ["x = 1", "def f(a, b):", "    return a + b", "class C:", "    y: int", "    def g(self):", "        pass"]
    else
      ["x = 1", "def f(a, b):", "    return a + b", "class C:", "    def g(self):", "        pass"]
  }

  function Text(withField: bool): string {
    JoinLines(FileLines(withField))
  }

  /** What `ast.parse` yields for `Text(true)`. */
  function WithField(): seq<Node> {
    [ Assign(1, 1, [Name("x")]),
      FunctionDef("f", 2, 3, ["a", "b"], [Other(3, 3, [])]),
      ClassDef("C", 4, 7, [
        AnnAssign(5, 5, Name("y")),
        FunctionDef("g", 6, 7, ["self"], [Other(7, 7, [])])])]
  }

  /** What `ast.parse` yields for `Text(false)`. */
  function WithoutField(): seq<Node> {
    [ Assign(1, 1, [Name("x")]),
      FunctionDef("f", 2, 3, ["a", "b"], [Other(3, 3, [])]),
      ClassDef("C", 4, 6, [
        FunctionDef("g", 5, 6, ["self"], [Other(6, 6, [])])])]
  }

  /** The annotated field makes the whole file fail, on its own line, whatever
      the text. */
  lemma FieldMakesFileFail(text: string)
    ensures ParseFile(text, WithField()) == Err(AnnAssignHasNoTargets(5))
  {
    var body := WithField();
    var c := body[2];
    assert ParseChildren(body[1], text, 1).Ok?;
    assert ParseDef(body[1], text).Ok?;
    assert CollectDefs(body, text, FunctionKind, 0).Ok?;
    assert CollectDefs(body, text, FunctionKind, 1).Ok?;
    assert CollectDefs(body, text, FunctionKind, 2).Ok?;
    assert CollectDefs(body, text, FunctionKind, 3).Ok?;
    assert ClassVariables(c.body) == Err(AnnAssignHasNoTargets(5));
    assert ParseDef(c, text) == Err(AnnAssignHasNoTargets(5));
    assert CollectDefs(body, text, ClassKind, 0) == Ok(map[]);
    assert CollectDefs(body, text, ClassKind, 1) == Ok(map[]);
    assert CollectDefs(body, text, ClassKind, 2) == Ok(map[]);
    assert CollectDefs(body, text, ClassKind, 3) == Err(AnnAssignHasNoTargets(5));
  }

  /** `x.a = 1` on line 1 and a class with the field `y: int` on line 3: the
      classes are parsed before the assignment is read, so the field's error
      is the one reported. */
  lemma FieldBeatsEarlierAssign(text: string)
    ensures ParseFile(text, [
        Assign(1, 1, [Attribute]),
        ClassDef("C", 2, 3, [AnnAssign(3, 3, Name("y"))])])
      == Err(AnnAssignHasNoTargets(3))
  {
    var c := ClassDef("C", 2, 3, [AnnAssign(3, 3, Name("y"))]);
    var body := [Assign(1, 1, [Attribute]), c];
    assert CollectDefs(body, text, FunctionKind, 0) == Ok(map[]);
    assert CollectDefs(body, text, FunctionKind, 1) == Ok(map[]);
    assert CollectDefs(body, text, FunctionKind, 2) == Ok(map[]);
    assert ClassVariables(c.body) == Err(AnnAssignHasNoTargets(3));
    assert ParseDef(c, text) == Err(AnnAssignHasNoTargets(3));
    assert CollectDefs(body, text, ClassKind, 1) == Ok(map[]);
    assert CollectDefs(body, text, ClassKind, 2) == Err(AnnAssignHasNoTargets(3));
  }

  /** Splitting the text gives its lines back. */
  lemma LinesWithoutField()
    ensures SplitLines(Text(false)) == FileLines(false)
  {
    var lines := FileLines(false);
    forall i | 0 <= i < |lines|
      ensures '\n' !in lines[i]
    {
    }
    SplitJoin(lines);
  }

  /** The text of a declaration spanning lines `lo..hi` of `Text(false)`. */
  lemma SourceWithoutField(n: Node, text: string, lo: nat, hi: nat)
    requires SplitLines(text) == FileLines(false)
    requires IsDef(n) && n.lineno == lo + 1 && EndLine(n) == hi && lo < hi <= 6
    ensures UnitSource(n, text) == JoinLines(FileLines(false)[lo..hi])
  {
  }

  lemma JoinTwo(a: string, b: string)
    ensures JoinLines([a, b]) == a + "\n" + b
  {
  }

  lemma JoinThree(a: string, b: string, c: string)
    ensures JoinLines([a, b, c]) == a + "\n" + b + "\n" + c
  {
    assert [a, b, c][1..] == [b, c];
    JoinTwo(b, c);
  }

  /** The unit of `g`. */
  lemma UnitOfG(text: string)
    requires SplitLines(text) == FileLines(false)
    ensures ParseFunction(WithoutField()[2].body[0], text)
      == Ok(Unit("    def g(self):\n        pass", map[], map[], ["self"]))
  {
    var g := WithoutField()[2].body[0];
    SourceWithoutField(g, text, 4, 6);
    assert FileLines(false)[4..6] == ["    def g(self):", "        pass"];
    JoinTwo("    def g(self):", "        pass");
    assert UnitSource(g, text) == "    def g(self):\n        pass";
    assert ParseChildren(g, text, 1) == Ok(Tables(map[], map[]));
  }

  /** The unit of `f`. */
  lemma UnitOfF(text: string)
    requires SplitLines(text) == FileLines(false)
    ensures ParseFunction(WithoutField()[1], text)
      == Ok(Unit("def f(a, b):\n    return a + b", map[], map[], ["a", "b"]))
  {
    var f := WithoutField()[1];
    SourceWithoutField(f, text, 1, 3);
    assert FileLines(false)[1..3] == ["def f(a, b):", "    return a + b"];
    JoinTwo("def f(a, b):", "    return a + b");
    assert UnitSource(f, text) == "def f(a, b):\n    return a + b";
    assert ParseChildren(f, text, 1) == Ok(Tables(map[], map[]));
  }

  /** The source of `C`: its three lines. */
  lemma SourceOfC(text: string)
    requires SplitLines(text) == FileLines(false)
    ensures UnitSource(WithoutField()[2], text) == "class C:\n    def g(self):\n        pass"
  {
    SourceWithoutField(WithoutField()[2], text, 3, 6);
    assert FileLines(false)[3..6] == ["class C:", "    def g(self):", "        pass"];
    JoinOfC();
  }

  lemma JoinOfC()
    ensures JoinLines(["class C:", "    def g(self):", "        pass"]) == "class C:\n    def g(self):\n        pass"
  {
    JoinThree("class C:", "    def g(self):", "        pass");
    assert "class C:" + "\n" == "class C:\n";
    assert "class C:\n" + "    def g(self):" == "class C:\n    def g(self):";
    assert "class C:\n    def g(self):" + "\n" == "class C:\n    def g(self):\n";
    assert "class C:\n    def g(self):\n" + "        pass" == "class C:\n    def g(self):\n        pass";
  }

  /** The unit of `C`. */
  lemma UnitOfC(text: string)
    requires SplitLines(text) == FileLines(false)
    ensures ParseClass(WithoutField()[2], text)
      == Ok(Unit("class C:\n    def g(self):\n        pass",
                 map["g" := Unit("    def g(self):\n        pass", map[], map[], ["self"])], map[], []))
  {
    var c := WithoutField()[2];
    var g := Unit("    def g(self):\n        pass", map[], map[], ["self"]);
    SourceOfC(text);
    UnitOfG(text);
    assert ParseDef(c.body[0], text) == Ok(g);
    assert ParseChildren(c, text, 0) == Ok(Tables(map[], map[]));
    assert ParseChildren(c, text, 1) == Ok(Tables(map["g" := g], map[]));
    assert ClassVariables(c.body) == Ok([]);
  }

  /** Without the field, every unit carries its own lines of the text, the
      method sits inside the class only, and the module variable is `x`. */
  lemma TreeWithoutField(text: string)
    requires SplitLines(text) == FileLines(false)
    ensures var g := Unit("    def g(self):\n        pass", map[], map[], ["self"]);
      ParseFile(text, WithoutField()) == Ok(FileTree(
        map["f" := Unit("def f(a, b):\n    return a + b", map[], map[], ["a", "b"])],
        map["C" := Unit("class C:\n    def g(self):\n        pass", map["g" := g], map[], [])],
        ["x"]))
  {
    var body := WithoutField();
    var g := Unit("    def g(self):\n        pass", map[], map[], ["self"]);
    var fu := Unit("def f(a, b):\n    return a + b", map[], map[], ["a", "b"]);
    var cu := Unit("class C:\n    def g(self):\n        pass", map["g" := g], map[], []);
    UnitOfF(text);
    UnitOfC(text);
    assert ParseDef(body[1], text) == Ok(fu);
    assert ParseDef(body[2], text) == Ok(cu);
    assert CollectDefs(body, text, FunctionKind, 1) == Ok(map[]);
    assert CollectDefs(body, text, FunctionKind, 2) == Ok(map["f" := fu]);
    assert CollectDefs(body, text, FunctionKind, 3) == Ok(map["f" := fu]);
    assert CollectDefs(body, text, ClassKind, 1) == Ok(map[]);
    assert CollectDefs(body, text, ClassKind, 2) == Ok(map[]);
    assert CollectDefs(body, text, ClassKind, 3) == Ok(map["C" := cu]);
    ModuleVariablesOfOne(body[0]);
    ModuleVariablesOfOne(body[1]);
    ModuleVariablesOfOne(body[2]);
    ModuleVariablesAppend([body[1]], [body[2]]);
    assert [body[1]] + [body[2]] == body[1..];
    ModuleVariablesAppend([body[0]], body[1..]);
    assert [body[0]] + body[1..] == body;
  }

  /** The tree of the scenario's own text. */
  lemma ScenarioTree()
    ensures var g := Unit("    def g(self):\n        pass", map[], map[], ["self"]);
      ParseFile(Text(false), WithoutField()) == Ok(FileTree(
        map["f" := Unit("def f(a, b):\n    return a + b", map[], map[], ["a", "b"])],
        map["C" := Unit("class C:\n    def g(self):\n        pass", map["g" := g], map[], [])],
        ["x"]))
  {
    LinesWithoutField();
    TreeWithoutField(Text(false));
  }
}
