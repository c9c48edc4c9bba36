/**
 The splitter proper: `parse_file` once the module is parsed, and the mutually
 recursive `parse_function` and `parse_class`, which turn a syntax tree into a
 tree of units. Every unit holds its source text, maps from names to the units
 of the functions and classes declared directly in its body, and a list of
 variable names.

 Where the Python code raises, the functions here return `Err`; the error
 recorded is the one Python raises first, so the order in which the pieces of
 a unit are computed follows the code.
 */
module Split {
  import opened Syntax
  import opened Lines

  /** One function or class, with the units declared directly in its body. */
  datatype Unit = Unit(
    source: string,
    functions: map<string, Unit>,
    classes: map<string, Unit>,
    variables: seq<string>)

  /** The result for a whole file: like a unit, but with no `source` entry. */
  datatype FileTree = FileTree(
    functions: map<string, Unit>,
    classes: map<string, Unit>,
    variables: seq<string>)

  /** The exceptions the code can raise once the module is parsed, each with
      the line of the statement that raises it. */
  datatype Error =
      /** `node.targets[0]` on an `Assign` without targets (IndexError). */
    | NoTargets(line: LineNo)
      /** `.id` on a first target that is not a plain name (AttributeError). */
    | TargetHasNoId(line: LineNo)
      /** `stmt.targets` on an `AnnAssign`, which has `target` only (AttributeError). */
    | AnnAssignHasNoTargets(line: LineNo)

  datatype Result<T> = Ok(value: T) | Err(error: Error) {
    predicate IsFailure() {
      Err?
    }

    function PropagateFailure<U>(): Result<U>
      requires Err?
    {
      Err(error)
    }

    function Extract(): T
      requires Ok?
    {
      value
    }
  }

  /** The two child maps of a unit while its body is being walked. */
  datatype Tables = Tables(functions: map<string, Unit>, classes: map<string, Unit>) {
    function Get(kind: Kind): map<string, Unit> {
      match kind
      case FunctionKind => functions
      case ClassKind => classes
    }

    function Put(kind: Kind, name: string, u: Unit): (t: Tables)
      ensures t.Get(kind) == Get(kind)[name := u]
      ensures forall other :: other != kind ==> t.Get(other) == Get(other)
    {
      match kind
      case FunctionKind => Tables(functions[name := u], classes)
      case ClassKind => Tables(functions, classes[name := u])
    }
  }

  /** Last line of a declaration (split.py lines 59 and 79): the end of its
      last body statement, or its own first line when the body is empty. */
  function EndLine(n: Node): (e: LineNo)
    requires IsDef(n)
    ensures n.body == [] ==> e == n.lineno
    ensures n.body != [] ==> e == n.body[|n.body| - 1].endLineno
    ensures LinesOrdered(n) ==> n.lineno <= e <= n.endLineno
  {
    if n.body == [] then n.lineno else n.body[|n.body| - 1].endLineno
  }

  /** The text of a declaration: its lines joined with "\n". When its range
      lies within the file, the text starts with the declaration's own line
      (`SplitFacts.UnitSourceEnds` adds that it ends with the last line of
      its last statement). */
  function UnitSource(n: Node, text: string): (s: string)
    requires IsDef(n)
    ensures var lines := SplitLines(text);
      n.lineno <= EndLine(n) <= |lines| ==> lines[n.lineno - 1] <= s
  {
    JoinLines(GetLines(text, n.lineno, EndLine(n)))
  }

  /** `parse_function`: the parameter names are the variables, and every
      function or class directly in the body becomes a child unit. */
  function ParseFunction(f: Node, text: string): (r: Result<Unit>)
    requires f.FunctionDef?
    ensures r.Err? ==> r.error.AnnAssignHasNoTargets?
    ensures r.Ok? ==> r.value.source == UnitSource(f, text)
    ensures r.Ok? ==> r.value.variables == f.args
    ensures r.Ok? ==> r.value.functions.Keys == Names(f.body, |f.body|, FunctionKind)
    ensures r.Ok? ==> r.value.classes.Keys == Names(f.body, |f.body|, ClassKind)
    decreases f, 1, 0
  {
    var source := UnitSource(f, text);
    var variables := f.args;
    var children :- ParseChildren(f, text, |f.body|);
    Ok(Unit(source, children.functions, children.classes, variables))
  }

  /** `parse_class`: the variables would be the annotated fields, but reading
      them fails on the first one; every function or class directly in the
      body becomes a child unit. */
  function ParseClass(c: Node, text: string): (r: Result<Unit>)
    requires c.ClassDef?
    ensures r.Err? ==> r.error.AnnAssignHasNoTargets?
    ensures r.Ok? ==> r.value.source == UnitSource(c, text)
    ensures r.Ok? ==> r.value.variables == []
    ensures r.Ok? ==> forall i :: 0 <= i < |c.body| ==> !c.body[i].AnnAssign?
    ensures r.Ok? ==> r.value.functions.Keys == Names(c.body, |c.body|, FunctionKind)
    ensures r.Ok? ==> r.value.classes.Keys == Names(c.body, |c.body|, ClassKind)
    decreases c, 1, 0
  {
    var source := UnitSource(c, text);
    var variables :- ClassVariables(c.body);
    var children :- ParseChildren(c, text, |c.body|);
    Ok(Unit(source, children.functions, children.classes, variables))
  }

  /** The unit of one declaration, whichever its kind. */
  function ParseDef(n: Node, text: string): (r: Result<Unit>)
    requires IsDef(n)
    ensures r.Err? ==> r.error.AnnAssignHasNoTargets?
    decreases n, 2, 0
  {
    if n.FunctionDef? then ParseFunction(n, text) else ParseClass(n, text)
  }

  /** The loop over the body of a function or class, after its first `k`
      statements: each declaration is parsed and stored under its name,
      replacing any earlier one of the same kind and name. */
  function ParseChildren(p: Node, text: string, k: nat): (r: Result<Tables>)
    requires IsDef(p) && k <= |p.body|
    ensures r.Err? ==> r.error.AnnAssignHasNoTargets?
    ensures r.Ok? ==> r.value.functions.Keys == Names(p.body, k, FunctionKind)
    ensures r.Ok? ==> r.value.classes.Keys == Names(p.body, k, ClassKind)
    decreases p, 0, k
  {
    if k == 0 then Ok(Tables(map[], map[]))
    else
      var t :- ParseChildren(p, text, k - 1);
      var n := p.body[k - 1];
      NamesStep(p.body, k, FunctionKind);
      NamesStep(p.body, k, ClassKind);
      if IsDef(n) then
        var u :- ParseDef(n, text);
        Ok(t.Put(KindOf(n), n.name, u))
      else
        Ok(t)
  }

  /** `body[i]` is the first `AnnAssign` of `body`. */
  predicate FirstAnnAssignAt(body: seq<Node>, i: int) {
    0 <= i < |body| && body[i].AnnAssign? && forall j :: 0 <= j < i ==> !body[j].AnnAssign?
  }

  /** The class-variable comprehension: the first `AnnAssign` in the body
      raises, so it succeeds only on a body without one, with no names. */
  function ClassVariables(body: seq<Node>): (r: Result<seq<string>>)
    ensures r.Ok? <==> forall i :: 0 <= i < |body| ==> !body[i].AnnAssign?
    ensures r.Ok? ==> r.value == []
    ensures r.Err? ==> exists i :: FirstAnnAssignAt(body, i) && r.error == AnnAssignHasNoTargets(body[i].lineno)
  {
    if body == [] then Ok([])
    else if body[0].AnnAssign? then Err(AnnAssignHasNoTargets(body[0].lineno))
    else
      var r := ClassVariables(body[1..]);
      assert r.Err? ==> exists i :: FirstAnnAssignAt(body, i) && r.error == AnnAssignHasNoTargets(body[i].lineno) by {
        if r.Err? {
          var i :| FirstAnnAssignAt(body[1..], i) && r.error == AnnAssignHasNoTargets(body[1..][i].lineno);
          assert FirstAnnAssignAt(body, i + 1);
        }
      }
      r
  }

  /** The module-variable comprehension: the name of the first target of
      every `Assign`, in order; the first `Assign` whose first target is
      missing or not a plain name raises. */
  function ModuleVariables(body: seq<Node>): (r: Result<seq<string>>)
    ensures r.Ok? <==> forall i :: 0 <= i < |body| && body[i].Assign? ==> SimpleAssign(body[i])
    ensures r.Ok? ==> |r.value| <= |body|
    ensures r.Err? ==> exists i :: FirstBadAssignAt(body, i) && r.error == AssignError(body[i])
  {
    if body == [] then Ok([])
    else
      var n := body[0];
      if n.Assign? then
        if n.targets == [] then Err(NoTargets(n.lineno))
        else if !n.targets[0].Name? then Err(TargetHasNoId(n.lineno))
        else
          var rest := ModuleVariables(body[1..]);
          FirstBadAssignShift(body, rest);
          if rest.Err? then Err(rest.error) else Ok([n.targets[0].id] + rest.value)
      else
        var rest := ModuleVariables(body[1..]);
        FirstBadAssignShift(body, rest);
        rest
  }

  /** `body[i]` is the first `Assign` of `body` that `targets[0].id` rejects. */
  predicate FirstBadAssignAt(body: seq<Node>, i: int) {
    && 0 <= i < |body|
    && body[i].Assign? && !SimpleAssign(body[i])
    && forall j :: 0 <= j < i && body[j].Assign? ==> SimpleAssign(body[j])
  }

  /** The exception `targets[0].id` raises on an `Assign` it rejects. */
  function AssignError(n: Node): Error
    requires n.Assign? && !SimpleAssign(n)
  {
    if n.targets == [] then NoTargets(n.lineno) else TargetHasNoId(n.lineno)
  }

  /** The first rejected `Assign` after the head of a body whose head is not
      rejected is the first rejected one of the whole body. */
  lemma FirstBadAssignShift(body: seq<Node>, rest: Result<seq<string>>)
    requires |body| > 0 && (body[0].Assign? ==> SimpleAssign(body[0]))
    requires rest.Err? ==> exists i :: FirstBadAssignAt(body[1..], i) && rest.error == AssignError(body[1..][i])
    ensures rest.Err? ==> exists i :: FirstBadAssignAt(body, i) && rest.error == AssignError(body[i])
  {
  }

  /** A top-level dict comprehension of `parse_file` over the first `k`
      statements: the declarations of one kind, in order, each stored under
      its name, a later one replacing an earlier one. */
  function CollectDefs(body: seq<Node>, text: string, kind: Kind, k: nat): (r: Result<map<string, Unit>>)
    requires k <= |body|
    ensures r.Err? ==> r.error.AnnAssignHasNoTargets?
    ensures r.Ok? ==> r.value.Keys == Names(body, k, kind)
  {
    if k == 0 then Ok(map[])
    else
      var m :- CollectDefs(body, text, kind, k - 1);
      var n := body[k - 1];
      NamesStep(body, k, kind);
      if IsDefOf(n, kind) then
        var u :- ParseDef(n, text);
        Ok(m[n.name := u])
      else
        Ok(m)
  }

  /** `parse_file` after `ast.parse`: the functions first, then the classes,
      then the module variables. */
  function ParseFile(text: string, body: seq<Node>): (r: Result<FileTree>)
    ensures r.Ok? ==> r.value.functions.Keys == Names(body, |body|, FunctionKind)
    ensures r.Ok? ==> r.value.classes.Keys == Names(body, |body|, ClassKind)
    ensures r.Ok? ==> ModuleVariables(body) == Ok(r.value.variables)
  {
    var functions :- CollectDefs(body, text, FunctionKind, |body|);
    var classes :- CollectDefs(body, text, ClassKind, |body|);
    var variables :- ModuleVariables(body);
    Ok(FileTree(functions, classes, variables))
  }

  /** One more statement adds at most its own name to the names seen so far. */
  lemma NamesStep(body: seq<Node>, k: nat, kind: Kind)
    requires 0 < k <= |body|
    ensures Names(body, k, kind) ==
      Names(body, k - 1, kind) + (if IsDefOf(body[k - 1], kind) then {body[k - 1].name} else {})
  {
  }
}
