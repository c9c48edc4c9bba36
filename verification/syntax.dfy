/**
 The part of Python's `ast` tree that the splitter looks at. A parsed module is
 a sequence of top-level statements; every statement carries its first and last
 line (1-based, as `lineno` and `end_lineno` are in `ast`).
 */
module Syntax {

  /** Line numbers reported by the parser are 1-based. */
  type LineNo = n: int | 1 <= n witness 1

  /** An assignment target. Only `Name` has an `id`; every other target kind
      (attribute, subscript, starred, tuple or list unpacking) has none. */
  datatype Target = Name(id: string) | Attribute | Subscript | Starred | Tuple | List

  /** One statement. `FunctionDef` and `ClassDef` are the declarations that
      become units; `Other` stands for every remaining statement (`if`, `for`,
      `with`, `try`, expressions, ...) together with the statements nested in
      it, which the splitter never visits. A function's `args` are the names
      in `args.args`, its positional-or-keyword parameters: positional-only
      parameters (before `/`), `*args`, keyword-only parameters and
      `**kwargs` are not among them. `lineno` of a decorated declaration is
      the line of `def` or `class`, not of its first decorator. */
  datatype Node =
    | FunctionDef(name: string, lineno: LineNo, endLineno: LineNo, args: seq<string>, body: seq<Node>)
    | ClassDef(name: string, lineno: LineNo, endLineno: LineNo, body: seq<Node>)
    | Assign(lineno: LineNo, endLineno: LineNo, targets: seq<Target>)
    | AnnAssign(lineno: LineNo, endLineno: LineNo, target: Target)
    | Other(lineno: LineNo, endLineno: LineNo, nested: seq<Node>)

  /** The two kinds of declaration that get a map of their own in a unit. */
  datatype Kind = FunctionKind | ClassKind

  predicate IsDef(n: Node) {
    n.FunctionDef? || n.ClassDef?
  }

  predicate IsDefOf(n: Node, kind: Kind) {
    match kind
    case FunctionKind => n.FunctionDef?
    case ClassKind => n.ClassDef?
  }

  function KindOf(n: Node): (kind: Kind)
    requires IsDef(n)
    ensures IsDefOf(n, kind)
  {
    if n.FunctionDef? then FunctionKind else ClassKind
  }

  /** Two declarations that land under the same key of the same map. */
  predicate SameSlot(a: Node, b: Node) {
    IsDef(a) && IsDef(b) && KindOf(a) == KindOf(b) && a.name == b.name
  }

  /** The names of the declarations of the given kind among the first `k`
      statements of `body`. */
  function Names(body: seq<Node>, k: nat, kind: Kind): set<string>
    requires k <= |body|
  {
    set i | 0 <= i < k && IsDefOf(body[i], kind) :: body[i].name
  }

  /** The line order the parser guarantees for a declaration: it ends no
      earlier than it starts, and every body statement starts no earlier than
      the declaration's own line, ends no earlier than it starts, and ends no
      later than the declaration does. */
  predicate LinesOrdered(n: Node)
    requires IsDef(n)
  {
    && n.lineno <= n.endLineno
    && forall i :: 0 <= i < |n.body| ==>
      n.lineno <= n.body[i].lineno <= n.body[i].endLineno <= n.endLineno
  }

  /** An `Assign` whose first target is a plain name, the only shape that
      `node.targets[0].id` accepts. */
  predicate SimpleAssign(n: Node)
    requires n.Assign?
  {
    |n.targets| > 0 && n.targets[0].Name?
  }
}
