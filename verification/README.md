# docugen splitter, modelled in Dafny

This project models `split.py` from docugen. The splitter takes one parsed Python module and turns it into a tree of units. A `def` or `class` gets a unit when it sits directly in the module's body or directly in the body of another unit's declaration. Declarations nested in `if`, `for`, `try`, `with` and other statements get none, and of two same-kind declarations with the same name in one body only the later one keeps its unit. Every unit has four parts:

- `source`: the unit's lines of the file, cut by `lineno` and the `end_lineno` of its last body statement, then joined with `"\n"`.
- `functions`: a map from name to the unit of each `def` directly in the unit's body.
- `classes`: the same map for each `class` directly in the body.
- `variables`: a list of names. For a function these are the names in `args.args`, its positional-or-keyword parameters. For a class the code means its annotated fields, but reading them raises (see below), so every class unit has an empty list. For the module they are the first target of each top-level `Assign`.

The whole file gets the same three maps and lists, but no `source`.

The model has six modules:

- `Syntax` (`syntax.dfy`) stands in for the tree that `ast.parse` produces. A `Node` is a `FunctionDef`, `ClassDef`, `Assign`, `AnnAssign` or `Other`. Every node carries its first and last line. Declarations carry their name and body, and a function also carries the parameter names of `args.args`. `Other` covers every remaining statement (`if`, `for`, `with`, `async def`, ...), together with the statements nested in it.
- `Lines` (`lines.dfy`) holds the line handling: splitting the text at `'\n'`, Python's `a[start:stop]`, `get_lines` and `"\n".join`.
- `Splitlines` (`splitlines.dfy`) holds `str.splitlines()` with all of Python's line boundaries. It shows where the code's `get_lines` departs from the parser's line numbers (see Findings).
- `Split` (`split.dfy`) holds `parse_function`, `parse_class`, the loop over a body, the two variable comprehensions and `parse_file` after the parse. These are mutually recursive pure functions returning `Result<T>`. Where the Python code raises an exception, the function returns `Err` carrying that exception and the line of the statement that raised it. Pieces are computed in the code's order. For a file that order is functions, then classes, then variables (`SplitFacts.ParseFileErrorOrder`). For a class, the annotated-field scan comes before the walk over its body. Within one body the declarations are visited in order.
- `SplitFacts` (`split_facts.dfy`) states the properties against independent descriptions:
  - `Raises`, a declarative account of when the code raises;
  - set comprehensions naming the direct declarations;
  - text occurrence in the file;
  - a concatenation law for the module variables.
- `Scenario` (`scenario.dfy`) works out, by proof, the result the model gives for a seven-line module, once with an annotated class field and once without it. It does the same for a two-statement module whose rejected assignment comes before a class field.

Every operation is a total function of the node list and the text. The result is therefore deterministic: the same input always gives the same tree.

## Behaviour of the code that the model keeps

- The file-level result has no `source` entry (`FileTree`): `parse_file` only sets `functions`, `classes` and `variables`, so the file's own text is not part of the result.
- split.py line 86 reads `.targets` on `ast.AnnAssign`, which only has `.target`. A class with an annotated field directly in its body therefore raises `AttributeError`, and so does every unit and file containing that class. Class variables are never produced. The evident intent, `stmt.target.id`, would give `variables = ["y"]` for `class C: y: int`. The code as written fails instead (`Scenario.FieldMakesFileFail`), and the model keeps that behaviour.
- Top-level assignments are read as `node.targets[0].id`:
  - `x = y = 1` contributes `x` only.
  - An assignment whose first target is an attribute, subscript, tuple or other non-name raises; it is not skipped.
  - An `Assign` with no targets would raise `IndexError`.
- A decorated `def` or `class` is processed like any other. Its `lineno` is the line of `def` or `class`, so the decorator lines are not part of its `source`.
- Unit text is not dedented. A method's source keeps its indentation (`"    def g(self):\n        pass"` in `Scenario.TreeWithoutField`).

## Model

| member | source | states |
|---|---|---|
| Lines.NewlineIndex | split.py:98 | The returned position is the first '\n' of the text, or its length when there is none. |
| Lines.SplitLines | split.py:98 | The lines as the parser numbers them (the corrected split, see Findings). No line contains a newline, and the text has no lines exactly when it is empty. `JoinSplit`, `SplitJoin` and `SplitLinesFinalBreak` tie it to `"\n".join`. |
| Lines.Slice | split.py:99 | Python's `a[start:stop]` has at most `len(a)` elements. For non-negative bounds its length is `max(0, min(stop, len) - start)` and its k-th element is `a[start + k]`. The helper `SliceBound` normalises each bound. |
| Lines.SliceFromEnd | split.py:99 | A negative bound `-len(a) <= i < 0` means `i + len(a)`. A `start` before `-len(a)` means 0, and a `stop` before `-len(a)` gives the empty slice. |
| Lines.GetLines | split.py:97-99 | For a start line `s >= 1` and end line `e >= 0`, the result has `max(0, min(e, |lines|) - (s-1))` elements and its k-th element is line `s + k` of the file: a contiguous run, in order, with nothing added. |
| Lines.JoinLines | split.py:60 | `"\n".join` of no lines is the empty text, and otherwise the text starts with the first line. `JoinSplit` and `SplitJoin` make it the inverse of the split. |
| Lines.JoinLinesLast | split.py:60 | The joined text ends with the last line. |
| Lines.JoinSplit | split.py:98 | Joining the split lines with "\n" rebuilds the text, minus its final newline if it has one. A final line break opens no line of its own. |
| Lines.SplitLinesFinalBreak | split.py:98 | A non-empty text not ending in a newline has the same lines with one newline appended: `"a\n".splitlines() == "a".splitlines()`. |
| Lines.SplitJoin | split.py:60 | Splitting joined lines gives back the lines, if no line holds a newline and the last line is not empty. |
| Split.EndLine | split.py:59 | A unit's last line is the `end_lineno` of the last statement of its body, or its own `lineno` when the body is empty. Under the parser's line order (`LinesOrdered`) it lies between the declaration's `lineno` and `end_lineno`, so a unit's range is never empty. |
| Split.UnitSource | split.py:58-60 | When the unit's line range lies in the file, its source starts with the `def` or `class` line. |
| Split.ParseFunction | split.py:57-75 | Failures are always the annotated-field error. On success, `source` is the function's lines joined with "\n" and `variables` are the names of `args.args` in order, `self` included. The two maps' keys are exactly the names of the `def`s and `class`es directly in its body. |
| Split.ParseClass | split.py:77-95 | Failures are always the annotated-field error. On success, the body has no annotated field, `variables` is empty and `source` is the class's lines joined. The two maps' keys are exactly the names of the direct `def`s and `class`es. |
| Split.ParseChildren | split.py:69-73 | After walking the first k body statements, the keys of the two maps are exactly the names of the direct declarations of each kind among them. Other statements, and declarations nested inside them, add nothing. |
| Split.ClassVariables | split.py:86 | Fails exactly when the body holds an `AnnAssign`, with the line of the first one. Otherwise the list is empty. |
| Split.ModuleVariables | split.py:52 | Succeeds exactly when every `Assign` has a plain name as its first target. Otherwise it fails on the first one that does not, with `IndexError` for no targets and `AttributeError` for a non-name. It yields at most one name per statement. |
| Split.CollectDefs | split.py:44-49 | The keys of a top-level dict comprehension are exactly the names of the top-level declarations of its kind. |
| Split.ParseFile | split.py:40-55 | On success, the file's map keys are exactly the top-level function and class names. Its variables are the module-variable list. |
| SplitFacts.DefFailsIffRaises | split.py:86-93 | A function or class unit fails exactly when an annotated class field lies below it, reached through directly nested declarations only. |
| SplitFacts.ChildrenFailIffRaises | split.py:89-93 | Walking a body fails exactly when one of its direct declarations raises. |
| SplitFacts.CollectFailsIffRaises | split.py:45 | A top-level comprehension fails exactly when one of the declarations it visits raises. |
| SplitFacts.ParseFileFailsIff | split.py:40-55 | The file fails exactly when a declaration at any depth raises or a top-level `Assign` has a first target that is not a plain name. There is no partial result. |
| SplitFacts.ParseFileErrorOrder | split.py:44-52 | When a declaration at any depth raises, the file's error is the annotated-field error, even if a rejected assignment comes earlier in the file. Otherwise a failing file reports the first rejected assignment. |
| SplitFacts.ChildrenLastWins | split.py:71 | The map entry for a name is the unit of the last declaration of that kind and name in the body: the last write wins. |
| SplitFacts.CollectLastWins | split.py:49 | The file's map entry for a name is the unit of the last top-level declaration of that kind and name. |
| SplitFacts.UnitSourceLines | split.py:58-60 | Splitting a unit's source gives exactly the file lines from its `lineno` to the `end_lineno` of its last statement (clipped to the file). This holds whenever the last of those lines is not empty. |
| SplitFacts.UnitSourceEnds | split.py:58-60 | When the unit's line range lies in the file, its source ends with the last line of its last statement. |
| SplitFacts.EmptyBodySource | split.py:79-80 | A declaration with an empty body has its own declaration line as source, or the empty text past the end of the file. |
| SplitFacts.UnitSourceInText | split.py:78-80 | Every unit's source occurs in the file's text as one contiguous piece. |
| SplitFacts.ModuleVariablesAppend | split.py:52 | The module variables of two consecutive runs of statements are those of the first followed by those of the second. If the first run raises, its error wins. |
| SplitFacts.ModuleVariablesOfOne | split.py:52 | An `Assign` with a plain first target contributes that name. One without raises. Any other statement, `AnnAssign` included, contributes nothing. |
| Scenario.FieldMakesFileFail | split.py:86 | A module whose class has `y: int` on line 5 makes the whole file fail with the error on line 5, whatever the text. |
| Scenario.FieldBeatsEarlierAssign | split.py:44-52 | `x.a = 1` on line 1 and a class with `y: int` on line 3: the file's error is the field's, on line 3. |
| Scenario.TreeWithoutField | split.py:36-95 | Without the field, the file decomposes into `f` (its own two lines, variables `a, b`), and `C`, whose only child is `g` (variables `self`). The module variable is `x`. |
| Splitlines.SplitLinesAsWritten | split.py:98 | `str.splitlines()`: no line holds any of Python's line boundaries, and the text has no lines exactly when it is empty. `AsWrittenIsNormalizedSplit` fixes the lines exactly. |
| Splitlines.Normalize | split.py:98 | Every line boundary becomes `'\n'`, and `"\r\n"` becomes a single one. Afterwards `'\n'` is the only boundary, and the text is no longer. |
| Splitlines.AsWrittenIsNormalizedSplit | split.py:98 | `str.splitlines()` is the `'\n'` split of the normalised text. With `Lines.JoinSplit`, joining its lines gives back the normalised text, minus a final newline. |
| Splitlines.GetLinesAsWritten | split.py:97-99 | `get_lines` as written: the k-th element is the `splitlines` line `start + k`, with the length of the clipped range. |
| Splitlines.AsWrittenAgreesOnNewlineText | split.py:98 | When `'\n'` is the text's only line boundary, `str.splitlines()` and the parser's split give the same lines. |
| Splitlines.FormFeedShiftsLines | split.py:97-99 | After a form feed alone on line 1, `get_lines` for lines 2 to 3 yields `"\n" + a` where the parser's lines give `a + "\n" + b`. |
| Splitlines.FormFeedExample | split.py:97-99 | `"\f\ndef b():\n    pass"` is a form-feed text with `a = "def b():"` and `b = "    pass"`. By `FormFeedShiftsLines`, the code gives `def b` the source `"\ndef b():"` where the parser's line numbers call for `"def b():\n    pass"`. |

## Left out

- `build_tree` (split.py:12-28): walks directories with `os.listdir`, `isdir` and `isfile`. This is file-system I/O.
- Reading the file and calling `ast.parse` (split.py:37-41). The model takes the text and the parsed top-level statements as inputs. A `SyntaxError` from the parser is not modelled.
- `\r\n` and `\r` in the file: reading in text mode turns them into `'\n'` before anything else sees the text. The model takes the text after that translation.
- The JSON dump, the `print` and the example run on import (split.py:101-104). These are output and glue.
- `async def`: the code only tests `isinstance(node, ast.FunctionDef)`, so an `async def` is an `Other` node here, ignored as in the code.
- Parameters outside `args.args`: positional-only ones (before `/`), `*args`, keyword-only ones and `**kwargs`. The code reads `args.args` only, so `def f(a, /, b)` gives `["b"]`, and the model's `args` holds exactly that list.
- Python's recursion limit (`RecursionError` on very deep nesting): the model's recursion is unbounded.
- Exception messages: an error records the kind of exception and the line of the statement, not Python's message text.
- Dict insertion order: Python keeps keys in insertion order, and the JSON output shows it. Dafny maps are unordered, so only the key set and the values are modelled.
- SplitFacts.UnitSourceLines: needs the last line of the unit's range to be non-empty, because splitting drops a trailing empty line. Real statements never end on an empty line.
- SplitFacts.UnitSourceLines: proved for the parser's line numbering, which the model uses. The code's `splitlines` agrees with it only on text whose only line boundary is `'\n'` (see Findings).
- SplitFacts.UnitSourceInText: proved for the parser's line numbering too. On text with a form feed or another boundary besides `'\n'`, the code's own source need not be one contiguous piece of the text.

## Findings

| source | as written | input that shows it | evidently intended | confidence | as-written member | corrected member |
|---|---|---|---|---|---|---|
| split.py:97-99 | `get_lines` cuts the text with `str.splitlines()`. That also ends a line at `\x0b`, `\x0c`, `\x1c`-`\x1e`, `\x85`, `\u2028` and `\u2029`. The parser numbers lines at `'\n'` only, so each such character shifts every later line by one. | `"\f\ndef b():\n    pass"`: `def b` is on lines 2-3, and its source comes out as `"\ndef b():"`. | Cut the text where the parser counts lines, at `'\n'`, giving `"def b():\n    pass"`. | not executed; high (form feeds in source files and `\u2028` in comments occur) | Splitlines.FormFeedShiftsLines | Lines.GetLines |

The rest of the model (`Split.UnitSource` and every property of `SplitFacts`) uses the corrected `Lines.GetLines`. `Splitlines.AsWrittenAgreesOnNewlineText` shows the two versions agree on every text whose only line boundary is `'\n'`.
