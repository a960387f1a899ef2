# print-locals: a Dafny model of the `__printLocals` rewrite rule

The repository is a Babel plugin. In JavaScript source, a call written
`__printLocals()` inside a function is replaced at compile time by
`(console.table || console.log)({ "a": a, "b": b, ... })`. The object lists,
in source order, the names bound by the variable declarators that the walk of
the enclosing function enters before the call: an identifier's name, or every
property key below an object pattern. Other patterns (such as
`const [p] = arr`), parameters and function declarations contribute nothing.
`__printLocals(f)` passes that object through `f` first.

This project models the plugin's single `CallExpression` visitor:

- `ast.dfy` (module `Ast`) gives the host's syntax tree a value model, `Node`.
  It also fixes the host's visiting order: depth-first pre-order (`Preorder`,
  `Descendants`). Node kinds the rule never inspects are collapsed into
  `Other(kind, children)`.
- `print_locals.dfy` (module `PrintLocals`) is the rule itself:
  - the marker test `IsMarker`;
  - the collection walk `Collect`, an imperative loop with the `stop` flag,
    and its nested loop over an object pattern;
  - the `forEach` loop `BuildProperties`;
  - the pure construction of the replacement (`Synthesize`);
  - the visitor `VisitCallExpression`, proved equal to its specification
    `Transform`.
- `properties.dfy` (module `PrintLocalsProperties`) proves what the rule
  guarantees. `ReadReport` decodes a replacement back into its filter and its
  list of names, as the test suite's `extractFoundLocalVariables` helper does.
  The synthesized call round-trips through it.
- `scenarios.dfy` (module `Scenarios`) restates the test suite's cases as
  lemmas over concrete trees. Each one is generic in the variable names.

Babel caches one path object per tree position, so the test `innerPath == path`
is a test of position. The model therefore names the marker by the step `at`
at which the walk of the enclosing function enters it
(`Descendants(fn)[at] == call`).

Two behaviours of the code are easy to miss:

- With two or more arguments, the code drops them all and reports the bare
  object (`FilterOf`). `src/index.js:50` sets `filterFunc` only when
  `arguments.length === 1`, and `src/index.js:58` wraps the object only when
  `filterFunc` is set.
- For an object pattern, `src/index.js:27-31` runs a nested traversal that
  visits every `ObjectProperty` anywhere below the pattern and pushes its
  key's name. So `const {a: {b}} = o` reports `a` and `b`, and
  `const {x: y} = o` reports the key `x`, not the bound name `y`. A default
  value such as `{a = {x: 1}}` also reports `x`.

## Model

| member | source | states |
|---|---|---|
| `PrintLocals.VisitCallExpression` | src/index.js:7-61 | The visitor's result is exactly `Transform`: leave a non-marker call alone, remove a marker that has no enclosing function, otherwise replace it with the report built from the names collected before it. |
| `PrintLocals.Collect` | src/index.js:15-39 | The walk with the `stop` flag returns exactly the names bound by the declarators entered before the marker, in visiting order (`ScopeNames`). This includes the keys that the nested walk over an object pattern pushes. |
| `PrintLocals.BuildProperties` | src/index.js:42-47 | One entry per collected name, in the same order. Entry i has string-literal key `vars[i]` and identifier value `vars[i]`. |
| `PrintLocalsProperties.TransformSpec` | src/index.js:8-13 | Only a call whose callee is the identifier `__printLocals` is changed. A marker with no enclosing function is removed and nothing replaces it. Otherwise the replacement decodes to exactly the collected names and the marker's filter. |
| `PrintLocalsProperties.SynthesizeRoundTrip` | src/index.js:49-59 | The replacement is `(console.table \|\| console.log)` applied to one argument. That argument is `filter(obj)` when the marker had exactly one argument, else `obj`. `obj` lists every collected name in order, each as `"name": name`. |
| `PrintLocalsProperties.ReadNamesProperties` | src/__tests__/index.test.js:42-50 | Reading the synthesized entries back the way the test helper does (every entry has a string-literal key equal to its identifier value) gives the original name list. |
| `PrintLocalsProperties.SynthesizeInjective` | src/index.js:42-49 | Different collected name lists give different replacements. |
| `PrintLocalsProperties.ScopeExactly` | src/index.js:16-39 | A name is reported if and only if some declarator entered before the marker binds it. |
| `PrintLocalsProperties.ScopeGrowsByAppending` | src/index.js:17-22 | Before the stop, `vars` only grows by appending. The names collected up to an earlier step are a prefix of those collected up to a later one. |
| `PrintLocalsProperties.DeclarationsAfterMarkerExcluded` | src/index.js:34-37 | All names declared in the function split into the reported names followed by the names declared from the marker on. Those later names are never reported, even when they are in the same block. |
| `PrintLocalsProperties.DeclarationOrder` | src/index.js:23-32 | Two declarators before the marker contribute their names in source order. The names of the declarators between them sit in between. Nothing is merged. |
| `PrintLocalsProperties.RepeatedDeclarationReportedTwice` | src/index.js:25 | An identifier declared twice before the marker appears twice in the report, because there is no deduplication. |
| `PrintLocalsProperties.BoundNamesByShape` | src/index.js:23-32 | An identifier pattern contributes exactly its name. An object pattern contributes exactly the key names of the `ObjectProperty` nodes below it. Any other pattern, such as an array pattern, contributes nothing. |
| `PrintLocalsProperties.FlatObjectPatternKeys` | src/index.js:26-31 | For `{a, b}` or `{a: x, b: y}`, the report lists the keys in order, one per property. |
| `Scenarios.NestedObjectPatternReportsEveryKey` | src/index.js:26-31 | `const {a: {b}} = o` contributes `a` and then `b`. |
| `Scenarios.ReachesOverIfBlocks` | src/__tests__/index.test.js:79-82 | `const a; if (a) { const b; __printLocals(); }` reports `[a, b]` with no filter. |
| `Scenarios.ReachesOverForBlocks` | src/__tests__/index.test.js:84-87 | `const a; for (let i ...) { __printLocals(); }` reports `[a, i]`, including the loop-header declaration. |
| `Scenarios.ReachesOverWhileBlocks` | src/__tests__/index.test.js:89-92 | `const a; while (a < 10) { a++; __printLocals(); }` reports `[a]`. |
| `Scenarios.OnlyDeclaredBeforeTheCall` | src/__tests__/index.test.js:94-97 | `const a; if (a) { __printLocals(); const b; }` reports `[a]`. The later `b` is excluded. |
| `Scenarios.ReportsInAnyFunctionLikeScope` | src/__tests__/index.test.js:54-115 | `const a; __printLocals();` in a function, a class method or an arrow, declared with `const`, `let` or `var`, is replaced by a report of `[a]`. |
| `Scenarios.PassesLocalsThroughTheFilter` | src/__tests__/index.test.js:117-124 | `const a = 1, b = 2; __printLocals(f)` is replaced by a report through the filter `f` of `[a, b]`, for any single argument `f`. |

## Left out

- Plugin wiring (`module.exports`, the plugin name, registering the visitor). This is host glue.
- `getFunctionParent` is host code. `Transform` and `VisitCallExpression` take its answer as the `parent` parameter. Which node it returns, and whether it can be absent for a top-level call, is the host's decision. The model covers both answers, as the code does.
- Path identity: the marker is named by its position `at` in the walk of `parent`. How the host caches paths is not part of this model.
- `path.remove()` and `path.replaceWith()` are host operations. The model returns them as an `Outcome` value and does not edit a surrounding tree.
- Re-visits: one visit of one call expression is modelled. Whether the host later visits the inserted nodes is host scheduling. The inserted outer call has a non-identifier callee. The inserted `filter(obj)` call, however, has the marker's own argument as its callee, so `__printLocals(__printLocals)` would be rewritten again if the host visited it.
- Collect: a property whose key is not an identifier (a string or numeric literal key) pushes `undefined` in the source, and the model records no name for it. What the host's node builders then do with `undefined` is not part of this model.
- Node kinds: every kind the rule never inspects is `Other(kind, children)`, with its children in visiting order. `Kind` names the statement and expression kinds the scenarios use and has a catch-all `OtherKind(typeName)` for the rest. No node's own fields beyond its children are kept (operators, literal values). The `const`/`let`/`var` kind of a declaration is not represented, since the rule never reads it. A function's own name node is not kept as a child. Neither is the key of a class or object method: the host walks that key before the parameters and the body, and a computed key such as `[(() => { const k = 1; return k; })()]` holds declarators that the code reports before the marker. The model has no place for the key, so it reports nothing for it.
- Synthesize: the host's node builders (`t.callExpression`, `t.objectProperty`, ...) check their arguments and throw on a mismatch. The model builds the nodes as plain values that always succeed. For example, in `__printLocals(...fs)` the code passes a spread element as a callee at `src/index.js:58`, and the builder throws, aborting the transform. The model instead returns a replacement that calls the spread element.
- What the generated `console.table`/`console.log` and the user's filter do when the transformed program runs. That is run-time behaviour of the output, not logic of the transform.
- The test harness (babel-core `transform`, jest, `babel-traverse`). Its cases appear as the `Scenarios` lemmas, and its decoding helper appears as `ReadReport`.
