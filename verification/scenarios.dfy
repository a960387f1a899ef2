/** The rule applied to concrete programs: the cases the plugin's test suite
    pins down, and a nested object pattern. Each lemma is generic in the
    variable names; the comment above it gives the source text its tree stands
    for.

    The proofs go level by level. A `...Scope` lemma locates the call in the
    walk of the enclosing function and computes the names gathered before it;
    it holds for any call node placed there. The test case then puts the marker
    in that place and reads the report through `MarkerReport`. */
module Scenarios {
  import opened Ast
  import opened PrintLocals
  import opened PrintLocalsProperties

  function Num(): Node { Other(NumericLiteral, []) }
  function Declare(x: string): Node { Declarator(Identifier(x), Some(Num())) }
  function Const(x: string): Node { Other(VariableDeclaration, [Declare(x)]) }
  function Stmt(e: Node): Node { Other(ExpressionStatement, [e]) }
  function MarkerCall(args: seq<Node>): Node { Call(Identifier(MarkerName), args) }

  /** What one visit of `call` reports, given that it sits in `fn` at step `at`. */
  function ReportIn(fn: Node, call: Node, at: nat): Option<Report>
    requires call.Call? && WellPlaced(call, Some(fn), at)
  {
    match Transform(call, Some(fn), at)
    case Replaced(r) => ReadReport(r)
    case _ => None
  }

  /** The names gathered from the first `k` nodes of `ns`: `ScopeNames` is
      `Before(Descendants(fn), at)`, and the proofs below apply it to the walk
      of each subtree. */
  function Before(ns: seq<Node>, k: nat): seq<string>
    requires k <= |ns|
  {
    Gather(ns[..k], DeclaredBy)
  }

  /** Once the marker's position is known, the visit reports exactly the names
      gathered before it, through the marker's filter. */
  lemma MarkerReport(fn: Node, args: seq<Node>, at: nat)
    requires at < |Descendants(fn)| && Descendants(fn)[at] == MarkerCall(args)
    ensures WellPlaced(MarkerCall(args), Some(fn), at)
    ensures ReportIn(fn, MarkerCall(args), at) == Some(Report(FilterOf(args), ScopeNames(fn, at)))
  {
    TransformSpec(MarkerCall(args), Some(fn), at);
  }

  // ---------------------------------------------------------------------------
  // Moving through one concatenation of the walk

  lemma StepPast(a: seq<Node>, b: seq<Node>, k: nat)
    requires |a| <= k < |a| + |b|
    ensures (a + b)[k] == b[k - |a|]
    ensures Before(a + b, k) == Gather(a, DeclaredBy) + Before(b, k - |a|)
  {
    assert (a + b)[..k] == a + b[..k - |a|];
    GatherConcat(a, b[..k - |a|], DeclaredBy);
  }

  lemma StepWithin(a: seq<Node>, b: seq<Node>, k: nat)
    requires k < |a|
    ensures (a + b)[k] == a[k]
    ensures Before(a + b, k) == Before(a, k)
  {
    assert (a + b)[..k] == a[..k];
  }

  lemma GatherOne(n: Node, f: Node -> seq<string>)
    ensures Gather([n], f) == f(n)
  {
    assert [n][..0] == [];
  }

  /** The walks of siblings: the first one's, then the rest's. */
  lemma AllSplit(ns: seq<Node>)
    requires 0 < |ns|
    ensures PreorderAll(ns) == Preorder(ns[0]) + PreorderAll(ns[1..])
  {
  }

  // ---------------------------------------------------------------------------
  // Walks of whole subtrees: their length and the names they gather

  /** A statement or expression with one child: one more step than the child,
      and the child's names. */
  lemma SingleWalk(n: Node)
    requires n.Other? && |n.children| == 1
    ensures |Preorder(n)| == 1 + |Preorder(n.children[0])|
    ensures Gather(Preorder(n), DeclaredBy) == Gather(Preorder(n.children[0]), DeclaredBy)
  {
    var c := n.children;
    AllSplit(c);
    assert PreorderAll(c[1..]) == [];
    assert Preorder(n) == [n] + Preorder(c[0]);
    GatherConcat([n], Preorder(c[0]), DeclaredBy);
    GatherOne(n, DeclaredBy);
  }

  /** A node with two children: one more step than both, and their names in
      order. */
  lemma PairWalk(n: Node)
    requires n.Other? && |n.children| == 2
    ensures |Preorder(n)| == 1 + |Preorder(n.children[0])| + |Preorder(n.children[1])|
    ensures Gather(Preorder(n), DeclaredBy) ==
            Gather(Preorder(n.children[0]), DeclaredBy) + Gather(Preorder(n.children[1]), DeclaredBy)
  {
    var c := n.children;
    AllSplit(c);
    AllSplit(c[1..]);
    assert c[1..][1..] == [];
    assert Preorder(n) == [n] + (Preorder(c[0]) + Preorder(c[1]));
    GatherConcat([n], Preorder(c[0]) + Preorder(c[1]), DeclaredBy);
    GatherConcat(Preorder(c[0]), Preorder(c[1]), DeclaredBy);
    GatherOne(n, DeclaredBy);
  }

  /** An identifier is one step and declares nothing. */
  lemma IdentifierWalk(x: string)
    ensures |Preorder(Identifier(x))| == 1 && Gather(Preorder(Identifier(x)), DeclaredBy) == []
  {
    PreorderLeaf(Identifier(x));
    GatherOne(Identifier(x), DeclaredBy);
  }

  lemma NumWalk()
    ensures |Preorder(Num())| == 1 && Gather(Preorder(Num()), DeclaredBy) == []
  {
    assert Descendants(Num()) == PreorderAll([]);
    GatherOne(Num(), DeclaredBy);
  }

  /** `x = 1` contributes `x` in three steps. */
  lemma DeclareWalk(x: string)
    ensures |Preorder(Declare(x))| == 3 && Gather(Preorder(Declare(x)), DeclaredBy) == [x]
  {
    var d := Declare(x);
    IdentifierWalk(x);
    NumWalk();
    PreorderLeaf(Identifier(x));
    assert Preorder(d) == [d] + ([Identifier(x)] + Preorder(Num()));
    GatherConcat([d], [Identifier(x)] + Preorder(Num()), DeclaredBy);
    GatherConcat([Identifier(x)], Preorder(Num()), DeclaredBy);
    GatherOne(d, DeclaredBy);
  }

  /** `const x = 1;` contributes `x` in four steps. */
  lemma ConstWalk(x: string)
    ensures |Preorder(Const(x))| == 4 && Gather(Preorder(Const(x)), DeclaredBy) == [x]
  {
    DeclareWalk(x);
    SingleWalk(Const(x));
  }

  /** `x < 10` declares nothing, in three steps. */
  lemma CompareWalk(x: string)
    ensures var e := Other(BinaryExpression, [Identifier(x), Num()]);
            |Preorder(e)| == 3 && Gather(Preorder(e), DeclaredBy) == []
  {
    IdentifierWalk(x);
    NumWalk();
    PairWalk(Other(BinaryExpression, [Identifier(x), Num()]));
  }

  /** `x++` declares nothing, in two steps; as a statement, in three. */
  lemma IncrementWalk(x: string)
    ensures var e := Other(UpdateExpression, [Identifier(x)]);
            |Preorder(e)| == 2 && Gather(Preorder(e), DeclaredBy) == [] &&
            |Preorder(Stmt(e))| == 3 && Gather(Preorder(Stmt(e)), DeclaredBy) == []
  {
    var e := Other(UpdateExpression, [Identifier(x)]);
    IdentifierWalk(x);
    SingleWalk(e);
    SingleWalk(Stmt(e));
  }

  /** The statement `call;`: the call is entered one step in, with nothing
      gathered yet. */
  lemma StmtWalk(call: Node)
    ensures 1 < |Preorder(Stmt(call))|
    ensures Preorder(Stmt(call))[1] == call
    ensures Before(Preorder(Stmt(call)), 1) == []
  {
    AllSplit([call]);
    StepPast([Stmt(call)], PreorderAll([call]), 1);
    GatherOne(Stmt(call), DeclaredBy);
  }

  // ---------------------------------------------------------------------------
  // Entering a node and reaching a step of one child's walk

  /** Entering a statement, block or loop `n` and reaching step `k` of its
      first child's walk: `n` itself comes first and declares nothing. */
  lemma EnterFirst(n: Node, k: nat)
    requires n.Other? && 0 < |n.children| && k < |Preorder(n.children[0])|
    ensures k + 1 < |Preorder(n)|
    ensures Preorder(n)[k + 1] == Preorder(n.children[0])[k]
    ensures Before(Preorder(n), k + 1) == Before(Preorder(n.children[0]), k)
  {
    var c := n.children;
    AllSplit(c);
    StepPast([n], PreorderAll(c), k + 1);
    StepWithin(Preorder(c[0]), PreorderAll(c[1..]), k);
    GatherOne(n, DeclaredBy);
  }

  /** As `EnterFirst`, for step `k` of the walk of the second child, after
      everything the first one declares. */
  lemma EnterSecond(n: Node, k: nat)
    requires n.Other? && 1 < |n.children|
    requires |Preorder(n.children[0])| <= k < |Preorder(n.children[0])| + |Preorder(n.children[1])|
    ensures k + 1 < |Preorder(n)|
    ensures Preorder(n)[k + 1] == Preorder(n.children[1])[k - |Preorder(n.children[0])|]
    ensures Before(Preorder(n), k + 1) ==
            Gather(Preorder(n.children[0]), DeclaredBy) + Before(Preorder(n.children[1]), k - |Preorder(n.children[0])|)
  {
    var c := n.children;
    var d := c[1..];
    assert d[0] == c[1];
    AllSplit(c);
    AllSplit(d);
    StepPast([n], PreorderAll(c), k + 1);
    StepPast(Preorder(c[0]), PreorderAll(d), k);
    StepWithin(Preorder(d[0]), PreorderAll(d[1..]), k - |Preorder(c[0])|);
    GatherOne(n, DeclaredBy);
  }

  /** As `EnterSecond`, for the fourth child, after everything the first three
      declare (a `for` statement's initialiser, test and update before its body). */
  lemma EnterFourth(n: Node, k: nat)
    requires n.Other? && 3 < |n.children|
    requires |Preorder(n.children[0])| + |Preorder(n.children[1])| + |Preorder(n.children[2])| <= k
    requires k < |Preorder(n.children[0])| + |Preorder(n.children[1])| + |Preorder(n.children[2])| + |Preorder(n.children[3])|
    ensures k + 1 < |Preorder(n)|
    ensures Preorder(n)[k + 1] ==
            Preorder(n.children[3])[k - |Preorder(n.children[0])| - |Preorder(n.children[1])| - |Preorder(n.children[2])|]
    ensures Before(Preorder(n), k + 1) ==
            Gather(Preorder(n.children[0]), DeclaredBy) + (Gather(Preorder(n.children[1]), DeclaredBy) +
            (Gather(Preorder(n.children[2]), DeclaredBy) +
             Before(Preorder(n.children[3]), k - |Preorder(n.children[0])| - |Preorder(n.children[1])| - |Preorder(n.children[2])|)))
  {
    var c := n.children;
    var c1, c2, c3 := c[1..], c[2..], c[3..];
    assert c1[0] == c[1] && c1[1..] == c2;
    assert c2[0] == c[2] && c2[1..] == c3;
    assert c3[0] == c[3];
    var k1 := k - |Preorder(c[0])|;
    var k2 := k1 - |Preorder(c[1])|;
    var k3 := k2 - |Preorder(c[2])|;
    AllSplit(c);
    AllSplit(c1);
    AllSplit(c2);
    AllSplit(c3);
    StepPast([n], PreorderAll(c), k + 1);
    StepPast(Preorder(c[0]), PreorderAll(c1), k);
    StepPast(Preorder(c[1]), PreorderAll(c2), k1);
    StepPast(Preorder(c[2]), PreorderAll(c3), k2);
    StepWithin(Preorder(c[3]), PreorderAll(c3[1..]), k3);
    GatherOne(n, DeclaredBy);
  }

  /** The walk of a function `function () { s; t }` reaching step `k` of the
      walk of `t`, after everything `s` declares. */
  lemma EnterBody(s: Node, t: Node, k: nat)
    requires |Preorder(s)| <= k < |Preorder(s)| + |Preorder(t)|
    ensures k < |Descendants(Function([], [s, t]))|
    ensures Descendants(Function([], [s, t]))[k] == Preorder(t)[k - |Preorder(s)|]
    ensures ScopeNames(Function([], [s, t]), k) ==
            Gather(Preorder(s), DeclaredBy) + Before(Preorder(t), k - |Preorder(s)|)
  {
    AllSplit([s, t]);
    AllSplit([t]);
    assert [s, t][1..] == [t] && [t][1..] == [];
    assert Descendants(Function([], [s, t])) == Preorder(s) + Preorder(t);
    StepPast(Preorder(s), Preorder(t), k);
  }

  // ---------------------------------------------------------------------------
  // The test suite's cases

  function IfProgram(a: string, b: string, call: Node): Node
  {
    Function([], [Const(a),
      Other(IfStatement, [Identifier(a),
        Other(BlockStatement, [Const(b), Stmt(call)])])])
  }

  lemma IfScope(a: string, b: string, call: Node)
    ensures 12 < |Descendants(IfProgram(a, b, call))|
    ensures Descendants(IfProgram(a, b, call))[12] == call
    ensures ScopeNames(IfProgram(a, b, call), 12) == [a, b]
  {
    var block := Other(BlockStatement, [Const(b), Stmt(call)]);
    var ifs := Other(IfStatement, [Identifier(a), block]);
    ConstWalk(a);
    ConstWalk(b);
    IdentifierWalk(a);
    StmtWalk(call);
    // the block: `b`, then the call
    EnterSecond(block, 5);
    assert Preorder(block)[6] == call && Before(Preorder(block), 6) == [b];
    // the if statement: its test, then the block
    EnterSecond(ifs, 7);
    assert Preorder(ifs)[8] == call && Before(Preorder(ifs), 8) == [b];
    // the function body: `a`, then the if statement
    EnterBody(Const(a), ifs, 12);
  }

  // function test() { const a = 1; if (a) { const b = 0; __printLocals(); } }
  lemma ReachesOverIfBlocks(a: string, b: string)
    ensures WellPlaced(MarkerCall([]), Some(IfProgram(a, b, MarkerCall([]))), 12)
    ensures ReportIn(IfProgram(a, b, MarkerCall([])), MarkerCall([]), 12) == Some(Report(None, [a, b]))
  {
    IfScope(a, b, MarkerCall([]));
    MarkerReport(IfProgram(a, b, MarkerCall([])), [], 12);
  }

  function ForProgram(a: string, i: string, call: Node): Node
  {
    Function([], [Const(a),
      Other(ForStatement, [Const(i),
        Other(BinaryExpression, [Identifier(i), Num()]),
        Other(UpdateExpression, [Identifier(i)]),
        Other(BlockStatement, [Stmt(call)])])])
  }

  lemma ForScope(a: string, i: string, call: Node)
    ensures 16 < |Descendants(ForProgram(a, i, call))|
    ensures Descendants(ForProgram(a, i, call))[16] == call
    ensures ScopeNames(ForProgram(a, i, call), 16) == [a, i]
  {
    var body := Other(BlockStatement, [Stmt(call)]);
    var loop := Other(ForStatement, [Const(i),
                  Other(BinaryExpression, [Identifier(i), Num()]),
                  Other(UpdateExpression, [Identifier(i)]), body]);
    ConstWalk(a);
    ConstWalk(i);
    CompareWalk(i);
    IncrementWalk(i);
    StmtWalk(call);
    // the loop body
    EnterFirst(body, 1);
    assert Preorder(body)[2] == call && Before(Preorder(body), 2) == [];
    // the for statement: header declaration, test and update come first
    EnterFourth(loop, 11);
    assert Preorder(loop)[12] == call && Before(Preorder(loop), 12) == [i];
    // the function body: `a`, then the loop
    EnterBody(Const(a), loop, 16);
  }

  // function test() { const a = 1; for (let i = 0; i < 10; i++) { __printLocals(); } }
  lemma ReachesOverForBlocks(a: string, i: string)
    ensures WellPlaced(MarkerCall([]), Some(ForProgram(a, i, MarkerCall([]))), 16)
    ensures ReportIn(ForProgram(a, i, MarkerCall([])), MarkerCall([]), 16) == Some(Report(None, [a, i]))
  {
    ForScope(a, i, MarkerCall([]));
    MarkerReport(ForProgram(a, i, MarkerCall([])), [], 16);
  }

  function WhileProgram(a: string, call: Node): Node
  {
    Function([], [Const(a),
      Other(WhileStatement, [
        Other(BinaryExpression, [Identifier(a), Num()]),
        Other(BlockStatement, [Stmt(Other(UpdateExpression, [Identifier(a)])), Stmt(call)])])])
  }

  lemma WhileScope(a: string, call: Node)
    ensures 13 < |Descendants(WhileProgram(a, call))|
    ensures Descendants(WhileProgram(a, call))[13] == call
    ensures ScopeNames(WhileProgram(a, call), 13) == [a]
  {
    var update := Other(UpdateExpression, [Identifier(a)]);
    var body := Other(BlockStatement, [Stmt(update), Stmt(call)]);
    var loop := Other(WhileStatement, [Other(BinaryExpression, [Identifier(a), Num()]), body]);
    ConstWalk(a);
    CompareWalk(a);
    IncrementWalk(a);
    StmtWalk(call);
    // the loop body: `a++;`, then the call
    EnterSecond(body, 4);
    assert Preorder(body)[5] == call && Before(Preorder(body), 5) == [];
    // the while statement: its test, then the body
    EnterSecond(loop, 8);
    assert Preorder(loop)[9] == call && Before(Preorder(loop), 9) == [];
    // the function body: `a`, then the loop
    EnterBody(Const(a), loop, 13);
  }

  // function test() { const a = 1; while (a < 10) { a++; __printLocals(); } }
  lemma ReachesOverWhileBlocks(a: string)
    ensures WellPlaced(MarkerCall([]), Some(WhileProgram(a, MarkerCall([]))), 13)
    ensures ReportIn(WhileProgram(a, MarkerCall([])), MarkerCall([]), 13) == Some(Report(None, [a]))
  {
    WhileScope(a, MarkerCall([]));
    MarkerReport(WhileProgram(a, MarkerCall([])), [], 13);
  }

  function LaterProgram(a: string, b: string, call: Node): Node
  {
    Function([], [Const(a),
      Other(IfStatement, [Identifier(a),
        Other(BlockStatement, [Stmt(call), Const(b)])])])
  }

  lemma LaterScope(a: string, b: string, call: Node)
    ensures 8 < |Descendants(LaterProgram(a, b, call))|
    ensures Descendants(LaterProgram(a, b, call))[8] == call
    ensures ScopeNames(LaterProgram(a, b, call), 8) == [a]
  {
    var block := Other(BlockStatement, [Stmt(call), Const(b)]);
    var ifs := Other(IfStatement, [Identifier(a), block]);
    ConstWalk(a);
    IdentifierWalk(a);
    StmtWalk(call);
    // the block: the call, then `b`
    EnterFirst(block, 1);
    assert Preorder(block)[2] == call && Before(Preorder(block), 2) == [];
    // the if statement: its test, then the block
    EnterSecond(ifs, 3);
    assert Preorder(ifs)[4] == call && Before(Preorder(ifs), 4) == [];
    // the function body: `a`, then the if statement
    EnterBody(Const(a), ifs, 8);
  }

  // function test() { const a = 1; if (a) { __printLocals(); const b = 0; } }
  lemma OnlyDeclaredBeforeTheCall(a: string, b: string)
    ensures WellPlaced(MarkerCall([]), Some(LaterProgram(a, b, MarkerCall([]))), 8)
    ensures ReportIn(LaterProgram(a, b, MarkerCall([])), MarkerCall([]), 8) == Some(Report(None, [a]))
  {
    LaterScope(a, b, MarkerCall([]));
    MarkerReport(LaterProgram(a, b, MarkerCall([])), [], 8);
  }

  // function test() { const a = 1; __printLocals(); }, and the same body as a
  // class method `foo() { ... }` or an arrow `() => { ... }`, with `let` or
  // `var` in place of `const`: the host hands each over as the same
  // function-like node, and the declaration keyword is never read.
  lemma ReportsInAnyFunctionLikeScope(a: string)
    ensures var fn := Function([], [Const(a), Stmt(MarkerCall([]))]);
            WellPlaced(MarkerCall([]), Some(fn), 5) &&
            ReportIn(fn, MarkerCall([]), 5) == Some(Report(None, [a]))
  {
    var call := MarkerCall([]);
    ConstWalk(a);
    StmtWalk(call);
    EnterBody(Const(a), Stmt(call), 5);
    assert ScopeNames(Function([], [Const(a), Stmt(call)]), 5) == [a];
    MarkerReport(Function([], [Const(a), Stmt(call)]), [], 5);
  }

  function FilterProgram(a: string, b: string, call: Node): Node
  {
    Function([], [Other(VariableDeclaration, [Declare(a), Declare(b)]), Stmt(call)])
  }

  lemma FilterScope(a: string, b: string, call: Node)
    ensures 8 < |Descendants(FilterProgram(a, b, call))|
    ensures Descendants(FilterProgram(a, b, call))[8] == call
    ensures ScopeNames(FilterProgram(a, b, call), 8) == [a, b]
  {
    var decl := Other(VariableDeclaration, [Declare(a), Declare(b)]);
    DeclareWalk(a);
    DeclareWalk(b);
    StmtWalk(call);
    // `const a = 1, b = 2;` contributes `a` then `b` in seven steps
    PairWalk(decl);
    // the function body: the declaration, then the call
    EnterBody(decl, Stmt(call), 8);
  }

  // function test() { const a = 1, b = 2; __printLocals((props) => Object.keys(props)); }
  // with any single argument `filter` in place of the arrow function
  lemma PassesLocalsThroughTheFilter(a: string, b: string, filter: Node)
    ensures WellPlaced(MarkerCall([filter]), Some(FilterProgram(a, b, MarkerCall([filter]))), 8)
    ensures ReportIn(FilterProgram(a, b, MarkerCall([filter])), MarkerCall([filter]), 8)
            == Some(Report(Some(filter), [a, b]))
  {
    FilterScope(a, b, MarkerCall([filter]));
    MarkerReport(FilterProgram(a, b, MarkerCall([filter])), [filter], 8);
  }

  // ---------------------------------------------------------------------------
  // Pattern shapes

  // const [p] = arr;  an array pattern binds `p`, but the code reports nothing
  lemma ArrayPatternReportsNothing(p: string)
    ensures BoundNames(Other(ArrayPattern, [Identifier(p)])) == []
    ensures DeclaredBy(Declarator(Other(ArrayPattern, [Identifier(p)]), None)) == []
  {
  }

  // const { a: { b } } = o;  reports the outer key and then the inner one
  lemma NestedObjectPatternReportsEveryKey(a: string, b: string)
    ensures BoundNames(ObjectPattern([ObjectProperty(Identifier(a),
              ObjectPattern([ObjectProperty(Identifier(b), Identifier(b))]))])) == [a, b]
  {
    var inner := ObjectProperty(Identifier(b), Identifier(b));
    var innerPattern := ObjectPattern([inner]);
    var outer := ObjectProperty(Identifier(a), innerPattern);
    FlatObjectPatternKeys([inner]);
    assert BoundNames(innerPattern) == [b];
    AllSplit([outer]);
    assert [outer][1..] == [];
    PreorderLeaf(Identifier(a));
    assert Preorder(outer) == [outer] + ([Identifier(a)] + Preorder(innerPattern));
    assert Descendants(ObjectPattern([outer])) ==
           [outer] + ([Identifier(a)] + ([innerPattern] + Descendants(innerPattern)));
    GatherConcat([outer], [Identifier(a)] + ([innerPattern] + Descendants(innerPattern)), PropertyKey);
    GatherConcat([Identifier(a)], [innerPattern] + Descendants(innerPattern), PropertyKey);
    GatherConcat([innerPattern], Descendants(innerPattern), PropertyKey);
    GatherOne(outer, PropertyKey);
    GatherOne(Identifier(a), PropertyKey);
    GatherOne(innerPattern, PropertyKey);
  }
}
