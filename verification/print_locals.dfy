/** The `__printLocals` rewrite rule: a call `__printLocals()` inside a function
    becomes `(console.table || console.log)({ "a": a, "b": b, ... })` listing the
    variables declared before the call, and `__printLocals(f)` passes that object
    through `f` first.
 */
module PrintLocals {
  import opened Ast

  /** The callee name that triggers the rule. */
  const MarkerName := "__printLocals"

  /** The visitor's trigger test: the callee is an identifier spelled exactly like
      the marker. A member callee such as `obj.__printLocals` has no `name`. */
  predicate IsMarker(call: Node)
    requires call.Call?
  {
    call.callee.Identifier? && call.callee.name == MarkerName
  }

  // ---------------------------------------------------------------------------
  // What the collection records

  /** Concatenation of `f` over `ns`, element by element in order. */
  function Gather(ns: seq<Node>, f: Node -> seq<string>): seq<string>
    decreases |ns|
  {
    if ns == [] then [] else Gather(ns[..|ns| - 1], f) + f(ns[|ns| - 1])
  }

  /** The name an `ObjectProperty` visited inside an object pattern pushes: the
      name of its key. */
  function PropertyKey(n: Node): seq<string>
  {
    if n.ObjectProperty? && n.key.Identifier? then [n.key.name] else []
  }

  /** The names a declared pattern contributes: an identifier its own name, an
      object pattern the key of every `ObjectProperty` anywhere below it, any
      other pattern nothing. */
  function BoundNames(target: Node): seq<string>
  {
    if target.Identifier? then [target.name]
    else if target.ObjectPattern? then Gather(Descendants(target), PropertyKey)
    else []
  }

  /** The names a visited node contributes while the collection is running. */
  function DeclaredBy(n: Node): seq<string>
  {
    if n.Declarator? then BoundNames(n.target) else []
  }

  /** The specification of the collection: the names bound by the declarators
      the walk of `fn` enters before the marker, which it reaches at `at`. */
  function ScopeNames(fn: Node, at: nat): seq<string>
    requires at <= |Descendants(fn)|
  {
    Gather(Descendants(fn)[..at], DeclaredBy)
  }

  // ---------------------------------------------------------------------------
  // Collection: the nested traversal with the stop flag

  /** Walks the enclosing function `fn` in the host's visiting order and records
      the names of declarators until the walk enters the marker call. Babel caches
      one path object per tree position, so the test `innerPath == path` is a
      position test: the marker is the node the walk enters at step `at`. */
  method Collect(fn: Node, at: nat) returns (vars: seq<string>)
    requires at < |Descendants(fn)| && Descendants(fn)[at].Call?
    ensures vars == ScopeNames(fn, at)
  {
    var nodes := Descendants(fn);
    vars := [];
    var stop := false;
    var i := 0;
    while i < |nodes|
      invariant 0 <= i <= |nodes|
      invariant stop <==> at < i
      invariant vars == Gather(nodes[..if stop then at else i], DeclaredBy)
    {
      var node := nodes[i];
      assert nodes[..i + 1][..i] == nodes[..i];
      if node.Declarator? {
        if !stop {
          var target := node.target;
          if target.Identifier? {
            vars := vars + [target.name];
          } else if target.ObjectPattern? {
            // the inner `id.traverse` over the pattern, pushing property keys
            var inner := Descendants(target);
            var j := 0;
            ghost var before := vars;
            while j < |inner|
              invariant 0 <= j <= |inner|
              invariant vars == before + Gather(inner[..j], PropertyKey)
            {
              assert inner[..j + 1][..j] == inner[..j];
              var prop := inner[j];
              if prop.ObjectProperty? && prop.key.Identifier? {
                vars := vars + [prop.key.name];
              }
              j := j + 1;
            }
            assert inner[..j] == inner;
          }
        }
      } else if node.Call? {
        if i == at {
          stop := true;
        }
      }
      i := i + 1;
    }
  }

  // ---------------------------------------------------------------------------
  // Synthesis of the replacement

  /** The object-literal entry for one collected name: `"name": name`. */
  function NameProperty(name: string): Node
  {
    ObjectProperty(StringLiteral(name), Identifier(name))
  }

  /** The entries of the synthesized object, one per collected name, in order. */
  function Properties(vars: seq<string>): seq<Node>
  {
    seq(|vars|, i requires 0 <= i < |vars| => NameProperty(vars[i]))
  }

  /** The `forEach` loop that builds the object literal's entries. */
  method BuildProperties(vars: seq<string>) returns (props: seq<Node>)
    ensures |props| == |vars|
    ensures forall i :: 0 <= i < |vars| ==>
              props[i].ObjectProperty? &&
              props[i].key == StringLiteral(vars[i]) && props[i].value == Identifier(vars[i])
  {
    props := [];
    var k := 0;
    while k < |vars|
      invariant 0 <= k <= |vars|
      invariant |props| == k
      invariant forall i :: 0 <= i < k ==> props[i] == NameProperty(vars[i])
    {
      props := props + [NameProperty(vars[k])];
      k := k + 1;
    }
  }

  /** The callee of the replacement: `console.table || console.log`, chosen by
      the transformed program at run time. */
  function ConsoleReporter(): Node
  {
    Logical("||",
      Member(Identifier("console"), Identifier("table")),
      Member(Identifier("console"), Identifier("log")))
  }

  /** The single argument of the replacement: the object passed through the
      marker's argument when there is exactly one, else the object itself. */
  function ReportArgument(obj: Node, markerArgs: seq<Node>): Node
  {
    if |markerArgs| == 1 then Call(markerArgs[0], [obj]) else obj
  }

  /** The replacement call for the collected names and the marker's arguments. */
  function Synthesize(vars: seq<string>, markerArgs: seq<Node>): Node
  {
    Call(ConsoleReporter(), [ReportArgument(ObjectExpression(Properties(vars)), markerArgs)])
  }

  // ---------------------------------------------------------------------------
  // The visitor

  /** What the visitor does to the call expression it was given. */
  datatype Outcome =
    | Unchanged                  // not the marker
    | Removed                    // the marker, with no enclosing function
    | Replaced(replacement: Node)

  /** Where the host says the call sits: `parent` is what `getFunctionParent()`
      returns, and when it is present the call is entered at step `at` of its walk. */
  predicate WellPlaced(call: Node, parent: Option<Node>, at: nat)
  {
    parent.Some? ==> at < |Descendants(parent.value)| && Descendants(parent.value)[at] == call
  }

  /** The specification of one visit of a call expression. */
  function Transform(call: Node, parent: Option<Node>, at: nat): Outcome
    requires call.Call? && WellPlaced(call, parent, at)
  {
    if !IsMarker(call) then Unchanged
    else if parent.None? then Removed
    else Replaced(Synthesize(ScopeNames(parent.value, at), call.args))
  }

  /** The `CallExpression` visitor of the plugin. */
  method VisitCallExpression(call: Node, parent: Option<Node>, at: nat) returns (out: Outcome)
    requires call.Call? && WellPlaced(call, parent, at)
    ensures out == Transform(call, parent, at)
  {
    if !(call.callee.Identifier? && call.callee.name == MarkerName) {
      return Unchanged;
    }
    if parent.None? {
      return Removed;
    }
    var vars := Collect(parent.value, at);
    var props := BuildProperties(vars);
    assert props == Properties(vars);
    var objProps := ObjectExpression(props);
    var argument := if |call.args| == 1 then Call(call.args[0], [objProps]) else objProps;
    out := Replaced(Call(ConsoleReporter(), [argument]));
  }
}
