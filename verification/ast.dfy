/** The part of the host syntax tree that the print-locals rewrite rule looks at.

    The rule runs inside a Babel plugin: it receives syntax-tree nodes, asks the
    host for the enclosing function and walks that function with a nested visitor.
    This module gives those nodes a value model and fixes the order in which the
    host's traversal enters them: depth-first pre-order, children in the order of
    the node kind's visitor keys (callee before arguments, declared pattern before
    initialiser, object before property, key before value).
 */
module Ast {

  datatype Option<+T> = None | Some(value: T)

  /** The kind of a node the rule never inspects. The rule treats them all
      alike; the kind is kept for readability. */
  datatype Kind =
    | VariableDeclaration | ExpressionStatement | BlockStatement
    | IfStatement | ForStatement | WhileStatement
    | BinaryExpression | UpdateExpression | NumericLiteral | ArrayPattern
    | OtherKind(typeName: string)

  /** One syntax-tree node. Node kinds the rule never inspects are `Other`, with
      their children in traversal order (statements, blocks, `if`/`for`/`while`,
      literals, array patterns, ...). */
  datatype Node =
    | Identifier(name: string)
    | StringLiteral(text: string)
      /** Any function-like construct: declaration, expression, arrow, class method.
          Only its parameters and body are kept; a method's key is not. */
    | Function(params: seq<Node>, body: seq<Node>)
      /** `VariableDeclarator`: the pattern it declares (`id`) and its initialiser. */
    | Declarator(target: Node, init: Option<Node>)
    | ObjectPattern(patternProps: seq<Node>)
    | ObjectExpression(props: seq<Node>)
      /** `ObjectProperty`, found both in object patterns and object literals. */
    | ObjectProperty(key: Node, value: Node)
    | Call(callee: Node, args: seq<Node>)
    | Member(object: Node, property: Node)
    | Logical(operator: string, left: Node, right: Node)
    | Other(kind: Kind, children: seq<Node>)

  /** The node itself followed by everything below it, in the host's visiting order. */
  function Preorder(n: Node): (r: seq<Node>)
    decreases n, 1
    ensures |r| > 0 && r[0] == n
  {
    [n] + Descendants(n)
  }

  /** Everything strictly below `n`, in the host's visiting order; this is what
      `path.traverse(visitor)` enters (it does not visit `n` itself). */
  function Descendants(n: Node): seq<Node>
    decreases n, 0
  {
    match n
    case Identifier(_) => []
    case StringLiteral(_) => []
    case Function(params, body) => PreorderAll(params) + PreorderAll(body)
    case Declarator(target, init) =>
      Preorder(target) + (match init case None => [] case Some(e) => Preorder(e))
    case ObjectPattern(props) => PreorderAll(props)
    case ObjectExpression(props) => PreorderAll(props)
    case ObjectProperty(key, value) => Preorder(key) + Preorder(value)
    case Call(callee, args) => Preorder(callee) + PreorderAll(args)
    case Member(obj, prop) => Preorder(obj) + Preorder(prop)
    case Logical(_, left, right) => Preorder(left) + Preorder(right)
    case Other(_, children) => PreorderAll(children)
  }

  /** The pre-order walks of a list of sibling nodes, one after the other. */
  function PreorderAll(ns: seq<Node>): seq<Node>
    decreases ns, 2
  {
    if ns == [] then [] else Preorder(ns[0]) + PreorderAll(ns[1..])
  }

  /** An identifier or a string literal has nothing below it. */
  lemma PreorderLeaf(n: Node)
    requires n.Identifier? || n.StringLiteral?
    ensures Preorder(n) == [n]
  {
  }
}
