/**
 * The parse tree the inliner consumes.  Tokenising and parsing JavaScript is
 * done by the external `jsparser` module; this module only describes the tree
 * it hands over: every node has a type, a `[start, end)` span of the source
 * text, positional children, and type-dependent attributes.
 */
module JsAst {
  import opened Common
  import opened PyText

  /** Node types, named as jsparser names them; any other type is `Other`. */
  datatype Kind =
    | SCRIPT | BLOCK | FUNCTION | VAR | IDENTIFIER | THIS | NUMBER | STRING
    | TRUE | FALSE | DOT | INDEX | CALL | LIST | ASSIGN | PLUS | MINUS | MOD
    | INCREMENT | DECREMENT | LT | LE | GT | GE | NEW | NEW_WITH_ARGS
    | OBJECT_INIT | ARRAY_INIT | PROPERTY_INIT | SEMICOLON | RETURN | IF | FOR
    | SWITCH | CASE
    | Other(tag: string)

  /**
   * A parse-tree node.  An attribute the parser did not set is `None`, so
   * `getattr(node, attr, None)` is the field itself and `hasattr(node, attr)`
   * is `field.Some?`.
   *   value       token text: identifier name, string contents, operator ('+' of `+=`)
   *   num         the value of a NUMBER literal (whose `value` is a number, not text)
   *   name        the name of a FUNCTION or of a declared variable
   *   params      a FUNCTION's parameter names
   *   returned    a RETURN's value when it is an expression node
   *   statements  a CASE's body
   * A root without an end offset has `end == 0`.
   */
  datatype Node = Node(
    kind: Kind,
    start: nat,
    end: nat,
    kids: seq<Node>,
    value: string,
    num: int,
    name: string,
    params: Option<seq<string>>,
    body: Option<Node>,
    expression: Option<Node>,
    condition: Option<Node>,
    thenPart: Option<Node>,
    elsePart: Option<Node>,
    initializer: Option<Node>,
    setup: Option<Node>,
    update: Option<Node>,
    returned: Option<Node>,
    cases: seq<Node>,
    statements: Option<Node>)

  /** A node with the given core fields and no attributes. */
  function Mk(kind: Kind, start: nat, end: nat, kids: seq<Node>, value: string): Node
  {
    Node(kind, start, end, kids, value, 0, "", None, None, None, None, None, None, None,
         None, None, None, [], None)
  }

  /** The number of positional children each node type always has. */
  function MinKids(k: Kind): nat
  {
    match k
    case DOT | INDEX | MOD | CALL | ASSIGN | PLUS | MINUS | LT | LE | GT | GE | PROPERTY_INIT => 2
    case INCREMENT | DECREMENT | NEW | NEW_WITH_ARGS | VAR => 1
    case _ => 0
  }

  /** An attribute that is absent or well shaped. */
  predicate OptShaped(o: Option<Node>)
  {
    o.Some? ==> WellShaped(o.value)
  }

  /**
   * The arity the parser guarantees: a member access, index, call, assignment,
   * binary operator or property has two children (a call's second child is its
   * argument LIST), a unary operator, `new` or a `var` statement at least one,
   * throughout the tree.
   */
  predicate WellShaped(n: Node)
    decreases n
  {
    && MinKids(n.kind) <= |n.kids|
    && (forall i :: 0 <= i < |n.kids| ==> WellShaped(n.kids[i]))
    && (forall i :: 0 <= i < |n.cases| ==> WellShaped(n.cases[i]))
    && (n.body.Some? ==> WellShaped(n.body.value))
    && (n.expression.Some? ==> WellShaped(n.expression.value))
    && (n.condition.Some? ==> WellShaped(n.condition.value))
    && (n.thenPart.Some? ==> WellShaped(n.thenPart.value))
    && (n.elsePart.Some? ==> WellShaped(n.elsePart.value))
    && (n.initializer.Some? ==> WellShaped(n.initializer.value))
    && (n.setup.Some? ==> WellShaped(n.setup.value))
    && (n.update.Some? ==> WellShaped(n.update.value))
    && (n.returned.Some? ==> WellShaped(n.returned.value))
    && (n.statements.Some? ==> WellShaped(n.statements.value))
  }

  /** A node's value as text: a NUMBER prints its number, every other node its text. */
  function ValueText(n: Node): string
  {
    if n.kind == NUMBER then IntToString(n.num) else n.value
  }

  /** Python's `node.value == s` for a string s: a number never equals a string. */
  predicate ValueIs(n: Node, s: string)
  {
    n.kind != NUMBER && n.value == s
  }

  function LastKid(n: Node): Node
    requires |n.kids| > 0
  {
    n.kids[|n.kids| - 1]
  }

  /**
   * The end offset of a statement once the body rewriter has walked it: walking
   * a `var` statement whose first declaration has an initializer moves the
   * statement's end to the initializer's end, dropping the trailing `;`.
   */
  function EffEnd(st: Node): nat
  {
    if st.kind == VAR && |st.kids| > 0 && st.kids[0].initializer.Some?
    then st.kids[0].initializer.value.end
    else st.end
  }

  /** Node count, the termination measure of walks that queue subtrees for later. */
  function Size(n: Node): nat
    decreases n, 1
  {
    1 + SizeSeq(n.kids) + SizeSeq(n.cases)
    + SizeOpt(n.body) + SizeOpt(n.expression) + SizeOpt(n.condition)
    + SizeOpt(n.thenPart) + SizeOpt(n.elsePart) + SizeOpt(n.initializer)
    + SizeOpt(n.setup) + SizeOpt(n.update) + SizeOpt(n.returned)
    + SizeOpt(n.statements)
  }

  function SizeOpt(o: Option<Node>): nat
    decreases o
  {
    match o
    case None => 0
    case Some(n) => Size(n)
  }

  function SizeSeq(s: seq<Node>): nat
    decreases s
  {
    if s == [] then 0 else Size(s[0]) + SizeSeq(s[1..])
  }

  lemma {:induction false} SizeSeqElement(s: seq<Node>, i: nat)
    requires i < |s|
    ensures Size(s[i]) <= SizeSeq(s)
    decreases s
  {
    if i > 0 {
      SizeSeqElement(s[1..], i - 1);
    }
  }

  /** Every child and every attribute subtree is strictly smaller than its node. */
  lemma SizeKid(n: Node, i: nat)
    requires i < |n.kids|
    ensures Size(n.kids[i]) < Size(n)
  {
    SizeSeqElement(n.kids, i);
  }

  lemma SizeInitializerOfKid(n: Node, i: nat)
    requires i < |n.kids| && n.kids[i].initializer.Some?
    ensures Size(n.kids[i].initializer.value) < Size(n)
  {
    SizeKid(n, i);
  }

  lemma SizeKidOfKid(n: Node, i: nat, j: nat)
    requires i < |n.kids| && j < |n.kids[i].kids|
    ensures Size(n.kids[i].kids[j]) < Size(n)
  {
    SizeKid(n, i);
    SizeKid(n.kids[i], j);
  }
}
