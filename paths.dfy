/**
 * `_crawlIdentifier`: the canonical path text of a small expression tree, the
 * key under which the environment is searched for a callee or a binding.
 */
module Paths {
  import opened Common
  import opened PyText
  import opened JsAst

  /**
   * The path of `n`.  `Done(None)` is the "unknown identifier type" result;
   * `Raised` is the TypeError of gluing text to such a result inside a
   * member access, index, modulo or `++`/`--`.
   */
  function CrawlIdentifier(n: Node): (r: Outcome<Option<string>>)
    requires WellShaped(n)
    ensures n.kind == THIS ==> r == Done(Some("this"))
    ensures n.kind == IDENTIFIER ==> r == Done(Some(n.value))
    ensures n.kind == NUMBER ==> r == Done(Some(IntToString(n.num)))
    ensures !IsPathKind(n.kind) ==> r == Done(None)
    decreases n
  {
    match n.kind
    case THIS => Done(Some("this"))
    case IDENTIFIER => Done(Some(n.value))
    case NUMBER => Done(Some(IntToString(n.num)))
    case DOT => Binary(CrawlIdentifier(n.kids[0]), ".", CrawlIdentifier(n.kids[1]), "")
    case INDEX => Binary(CrawlIdentifier(n.kids[0]), "[", CrawlIdentifier(n.kids[1]), "]")
    case MOD => Binary(CrawlIdentifier(n.kids[0]), "%", CrawlIdentifier(n.kids[1]), "")
    case INCREMENT => Unary(CrawlIdentifier(n.kids[0]), "++", n.start < n.kids[0].start)
    case DECREMENT => Unary(CrawlIdentifier(n.kids[0]), "--", n.start < n.kids[0].start)
    case _ => Done(None)
  }

  predicate IsPathKind(k: Kind)
  {
    k in {THIS, IDENTIFIER, NUMBER, DOT, INDEX, MOD, INCREMENT, DECREMENT}
  }

  /** `l + sep + r + close`, raising when either side is not text. */
  function Binary(l: Outcome<Option<string>>, sep: string, r: Outcome<Option<string>>, close: string): Outcome<Option<string>>
  {
    if l.Done? && l.value.Some? && r.Done? && r.value.Some?
    then Done(Some(l.value.value + sep + r.value.value + close))
    else Raised
  }

  /** `op + v` when the operator comes first in the source, else `v + op`. */
  function Unary(v: Outcome<Option<string>>, op: string, prefix: bool): Outcome<Option<string>>
  {
    if v.Done? && v.value.Some?
    then Done(Some(if prefix then op + v.value.value else v.value.value + op))
    else Raised
  }

  /** A node whose path is text. */
  predicate HasPath(n: Node)
    requires WellShaped(n)
  {
    CrawlIdentifier(n).Done? && CrawlIdentifier(n).value.Some?
  }

  function PathOf(n: Node): string
    requires WellShaped(n) && HasPath(n)
  {
    CrawlIdentifier(n).value.value
  }

  /**
   * Composition: a member access, index or modulo has a path exactly when both
   * operands do, and it is the operands' paths around the operator.
   */
  lemma BinaryPath(n: Node)
    requires WellShaped(n) && n.kind in {DOT, INDEX, MOD}
    ensures HasPath(n) <==> HasPath(n.kids[0]) && HasPath(n.kids[1])
    ensures HasPath(n) ==> PathOf(n) == PathOf(n.kids[0]) + (match n.kind case DOT => "." case INDEX => "[" case _ => "%") + PathOf(n.kids[1]) + (if n.kind == INDEX then "]" else "")
    ensures !HasPath(n) ==> CrawlIdentifier(n) == Raised
  {
  }

  /** `++`/`--` goes before the operand exactly when the node starts before its operand. */
  lemma UnaryPath(n: Node)
    requires WellShaped(n) && n.kind in {INCREMENT, DECREMENT}
    ensures HasPath(n) <==> HasPath(n.kids[0])
    ensures HasPath(n) ==>
      var op := if n.kind == INCREMENT then "++" else "--";
      PathOf(n) == (if n.start < n.kids[0].start then op + PathOf(n.kids[0]) else PathOf(n.kids[0]) + op)
  {
  }

  /** A chain of member accesses on plain names. */
  predicate IsDotChain(n: Node)
    decreases n
  {
    (n.kind == IDENTIFIER && '.' !in n.value && n.value != "this")
    || (n.kind == DOT && |n.kids| == 2 && IsDotChain(n.kids[0])
        && n.kids[1].kind == IDENTIFIER && '.' !in n.kids[1].value)
  }

  /** The names of a dot chain, left to right. */
  function ChainNames(n: Node): (names: seq<string>)
    requires IsDotChain(n)
    ensures |names| >= 1
    decreases n
  {
    if n.kind == IDENTIFIER then [n.value] else ChainNames(n.kids[0]) + [n.kids[1].value]
  }

  /**
   * The path of `a.b.c` splits back into its names at the dots: this is how
   * the environment walks the path the resolver builds.
   */
  lemma {:induction false} DotChainSplits(n: Node)
    requires WellShaped(n) && IsDotChain(n)
    ensures HasPath(n)
    ensures Split(PathOf(n), '.') == ChainNames(n)
    decreases n
  {
    if n.kind == IDENTIFIER {
      SplitNoSeparator(n.value, '.');
    } else {
      var l, r := n.kids[0], n.kids[1];
      DotChainSplits(l);
      SplitNoSeparator(r.value, '.');
      SplitAround(PathOf(l), r.value, '.');
      assert PathOf(n) == PathOf(l) + "." + r.value;
    }
  }

  /** `++i`: the operator goes first when the node starts before its operand (the increment test). */
  lemma PrefixIncrementExample()
    ensures var n := Mk(INCREMENT, 0, 3, [Mk(IDENTIFIER, 2, 3, [], "i")], "++");
      WellShaped(n) && CrawlIdentifier(n) == Done(Some("++i"))
  {
    var i2 := Mk(IDENTIFIER, 2, 3, [], "i");
    assert WellShaped(i2);
    var n := Mk(INCREMENT, 0, 3, [i2], "++");
    assert WellShaped(n);
    assert CrawlIdentifier(i2) == Done(Some("i"));
    assert CrawlIdentifier(n) == Unary(Done(Some("i")), "++", true);
    assert "++" + "i" == "++i";
  }

  /** `i--`: the operator goes last when node and operand start together (the decrement test). */
  lemma PostfixDecrementExample()
    ensures var n := Mk(DECREMENT, 0, 3, [Mk(IDENTIFIER, 0, 1, [], "i")], "--");
      WellShaped(n) && CrawlIdentifier(n) == Done(Some("i--"))
  {
    var i0 := Mk(IDENTIFIER, 0, 1, [], "i");
    assert WellShaped(i0);
    var n := Mk(DECREMENT, 0, 3, [i0], "--");
    assert WellShaped(n);
    assert CrawlIdentifier(n) == Unary(Done(Some("i")), "--", false);
    assert "i" + "--" == "i--";
  }

  /** A string operand has no path, and gluing it into a member access raises. */
  lemma StringOperandExample()
    ensures CrawlIdentifier(Mk(STRING, 0, 3, [], "s")) == Done(None)
    ensures CrawlIdentifier(Mk(DOT, 0, 5, [Mk(STRING, 0, 3, [], "s"), Mk(IDENTIFIER, 4, 5, [], "x")], ".")) == Raised
  {
    var l := Mk(STRING, 0, 3, [], "s");
    var r := Mk(IDENTIFIER, 4, 5, [], "x");
    assert WellShaped(l) && WellShaped(r);
    assert WellShaped(Mk(DOT, 0, 5, [l, r], "."));
  }
}
