/**
 * `replaceIdentifiers`: re-emits a function body as text, copying the source
 * verbatim between the points where it substitutes a parameter by its
 * argument text or turns the final `return e` into `retval = e;`.
 *
 * The walk is specified here as functions over a state (fragments emitted so
 * far, copy cursor, and whether an exception is propagating); the `Replacer`
 * class below performs it in place and is proved to follow these functions.
 * Once an exception is propagating every step leaves the state alone, which
 * is how Python skips the rest of the walk.
 */
module BodyRewriter {
  import opened Common
  import opened PyText
  import opened JsAst

  /** The fixed inputs of one rewrite. */
  datatype Ctx = Ctx(text: string, repl: map<string, string>, retval: Option<string>, needs: bool)

  /** Fragments emitted so far, the copy cursor into the text, and a pending exception. */
  datatype RState = RState(out: seq<string>, off: nat, raised: bool)

  function Emit(s: RState, frag: string): RState
  {
    if s.raised then s else s.(out := s.out + [frag])
  }

  function MoveTo(s: RState, off: nat): RState
  {
    if s.raised then s else s.(off := off)
  }

  /** Emits the library text from the cursor up to `end`. */
  function CopyTo(c: Ctx, s: RState, end: int): RState
  {
    Emit(s, Slice(c.text, s.off, end))
  }

  /** The attributes the walk descends into, in order. */
  function ChildAttrs(st: Node): seq<Option<Node>>
  {
    [st.thenPart, st.elsePart, st.expression, st.body, st.initializer]
  }

  /** A temporary for the return value is declared unless the body is a lone return. */
  function NeedsRetVal(body: Node, retval: Option<string>, force: bool): bool
  {
    var first := if |body.kids| > 0 then body.kids[0] else body;
    (force || first.kind != RETURN) && retval.Some?
  }

  function Header(retval: string): string
  {
    "var " + retval + " = undefined;\n"
  }

  // ---------------------------------------------------------------------------
  // Expressions: substitute identifiers
  // ---------------------------------------------------------------------------

  /** `replaceIdentifier`: an identifier naming a replacement is swapped for its text. */
  function Substitute(c: Ctx, s: RState, id: Node): (r: RState)
    ensures s.out <= r.out && (s.raised ==> r == s) && r.raised == s.raised
  {
    if !s.raised && id.kind != NUMBER && id.value in c.repl
    then RState(s.out + [Slice(c.text, s.off, id.start), c.repl[id.value]], id.end, false)
    else s
  }

  /** `walkexpression`: the children one by one, or the node itself when it has none. */
  function ExpressionWalk(c: Ctx, s: RState, e: Node): (r: RState)
    requires WellShaped(e)
    ensures s.out <= r.out && (s.raised ==> r == s) && r.raised == s.raised
    decreases e, if |e.kids| > 0 then 2 else 5, 0
  {
    if s.raised then s
    else if |e.kids| > 0 then PiecesWalk(c, s, e, 0)
    else PieceWalk(c, s, e)
  }

  function PiecesWalk(c: Ctx, s: RState, e: Node, i: nat): (r: RState)
    requires WellShaped(e)
    ensures s.out <= r.out && (s.raised ==> r == s) && r.raised == s.raised
    decreases e, 1, |e.kids| - i
  {
    if i >= |e.kids| then s
    else PiecesWalk(c, PieceWalk(c, s, e.kids[i]), e, i + 1)
  }

  /**
   * `walkexpressionpiece`.  Literals are left alone, a member access only
   * substitutes its base, and a childless node of another type is retried on
   * its `expression` attribute, any exception from that retry being swallowed.
   */
  function PieceWalk(c: Ctx, s: RState, p: Node): (r: RState)
    requires WellShaped(p)
    ensures s.out <= r.out && (s.raised ==> r == s) && r.raised == s.raised
    decreases p, 4, 0
  {
    if s.raised then s
    else if p.kind == IDENTIFIER || p.kind == THIS then Substitute(c, s, p)
    else if p.kind == CALL then ExpressionWalk(c, s, p)
    else if p.kind in {STRING, NUMBER, TRUE, FALSE} then s
    else if p.kind == DOT then PieceWalk(c, s, p.kids[0])
    else if |p.kids| > 0 then ExpressionWalk(c, s, p)
    else if p.expression.None? then s
    else PieceWalk(c, s, p.expression.value).(raised := false)
  }

  /** The expression walk on an attribute that may be absent: an absent one raises. */
  function OptExpressionWalk(c: Ctx, s: RState, e: Option<Node>): (r: RState)
    requires OptShaped(e)
    ensures s.out <= r.out && (s.raised ==> r == s)
  {
    match e
    case None => s.(raised := true)
    case Some(x) => ExpressionWalk(c, s, x)
  }

  // ---------------------------------------------------------------------------
  // Statements: copy text, rewrite returns
  // ---------------------------------------------------------------------------

  /**
   * `walkbranch`: every statement, then the text up to the end of the branch
   * (for the body itself, only up to the end of its last statement, which
   * drops a trailing semicolon and whitespace).
   */
  function BranchWalk(c: Ctx, s: RState, b: Node, top: bool): (r: RState)
    requires WellShaped(b) && |b.kids| > 0
    ensures s.out <= r.out && (s.raised ==> r == s)
    decreases b, 4, 0
  {
    if s.raised then s
    else
      var s1 := StatementsWalk(c, s, b, 0);
      if !s1.raised && s1.off < b.end then
        var end := if top then EffEnd(LastKid(b)) else b.end;
        MoveTo(CopyTo(c, s1, end), end)
      else s1
  }

  function StatementsWalk(c: Ctx, s: RState, b: Node, i: nat): (r: RState)
    requires WellShaped(b)
    ensures s.out <= r.out && (s.raised ==> r == s)
    decreases b, 3, |b.kids| - i
  {
    if i >= |b.kids| then s
    else StatementsWalk(c, StatementWalk(c, s, b.kids[i]), b, i + 1)
  }

  /** The copy at the end of `walkstatement`: the rest of the statement, if the cursor is short of it. */
  function Finish(c: Ctx, s: RState, st: Node): (r: RState)
    ensures s.out <= r.out && (s.raised ==> r == s)
  {
    if !s.raised && s.off < EffEnd(st) then MoveTo(CopyTo(c, s, EffEnd(st)), EffEnd(st)) else s
  }

  /** `walkstatement`. */
  function StatementWalk(c: Ctx, s: RState, st: Node): (r: RState)
    requires WellShaped(st)
    ensures s.out <= r.out && (s.raised ==> r == s)
    decreases st, 5, 0
  {
    if s.raised then s
    else if st.kind == RETURN then
      var s1 := CopyTo(c, s, st.start);
      if st.returned.None? then MoveTo(s1, st.end)
      else
        var v := st.returned.value;
        var s2 := MoveTo(s1, v.start);
        var s3 :=
          if c.needs && c.retval.Some? then
            var a := ExpressionWalk(c, Emit(s2, c.retval.value + " = "), v);
            Emit(MoveTo(CopyTo(c, a, st.end), st.end), ";\n")
          else ExpressionWalk(c, s2, v);
        Finish(c, ChildrenWalk(c, s3, st, 0), st)
    else if st.kind == CALL then
      Finish(c, ExpressionWalk(c, Substitute(c, s, st.kids[0]), st.kids[1]), st)
    else if st.kind == IF then
      Finish(c, ChildrenWalk(c, OptExpressionWalk(c, s, st.condition), st, 0), st)
    else if st.kind == SEMICOLON then
      Finish(c, OptExpressionWalk(c, s, st.expression), st)
    else if st.kind == VAR then
      var decl := st.kids[0];
      assert WellShaped(decl);
      var s1 := if decl.initializer.Some? then ExpressionWalk(c, s, decl.initializer.value) else s;
      Finish(c, ChildrenWalk(c, s1, st, 0), st)
    else
      Finish(c, ChildrenWalk(c, s, st, 0), st)
  }

  /** The attribute loop of `walkstatement`, from the i-th attribute on. */
  function ChildrenWalk(c: Ctx, s: RState, st: Node, i: nat): (r: RState)
    requires WellShaped(st) && i <= 5
    ensures s.out <= r.out && (s.raised ==> r == s)
    decreases st, 2, 5 - i
  {
    if i == 5 then s
    else ChildrenWalk(c, ChildWalk(c, s, st, i), st, i + 1)
  }

  /**
   * One attribute: a node carrying an `expression` attribute is walked as an
   * expression (an expression statement always carries one, and walking the
   * missing expression of an empty statement raises), anything else with
   * children as a nested branch, and a childless node is skipped.
   */
  function ChildWalk(c: Ctx, s: RState, st: Node, i: nat): (r: RState)
    requires WellShaped(st) && i < 5
    ensures s.out <= r.out && (s.raised ==> r == s)
    decreases st, 1, 0
  {
    var child := ChildAttrs(st)[i];
    if s.raised || child.None? then s
    else
      var ch := child.value;
      assert WellShaped(ch);
      if ch.kind == SEMICOLON || ch.expression.Some? then OptExpressionWalk(c, s, ch.expression)
      else if |ch.kids| > 0 then BranchWalk(c, s, ch, false)
      else s
  }

  /**
   * The whole rewrite: the state after the constructor has run.  The walk
   * starts at the first statement; with a temporary the declaration comes first.
   */
  function Run(text: string, body: Node, repl: map<string, string>, retval: Option<string>, force: bool): RState
    requires WellShaped(body)
  {
    var first := if |body.kids| > 0 then body.kids[0] else body;
    var needs := NeedsRetVal(body, retval, force);
    var c := Ctx(text, repl, retval, needs);
    var s0 := RState(if needs then [Header(retval.value)] else [], first.start, false);
    if |body.kids| > 0 then BranchWalk(c, s0, body, true) else StatementWalk(c, s0, body)
  }

  /** The rewritten body text, or the exception the rewrite raises. */
  function Rewrite(text: string, body: Node, repl: map<string, string>, retval: Option<string>, force: bool): Outcome<string>
    requires WellShaped(body)
  {
    var r := Run(text, body, repl, retval, force);
    if r.raised then Raised else Done(Concat(r.out))
  }

  // ---------------------------------------------------------------------------
  // The walker object
  // ---------------------------------------------------------------------------

  /**
   * The `Replacer` built by `replaceIdentifiers`: it walks the body once, at
   * construction, appending to `output` and advancing `inputoffset`.  Each
   * method leaves the object in the state the matching function above
   * prescribes; a pending exception is the `raised` flag.
   */
  class Replacer {
    const text: string
    const repl: map<string, string>
    const retval: Option<string>
    const needsRetVal: bool
    var output: seq<string>
    var inputoffset: nat
    var raised: bool

    function C(): Ctx
    {
      Ctx(text, repl, retval, needsRetVal)
    }

    function State(): RState
      reads this
    {
      RState(output, inputoffset, raised)
    }

    /** The fragments emitted so far, joined. */
    function GetOutput(): string
      reads this
    {
      Concat(output)
    }

    constructor (librarytext: string, body: Node, replacements: map<string, string>,
                 retval: Option<string>, forceretval: bool)
      requires WellShaped(body)
      ensures text == librarytext && repl == replacements && this.retval == retval
      ensures needsRetVal == NeedsRetVal(body, retval, forceretval)
      ensures State() == Run(librarytext, body, replacements, retval, forceretval)
    {
      text := librarytext;
      repl := replacements;
      this.retval := retval;
      var firstline := if |body.kids| > 0 then body.kids[0] else body;
      needsRetVal := (forceretval || firstline.kind != RETURN) && retval.Some?;
      output := if (forceretval || firstline.kind != RETURN) && retval.Some? then [Header(retval.value)] else [];
      inputoffset := firstline.start;
      raised := false;
      new;
      if |body.kids| > 0 {
        WalkBranch(body, true);
      } else {
        WalkStatement(body);
      }
    }

    method Append(frag: string)
      requires !raised
      modifies this
      ensures State() == Emit(old(State()), frag)
    {
      output := output + [frag];
    }

    method ReplaceIdentifier(identifier: Node)
      requires !raised
      modifies this
      ensures State() == Substitute(C(), old(State()), identifier)
    {
      if identifier.kind != NUMBER && identifier.value in repl {
        output := output + [Slice(text, inputoffset, identifier.start), repl[identifier.value]];
        inputoffset := identifier.end;
      }
    }

    method WalkExpression(expression: Node)
      requires WellShaped(expression) && !raised
      modifies this
      ensures State() == ExpressionWalk(C(), old(State()), expression)
      decreases expression, if |expression.kids| > 0 then 2 else 5, 0
    {
      if |expression.kids| > 0 {
        var i := 0;
        while i < |expression.kids|
          invariant 0 <= i <= |expression.kids| && !raised
          invariant PiecesWalk(C(), State(), expression, i) == ExpressionWalk(C(), old(State()), expression)
        {
          WalkExpressionPiece(expression.kids[i]);
          i := i + 1;
        }
      } else {
        WalkExpressionPiece(expression);
      }
    }

    method WalkExpressionPiece(piece: Node)
      requires WellShaped(piece) && !raised
      modifies this
      ensures State() == PieceWalk(C(), old(State()), piece)
      decreases piece, 4, 0
    {
      if piece.kind == IDENTIFIER || piece.kind == THIS {
        ReplaceIdentifier(piece);
      } else if piece.kind == CALL {
        WalkExpression(piece);
      } else if piece.kind in {STRING, NUMBER, TRUE, FALSE} {
      } else if piece.kind == DOT {
        WalkExpressionPiece(piece.kids[0]);
      } else if |piece.kids| > 0 {
        WalkExpression(piece);
      } else if piece.expression.Some? {
        // the `try`: an exception from the retry is swallowed
        WalkExpressionPiece(piece.expression.value);
        raised := false;
      }
    }

    method WalkBranch(branch: Node, top: bool)
      requires WellShaped(branch) && |branch.kids| > 0 && !raised
      modifies this
      ensures State() == BranchWalk(C(), old(State()), branch, top)
      decreases branch, 4, 0
    {
      var i := 0;
      while i < |branch.kids|
        invariant 0 <= i <= |branch.kids| && !raised
        invariant StatementsWalk(C(), State(), branch, i) == StatementsWalk(C(), old(State()), branch, 0)
      {
        WalkStatement(branch.kids[i]);
        if raised {
          return;
        }
        i := i + 1;
      }
      if inputoffset < branch.end {
        var end := if top then EffEnd(LastKid(branch)) else branch.end;
        Append(Slice(text, inputoffset, end));
        inputoffset := end;
      }
    }

    method WalkStatement(statement: Node)
      requires WellShaped(statement) && !raised
      modifies this
      ensures State() == StatementWalk(C(), old(State()), statement)
      decreases statement, 5, 0
    {
      if statement.kind == RETURN {
        WalkReturn(statement);
        return;
      } else if statement.kind == CALL {
        ReplaceIdentifier(statement.kids[0]);
        WalkExpression(statement.kids[1]);
      } else if statement.kind == IF {
        if statement.condition.None? {
          raised := true;
          return;
        }
        WalkExpression(statement.condition.value);
        WalkChildren(statement);
      } else if statement.kind == SEMICOLON {
        if statement.expression.None? {
          raised := true;
          return;
        }
        WalkExpression(statement.expression.value);
      } else if statement.kind == VAR {
        var decl := statement.kids[0];
        if decl.initializer.Some? {
          WalkExpression(decl.initializer.value);
        }
        WalkChildren(statement);
      } else {
        WalkChildren(statement);
      }
      FinishStatement(statement);
    }

    /** The `return` case of `walkstatement`. */
    method WalkReturn(statement: Node)
      requires WellShaped(statement) && statement.kind == RETURN && !raised
      modifies this
      ensures State() == StatementWalk(C(), old(State()), statement)
      decreases statement, 4, 0
    {
      Append(Slice(text, inputoffset, statement.start));
      if statement.returned.None? {
        inputoffset := statement.end;
        return;
      }
      var value := statement.returned.value;
      inputoffset := value.start;
      if needsRetVal && retval.Some? {
        Append(retval.value + " = ");
        WalkExpression(value);
        Append(Slice(text, inputoffset, statement.end));
        inputoffset := statement.end;
        Append(";\n");
      } else {
        WalkExpression(value);
      }
      WalkChildren(statement);
      FinishStatement(statement);
    }

    /** The attribute loop of `walkstatement`. */
    method WalkChildren(statement: Node)
      requires WellShaped(statement) && !raised
      modifies this
      ensures State() == ChildrenWalk(C(), old(State()), statement, 0)
      decreases statement, 2, 5
    {
      var k := 0;
      while k < 5
        invariant 0 <= k <= 5 && !raised
        invariant ChildrenWalk(C(), State(), statement, k) == ChildrenWalk(C(), old(State()), statement, 0)
      {
        var child := ChildAttrs(statement)[k];
        if child.Some? {
          var ch := child.value;
          if ch.kind == SEMICOLON && ch.expression.None? {
            raised := true;
          } else if ch.expression.Some? {
            WalkExpression(ch.expression.value);
          } else if |ch.kids| > 0 {
            WalkBranch(ch, false);
          }
        }
        if raised {
          return;
        }
        k := k + 1;
      }
    }

    /** The closing copy of `walkstatement`. */
    method FinishStatement(statement: Node)
      modifies this
      ensures State() == Finish(C(), old(State()), statement)
    {
      if !raised && inputoffset < EffEnd(statement) {
        output := output + [Slice(text, inputoffset, EffEnd(statement))];
        inputoffset := EffEnd(statement);
      }
    }
  }

  // ---------------------------------------------------------------------------
  // Properties
  // ---------------------------------------------------------------------------

  /**
   * The temporary is needed exactly when there is a return variable and either
   * it is forced or the body does not open with `return`; then the output
   * begins with its declaration.
   */
  lemma RetValHeader(text: string, body: Node, repl: map<string, string>, retval: Option<string>, force: bool)
    requires WellShaped(body)
    ensures Rewrite(text, body, repl, None, true) == Rewrite(text, body, repl, None, false)
    ensures NeedsRetVal(body, retval, force) && Rewrite(text, body, repl, retval, force).Done? ==>
      Header(retval.value) <= Rewrite(text, body, repl, retval, force).value
  {
    assert !NeedsRetVal(body, None, true) && !NeedsRetVal(body, None, false);
    assert Run(text, body, repl, None, true) == Run(text, body, repl, None, false);
    var r := Run(text, body, repl, retval, force);
    if NeedsRetVal(body, retval, force) && !r.raised {
      var h := [Header(retval.value)];
      assert h <= r.out;
      ConcatSplitAt(r.out, 1);
      assert r.out[..1] == h;
      assert Concat(h) == Header(retval.value) by {
        assert h[..0] == [];
      }
    }
  }

  /** No identifier or `this` anywhere an expression walk can reach names a replacement. */
  predicate NoKey(repl: map<string, string>, n: Node)
    decreases n
  {
    && (n.kind in {IDENTIFIER, THIS} ==> n.value !in repl)
    && (forall i :: 0 <= i < |n.kids| ==> NoKey(repl, n.kids[i]))
    && (n.expression.Some? ==> NoKey(repl, n.expression.value))
  }

  /**
   * Only identifiers named in the replacement map are substituted: walking an
   * expression that mentions none of them emits nothing and leaves the cursor.
   */
  lemma {:induction false} ExpressionUntouched(c: Ctx, s: RState, e: Node)
    requires WellShaped(e) && NoKey(c.repl, e)
    ensures ExpressionWalk(c, s, e) == s
    decreases e, if |e.kids| > 0 then 2 else 5, 0
  {
    if !s.raised {
      if |e.kids| > 0 {
        PiecesUntouched(c, s, e, 0);
      } else {
        PieceUntouched(c, s, e);
      }
    }
  }

  lemma {:induction false} PiecesUntouched(c: Ctx, s: RState, e: Node, i: nat)
    requires WellShaped(e) && NoKey(c.repl, e)
    ensures PiecesWalk(c, s, e, i) == s
    decreases e, 1, |e.kids| - i
  {
    if i < |e.kids| {
      PieceUntouched(c, s, e.kids[i]);
      PiecesUntouched(c, s, e, i + 1);
    }
  }

  lemma {:induction false} PieceUntouched(c: Ctx, s: RState, p: Node)
    requires WellShaped(p) && NoKey(c.repl, p)
    ensures PieceWalk(c, s, p) == s
    decreases p, 4, 0
  {
    if !s.raised {
      if p.kind == CALL {
        ExpressionUntouched(c, s, p);
      } else if p.kind == DOT {
        PieceUntouched(c, s, p.kids[0]);
      } else if p.kind !in {IDENTIFIER, THIS, STRING, NUMBER, TRUE, FALSE} {
        if |p.kids| > 0 {
          ExpressionUntouched(c, s, p);
        } else if p.expression.Some? {
          PieceUntouched(c, s, p.expression.value);
        }
      }
    }
  }

  /** A statement none of whose walked attributes is set: the attribute loop changes nothing. */
  lemma NoAttrsWalked(c: Ctx, s: RState, st: Node)
    requires WellShaped(st)
    requires st.thenPart.None? && st.elsePart.None? && st.expression.None? && st.body.None? && st.initializer.None?
    ensures ChildrenWalk(c, s, st, 0) == s
  {
    assert ChildAttrs(st) == [None, None, None, None, None];
    assert ChildrenWalk(c, s, st, 5) == s;
    assert ChildrenWalk(c, s, st, 4) == s;
    assert ChildrenWalk(c, s, st, 3) == s;
    assert ChildrenWalk(c, s, st, 2) == s;
    assert ChildrenWalk(c, s, st, 1) == s;
  }

  /**
   * A body whose statements leave the cursor at the end of the last one, short
   * of the body's end: the copy to that end adds an empty fragment.
   */
  lemma TopBranchWalked(c: Ctx, s: RState, b: Node, out: seq<string>)
    requires WellShaped(b) && |b.kids| > 0 && !s.raised
    requires EffEnd(LastKid(b)) < b.end && StatementsWalk(c, s, b, 0) == RState(out, EffEnd(LastKid(b)), false)
    ensures BranchWalk(c, s, b, true) == RState(out + [""], EffEnd(LastKid(b)), false)
  {
  }

  /**
   * A `return` with a value, when the body needs a temporary: the text up to
   * the `return` is copied, the keyword is replaced by `<temp> = `, the value
   * is rewritten, the rest of the statement is copied and `;` and a newline
   * end it.  The cursor ends at the end of the statement.
   */
  lemma ReturnAssigned(c: Ctx, s: RState, st: Node)
    requires WellShaped(st) && st.kind == RETURN && st.returned.Some? && !s.raised
    requires c.needs && c.retval.Some?
    requires st.thenPart.None? && st.elsePart.None? && st.expression.None? && st.body.None? && st.initializer.None?
    ensures var v := st.returned.value;
            var a := ExpressionWalk(c, RState(s.out + [Slice(c.text, s.off, st.start), c.retval.value + " = "], v.start, false), v);
            StatementWalk(c, s, st) == RState(a.out + [Slice(c.text, a.off, st.end), ";\n"], st.end, false)
  {
    var v := st.returned.value;
    var s2 := MoveTo(CopyTo(c, s, st.start), v.start);
    assert Emit(s2, c.retval.value + " = ") == RState(s.out + [Slice(c.text, s.off, st.start), c.retval.value + " = "], v.start, false);
    var a := ExpressionWalk(c, Emit(s2, c.retval.value + " = "), v);
    var s3 := Emit(MoveTo(CopyTo(c, a, st.end), st.end), ";\n");
    assert s3 == RState(a.out + [Slice(c.text, a.off, st.end), ";\n"], st.end, false);
    NoAttrsWalked(c, s3, st);
    assert Finish(c, s3, st) == s3;
  }
  // ---------------------------------------------------------------------------
  // Nothing to rewrite: the body is copied verbatim
  // ---------------------------------------------------------------------------

  /** No `return` statement anywhere in the tree. */
  predicate NoReturn(n: Node)
    decreases n
  {
    && n.kind != RETURN
    && (forall i :: 0 <= i < |n.kids| ==> NoReturn(n.kids[i]))
    && (n.thenPart.Some? ==> NoReturn(n.thenPart.value))
    && (n.elsePart.Some? ==> NoReturn(n.elsePart.value))
    && (n.expression.Some? ==> NoReturn(n.expression.value))
    && (n.body.Some? ==> NoReturn(n.body.value))
    && (n.initializer.Some? ==> NoReturn(n.initializer.value))
  }

  /** From `s0` to `r` the walk emitted exactly the text it moved its cursor over, or raised. */
  predicate Copied(c: Ctx, s0: RState, r: RState)
  {
    r.raised || (s0.off <= r.off && Concat(r.out) == Concat(s0.out) + Slice(c.text, s0.off, r.off))
  }

  lemma CopiedTrans(c: Ctx, a: RState, b: RState, d: RState)
    requires Copied(c, a, b) && Copied(c, b, d) && (b.raised ==> d.raised)
    ensures Copied(c, a, d)
  {
    if !d.raised {
      var x, y := Slice(c.text, a.off, b.off), Slice(c.text, b.off, d.off);
      SliceConcat(c.text, a.off, b.off, d.off);
      AppendTwice(Concat(a.out), x, Concat(b.out), y, Concat(d.out));
    }
  }

  lemma AppendTwice(a: string, x: string, b: string, y: string, d: string)
    requires b == a + x && d == b + y
    ensures d == a + (x + y)
  {
  }

  lemma CopyStep(c: Ctx, s: RState, e: nat)
    requires !s.raised && s.off <= e
    ensures Copied(c, s, MoveTo(CopyTo(c, s, e), e))
  {
    ConcatAppend(s.out, [Slice(c.text, s.off, e)]);
    assert Concat([Slice(c.text, s.off, e)]) == Concat([]) + Slice(c.text, s.off, e);
  }

  lemma {:induction false} NoKeyEmpty(n: Node)
    ensures NoKey(map[], n)
    decreases n
  {
    forall i | 0 <= i < |n.kids| {
      NoKeyEmpty(n.kids[i]);
    }
    if n.expression.Some? {
      NoKeyEmpty(n.expression.value);
    }
  }

  /** With nothing to replace, an optional expression either raises (it is absent) or changes nothing. */
  lemma OptUntouched(c: Ctx, s: RState, e: Option<Node>)
    requires c.repl == map[] && OptShaped(e)
    ensures OptExpressionWalk(c, s, e) == (if e.None? then s.(raised := true) else s)
  {
    if e.Some? {
      NoKeyEmpty(e.value);
      ExpressionUntouched(c, s, e.value);
    }
  }

  lemma FinishCopied(c: Ctx, s: RState, st: Node)
    ensures Copied(c, s, Finish(c, s, st))
  {
    if !s.raised && s.off < EffEnd(st) {
      CopyStep(c, s, EffEnd(st));
    }
  }

  lemma {:induction false} StatementCopied(c: Ctx, s: RState, st: Node)
    requires c.repl == map[] && WellShaped(st) && NoReturn(st)
    ensures Copied(c, s, StatementWalk(c, s, st))
    decreases st, 5, 0
  {
    if !s.raised {
      var s1;
      if st.kind == CALL {
        NoKeyEmpty(st.kids[1]);
        assert WellShaped(st.kids[1]);
        ExpressionUntouched(c, s, st.kids[1]);
        s1 := s;
      } else if st.kind == IF {
        OptUntouched(c, s, st.condition);
        var s0 := OptExpressionWalk(c, s, st.condition);
        ChildrenCopied(c, s0, st, 0);
        s1 := ChildrenWalk(c, s0, st, 0);
      } else if st.kind == SEMICOLON {
        OptUntouched(c, s, st.expression);
        s1 := OptExpressionWalk(c, s, st.expression);
      } else if st.kind == VAR {
        var decl := st.kids[0];
        assert WellShaped(decl);
        if decl.initializer.Some? {
          NoKeyEmpty(decl.initializer.value);
          ExpressionUntouched(c, s, decl.initializer.value);
        }
        ChildrenCopied(c, s, st, 0);
        s1 := ChildrenWalk(c, s, st, 0);
      } else {
        ChildrenCopied(c, s, st, 0);
        s1 := ChildrenWalk(c, s, st, 0);
      }
      FinishCopied(c, s1, st);
      CopiedTrans(c, s, s1, Finish(c, s1, st));
    }
  }

  lemma {:induction false} ChildrenCopied(c: Ctx, s: RState, st: Node, i: nat)
    requires c.repl == map[] && WellShaped(st) && NoReturn(st) && i <= 5
    ensures Copied(c, s, ChildrenWalk(c, s, st, i))
    decreases st, 2, 5 - i
  {
    if i < 5 {
      var s1 := ChildWalk(c, s, st, i);
      ChildCopied(c, s, st, i);
      ChildrenCopied(c, s1, st, i + 1);
      CopiedTrans(c, s, s1, ChildrenWalk(c, s1, st, i + 1));
    }
  }

  lemma AttrNoReturn(st: Node, i: nat)
    requires NoReturn(st) && i < 5 && ChildAttrs(st)[i].Some?
    ensures NoReturn(ChildAttrs(st)[i].value)
  {
    if i == 0 {} else if i == 1 {} else if i == 2 {} else if i == 3 {} else {}
  }

  lemma {:induction false} ChildCopied(c: Ctx, s: RState, st: Node, i: nat)
    requires c.repl == map[] && WellShaped(st) && NoReturn(st) && i < 5
    ensures Copied(c, s, ChildWalk(c, s, st, i))
    decreases st, 1, 0
  {
    var child := ChildAttrs(st)[i];
    if !s.raised && child.Some? {
      var ch := child.value;
      assert WellShaped(ch);
      AttrNoReturn(st, i);
      if ch.kind == SEMICOLON || ch.expression.Some? {
        OptUntouched(c, s, ch.expression);
      } else if |ch.kids| > 0 {
        BranchCopied(c, s, ch);
      }
    }
  }

  lemma {:induction false} BranchCopied(c: Ctx, s: RState, b: Node)
    requires c.repl == map[] && WellShaped(b) && NoReturn(b) && |b.kids| > 0
    ensures Copied(c, s, BranchWalk(c, s, b, false))
    decreases b, 4, 0
  {
    if !s.raised {
      var s1 := StatementsWalk(c, s, b, 0);
      StatementsCopied(c, s, b, 0);
      if !s1.raised && s1.off < b.end {
        CopyStep(c, s1, b.end);
        CopiedTrans(c, s, s1, MoveTo(CopyTo(c, s1, b.end), b.end));
      }
    }
  }

  lemma {:induction false} StatementsCopied(c: Ctx, s: RState, b: Node, i: nat)
    requires c.repl == map[] && WellShaped(b) && NoReturn(b)
    ensures Copied(c, s, StatementsWalk(c, s, b, i))
    decreases b, 3, |b.kids| - i
  {
    if i < |b.kids| {
      var s1 := StatementWalk(c, s, b.kids[i]);
      StatementCopied(c, s, b.kids[i]);
      StatementsCopied(c, s1, b, i + 1);
      CopiedTrans(c, s, s1, StatementsWalk(c, s1, b, i + 1));
    }
  }

  /**
   * The whole body: as a nested branch, except that the last copy stops at
   * the end of the last statement, which may lie behind the cursor.
   */
  lemma BranchTopCopied(c: Ctx, s: RState, b: Node)
    requires c.repl == map[] && WellShaped(b) && NoReturn(b) && |b.kids| > 0
    ensures var r := BranchWalk(c, s, b, true);
            !r.raised ==> exists e: int :: s.off <= e && Concat(r.out) == Concat(s.out) + Slice(c.text, s.off, e)
  {
    var r := BranchWalk(c, s, b, true);
    if !s.raised {
      var s1 := StatementsWalk(c, s, b, 0);
      StatementsCopied(c, s, b, 0);
      if !s1.raised && s1.off < b.end {
        var end := EffEnd(LastKid(b));
        assert r == MoveTo(CopyTo(c, s1, end), end);
        if s1.off <= end {
          CopyStep(c, s1, end);
          CopiedTrans(c, s, s1, r);
          assert Concat(r.out) == Concat(s.out) + Slice(c.text, s.off, r.off);
        } else {
          SliceEmpty(c.text, s1.off, end);
          ConcatAppend(s1.out, [Slice(c.text, s1.off, end)]);
          assert Concat([Slice(c.text, s1.off, end)]) == Concat([]) + [];
          assert Concat(r.out) == Concat(s1.out);
          assert Concat(r.out) == Concat(s.out) + Slice(c.text, s.off, s1.off);
        }
      } else if !s1.raised {
        assert Concat(r.out) == Concat(s.out) + Slice(c.text, s.off, s1.off);
      }
    }
  }

  /**
   * With nothing to replace, no temporary and no `return` anywhere, the
   * rewrite changes nothing: its output is the library text from the first
   * statement on, copied verbatim up to where the walk stopped.
   */
  lemma VerbatimCopy(text: string, body: Node)
    requires WellShaped(body) && NoReturn(body)
    ensures var first := if |body.kids| > 0 then body.kids[0] else body;
            var r := Rewrite(text, body, map[], None, false);
            r.Done? ==> exists e: int :: first.start <= e && r.value == Slice(text, first.start, e)
  {
    var first := if |body.kids| > 0 then body.kids[0] else body;
    var c := Ctx(text, map[], None, false);
    var s0 := RState([], first.start, false);
    assert !NeedsRetVal(body, None, false);
    var r := Run(text, body, map[], None, false);
    assert Concat(s0.out) == [];
    if |body.kids| > 0 {
      assert r == BranchWalk(c, s0, body, true);
      BranchTopCopied(c, s0, body);
    } else {
      assert r == StatementWalk(c, s0, body);
      StatementCopied(c, s0, body);
      if !r.raised {
        assert Concat(r.out) == Slice(text, first.start, r.off);
      }
    }
    if !r.raised {
      assert Rewrite(text, body, map[], None, false) == Done(Concat(r.out));
    }
  }


}
