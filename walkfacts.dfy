/**
 * What the crawler's walk guarantees: the text is copied through in order,
 * so a snippet with nothing to inline comes out unchanged; an expression
 * without calls or function values is passed over; and the typed parameters
 * of a function are bound to copies of their prototypes, all other names of
 * the scope being left alone.
 */
module WalkFacts {
  import opened Common
  import opened PyText
  import opened JsAst
  import opened Paths
  import opened Loops
  import opened Views
  import opened SnippetWalk
  import BodyRewriter

  // ---------------------------------------------------------------------------
  // Expressions the walk passes over
  // ---------------------------------------------------------------------------

  /** No call and no function value among the parts `walkexpression` visits. */
  predicate CallFree(e: Node)
    decreases e
  {
    && e.kind != CALL
    && !(e.kind == ASSIGN && |e.kids| > 1 && e.kids[1].kind == FUNCTION)
    && forall i :: 0 <= i < |e.kids| ==> e.kids[i].kind != CALL && (|e.kids[i].kids| > 0 ==> CallFree(e.kids[i]))
  }

  lemma {:induction false} ExpressionCallFree(w: World, mem: Mem, v: View, s: CState, e: Node, name: Option<string>, usesReturn: bool)
    requires Fits(w, mem) && ViewIn(v, mem) && WellShaped(e) && CallFree(e)
    ensures Expression(w, mem, v, s, e, name, usesReturn) == s
    decreases e, 1
  {
    if !s.raised {
      PiecesCallFree(w, mem, v, s, e, 0, name, usesReturn);
    }
  }

  lemma {:induction false} PiecesCallFree(w: World, mem: Mem, v: View, s: CState, e: Node, i: nat, name: Option<string>, usesReturn: bool)
    requires Fits(w, mem) && ViewIn(v, mem) && WellShaped(e) && CallFree(e)
    ensures Pieces(w, mem, v, s, e, i, name, usesReturn) == s
    decreases e, 0, |e.kids| - i
  {
    if i < |e.kids| {
      var p := e.kids[i];
      assert WellShaped(p);
      if |p.kids| > 0 {
        ExpressionCallFree(w, mem, v, s, p, name, usesReturn);
      }
      assert Piece(w, mem, v, s, p, name, usesReturn) == s;
      PiecesCallFree(w, mem, v, s, e, i + 1, name, usesReturn);
    }
  }

  // ---------------------------------------------------------------------------
  // Snippets with nothing to inline
  // ---------------------------------------------------------------------------

  /** A branch whose every statement is inert. */
  ghost predicate InertBranch(b: Node)
    requires WellShaped(b)
    decreases b, 3
  {
    forall i :: 0 <= i < |b.kids| ==> InertStatement(b.kids[i])
  }

  /**
   * A statement the walk copies through: no call statement, no recognised
   * loop, a name for every line, lines without calls or function values, and
   * inert branches below it.
   */
  ghost predicate InertStatement(st: Node)
    requires WellShaped(st)
    decreases st, 2
  {
    if st.kind == CALL then false
    else if st.kind == FOR then InertLoop(st)
    else if st.kind == VAR then InertDeclaration(st) && InertAttrs(st)
    else if st.kind == SEMICOLON then InertLine(st)
    else if st.kind == SWITCH then InertCases(st) && InertAttrs(st)
    else InertAttrs(st)
  }

  /** A loop `unloopFor` does not recognise, with an inert body. */
  ghost predicate InertLoop(st: Node)
    requires WellShaped(st)
    decreases st, 1
  {
    ParseLoop(st, true) == Done(None) && st.body.Some? && InertBranch(st.body.value)
  }

  /** A declaration whose initializer, if any, is named and has no calls. */
  predicate InertDeclaration(st: Node)
    requires WellShaped(st) && st.kind == VAR
  {
    var decl := st.kids[0];
    assert WellShaped(decl);
    decl.initializer.Some? ==> CrawlIdentifier(decl).Done? && CallFree(decl.initializer.value)
  }

  /** An expression statement that is named and has no calls. */
  predicate InertLine(st: Node)
    requires WellShaped(st)
  {
    st.expression.Some? ==>
      var e := st.expression.value;
      assert WellShaped(e);
      (e.kind == ASSIGN ==> CrawlIdentifier(e.kids[0]).Done?) && CallFree(e)
  }

  ghost predicate InertCases(st: Node)
    requires WellShaped(st)
    decreases st, 1
  {
    forall i :: 0 <= i < |st.cases| ==> InertCase(st.cases[i])
  }

  ghost predicate InertCase(c: Node)
    requires WellShaped(c)
    decreases c, 0
  {
    c.statements.Some? && InertBranch(c.statements.value)
  }

  ghost predicate InertAttrs(st: Node)
    requires WellShaped(st)
    decreases st, 0
  {
    && (st.thenPart.Some? ==> InertBranch(st.thenPart.value))
    && (st.elsePart.Some? ==> InertBranch(st.elsePart.value))
    && (st.expression.Some? ==> InertBranch(st.expression.value))
    && (st.body.Some? ==> InertBranch(st.body.value))
    && (st.initializer.Some? ==> InertBranch(st.initializer.value))
  }

  /** The offsets the walk moves its cursor to, in order. */
  function BranchMarks(w: World, b: Node): seq<nat>
    requires WellShaped(b)
    decreases b, 1, 0
  {
    StatementsMarks(w, b, 0) + [BranchEnd(w, b)]
  }

  function StatementsMarks(w: World, b: Node, i: nat): seq<nat>
    requires WellShaped(b)
    decreases b, 0, |b.kids| - i
  {
    if i >= |b.kids| then [] else StatementMarks(w, b.kids[i]) + StatementsMarks(w, b, i + 1)
  }

  function StatementMarks(w: World, st: Node): seq<nat>
    requires WellShaped(st)
    decreases st, 1, 0
  {
    if st.kind == VAR then (if st.kids[0].initializer.Some? then [st.start] else []) + AttrsMarks(w, st, 0)
    else if st.kind == SEMICOLON then (if st.expression.Some? then [st.start] else [])
    else if st.kind == FOR then (if st.body.Some? then BranchMarks(w, st.body.value) else [])
    else if st.kind == SWITCH then CasesMarks(w, st, 0) + AttrsMarks(w, st, 0)
    else if st.kind == CALL then []
    else AttrsMarks(w, st, 0)
  }

  function AttrsMarks(w: World, st: Node, i: nat): seq<nat>
    requires WellShaped(st) && i <= 5
    decreases st, 0, 5 - i
  {
    if i == 5 then []
    else
      var child := BodyRewriter.ChildAttrs(st)[i];
      (if child.Some? then BranchMarks(w, child.value) else []) + AttrsMarks(w, st, i + 1)
  }

  function CasesMarks(w: World, st: Node, i: nat): seq<nat>
    requires WellShaped(st)
    decreases st, 0, |st.cases| - i
  {
    if i >= |st.cases| then []
    else
      var c := st.cases[i];
      assert WellShaped(c);
      (if c.statements.Some? then BranchMarks(w, c.statements.value) else []) + CasesMarks(w, st, i + 1)
  }

  /** Starting at `a`, the marks never go back and stay within `top`. */
  predicate Climbs(a: nat, ms: seq<nat>, top: nat)
    decreases |ms|
  {
    if ms == [] then a <= top else a <= ms[0] && Climbs(ms[0], ms[1..], top)
  }

  /** Where the cursor ends up: the last mark, or `a` when there is none. */
  function Reach(a: nat, ms: seq<nat>): nat
  {
    if ms == [] then a else ms[|ms| - 1]
  }

  lemma {:induction false} ClimbsAppend(a: nat, m1: seq<nat>, m2: seq<nat>, top: nat)
    ensures Climbs(a, m1 + m2, top) <==> Climbs(a, m1, top) && Climbs(Reach(a, m1), m2, top)
    ensures Reach(a, m1 + m2) == Reach(Reach(a, m1), m2)
    decreases |m1|
  {
    if m1 == [] {
      assert m1 + m2 == m2;
      if Climbs(a, m2, top) {
        ClimbsBelow(a, m2, top);
      }
    } else {
      assert (m1 + m2)[1..] == m1[1..] + m2;
      assert Reach(a, m1) == Reach(m1[0], m1[1..]);
      ClimbsAppend(m1[0], m1[1..], m2, top);
    }
  }

  lemma {:induction false} ClimbsBelow(a: nat, ms: seq<nat>, top: nat)
    requires Climbs(a, ms, top)
    ensures a <= top
    decreases |ms|
  {
    if ms != [] {
      ClimbsBelow(ms[0], ms[1..], top);
    }
  }

  /** The output so far is exactly the snippet up to the cursor. */
  predicate Faithful(w: World, s: CState)
  {
    !s.raised && s.off <= |w.text| && Concat(s.out) == w.text[..s.off]
  }

  /** Copying the text up to `x` keeps the output faithful. */
  lemma Emit(w: World, s: CState, x: nat)
    requires Faithful(w, s) && s.off <= x <= |w.text|
    ensures Concat(s.out + [Slice(w.text, s.off, x)]) == w.text[..x]
  {
    ConcatAppend(s.out, [Slice(w.text, s.off, x)]);
    assert Concat([Slice(w.text, s.off, x)]) == Concat([]) + Slice(w.text, s.off, x);
    assert w.text[..x] == w.text[..s.off] + w.text[s.off..x];
  }

  lemma {:induction false} BranchKeepsText(w: World, mem: Mem, v: View, s: CState, b: Node)
    requires Fits(w, mem) && ViewIn(v, mem) && WellShaped(b) && InertBranch(b)
    requires Faithful(w, s) && Climbs(s.off, BranchMarks(w, b), |w.text|)
    ensures Faithful(w, Branch(w, mem, v, s, b))
    ensures Branch(w, mem, v, s, b).off == Reach(s.off, BranchMarks(w, b))
    decreases b, 1, 0
  {
    var sm := StatementsMarks(w, b, 0);
    ClimbsAppend(s.off, sm, [BranchEnd(w, b)], |w.text|);
    StatementsKeepText(w, mem, v, s, b, 0);
    var s1 := Statements(w, mem, v, s, b, 0);
    Emit(w, s1, BranchEnd(w, b));
  }

  lemma {:induction false} StatementsKeepText(w: World, mem: Mem, v: View, s: CState, b: Node, i: nat)
    requires Fits(w, mem) && ViewIn(v, mem) && WellShaped(b) && InertBranch(b)
    requires Faithful(w, s) && Climbs(s.off, StatementsMarks(w, b, i), |w.text|)
    ensures Faithful(w, Statements(w, mem, v, s, b, i))
    ensures Statements(w, mem, v, s, b, i).off == Reach(s.off, StatementsMarks(w, b, i))
    decreases b, 0, |b.kids| - i
  {
    if i < |b.kids| {
      var st := b.kids[i];
      assert WellShaped(st) && InertStatement(st);
      ClimbsAppend(s.off, StatementMarks(w, st), StatementsMarks(w, b, i + 1), |w.text|);
      StatementKeepsText(w, mem, v, s, st);
      StatementsKeepText(w, mem, v, Statement(w, mem, v, s, st), b, i + 1);
    }
  }

  lemma {:induction false} StatementKeepsText(w: World, mem: Mem, v: View, s: CState, st: Node)
    requires Fits(w, mem) && ViewIn(v, mem) && WellShaped(st) && InertStatement(st)
    requires Faithful(w, s) && Climbs(s.off, StatementMarks(w, st), |w.text|)
    ensures Faithful(w, Statement(w, mem, v, s, st))
    ensures Statement(w, mem, v, s, st).off == Reach(s.off, StatementMarks(w, st))
    decreases st, 1, 0
  {
    if st.kind == VAR {
      VarKeepsText(w, mem, v, s, st);
    } else if st.kind == SEMICOLON {
      ExpressionLineKeepsText(w, mem, v, s, st);
    } else if st.kind == FOR {
      ForKeepsText(w, mem, v, s, st);
    } else if st.kind == SWITCH {
      SwitchKeepsText(w, mem, v, s, st);
    } else {
      AttrsKeepText(w, mem, v, s, st, 0);
    }
  }

  /** An expression statement: its line, if it has an expression. */
  lemma ExpressionLineKeepsText(w: World, mem: Mem, v: View, s: CState, st: Node)
    requires Fits(w, mem) && ViewIn(v, mem) && WellShaped(st) && InertStatement(st) && st.kind == SEMICOLON
    requires Faithful(w, s) && Climbs(s.off, StatementMarks(w, st), |w.text|)
    ensures Faithful(w, ExpressionLine(w, mem, v, s, st))
    ensures ExpressionLine(w, mem, v, s, st).off == Reach(s.off, StatementMarks(w, st))
  {
    if st.expression.Some? {
      var e := st.expression.value;
      assert WellShaped(e);
      var name := if e.kind == ASSIGN then CrawlIdentifier(e.kids[0]) else Done(Some(st.value));
      LineKeepsText(w, mem, v, s, st.start, e, name.value, e.kind == ASSIGN);
    }
  }

  /** A loop `unloopFor` does not recognise: its body, walked as a branch. */
  lemma ForKeepsText(w: World, mem: Mem, v: View, s: CState, st: Node)
    requires Fits(w, mem) && ViewIn(v, mem) && WellShaped(st) && InertStatement(st) && st.kind == FOR
    requires Faithful(w, s) && Climbs(s.off, StatementMarks(w, st), |w.text|)
    ensures Faithful(w, ForLoop(w, mem, v, s, st))
    ensures ForLoop(w, mem, v, s, st).off == Reach(s.off, StatementMarks(w, st))
    decreases st, 0
  {
    assert Unloop(w.text, s, st, true) == (s, false);
    BranchKeepsText(w, mem, v, s, st.body.value);
  }

  /** A `var` statement: its line, then its attributes. */
  lemma VarKeepsText(w: World, mem: Mem, v: View, s: CState, st: Node)
    requires Fits(w, mem) && ViewIn(v, mem) && WellShaped(st) && InertStatement(st) && st.kind == VAR
    requires Faithful(w, s) && Climbs(s.off, StatementMarks(w, st), |w.text|)
    ensures Faithful(w, Attrs(w, mem, v, VarLine(w, mem, v, s, st), st, 0))
    ensures Attrs(w, mem, v, VarLine(w, mem, v, s, st), st, 0).off == Reach(s.off, StatementMarks(w, st))
    decreases st, 0, 6
  {
    var decl := st.kids[0];
    assert WellShaped(decl);
    var lm: seq<nat> := if decl.initializer.Some? then [st.start] else [];
    ClimbsAppend(s.off, lm, AttrsMarks(w, st, 0), |w.text|);
    var s1 := VarLine(w, mem, v, s, st);
    if decl.initializer.Some? {
      LineKeepsText(w, mem, v, s, st.start, decl.initializer.value, CrawlIdentifier(decl).value, true);
    }
    AttrsKeepText(w, mem, v, s1, st, 0);
  }

  /** A `switch` statement: its cases, then its attributes. */
  lemma SwitchKeepsText(w: World, mem: Mem, v: View, s: CState, st: Node)
    requires Fits(w, mem) && ViewIn(v, mem) && WellShaped(st) && InertStatement(st) && st.kind == SWITCH
    requires Faithful(w, s) && Climbs(s.off, StatementMarks(w, st), |w.text|)
    ensures Faithful(w, Attrs(w, mem, v, SwitchCases(w, mem, v, s, st, 0), st, 0))
    ensures Attrs(w, mem, v, SwitchCases(w, mem, v, s, st, 0), st, 0).off == Reach(s.off, StatementMarks(w, st))
    decreases st, 0, |st.cases| + 6
  {
    ClimbsAppend(s.off, CasesMarks(w, st, 0), AttrsMarks(w, st, 0), |w.text|);
    CasesKeepText(w, mem, v, s, st, 0);
    AttrsKeepText(w, mem, v, SwitchCases(w, mem, v, s, st, 0), st, 0);
  }

  /** A line without calls copies the text up to its start. */
  lemma LineKeepsText(w: World, mem: Mem, v: View, s: CState, start: nat, e: Node, name: Option<string>, usesReturn: bool)
    requires Fits(w, mem) && ViewIn(v, mem) && WellShaped(e) && CallFree(e)
    requires Faithful(w, s) && s.off <= start <= |w.text|
    ensures Faithful(w, Line(w, mem, v, s, start, e, name, usesReturn))
    ensures Line(w, mem, v, s, start, e, name, usesReturn).off == start
  {
    var s0 := CState(s.out + [Slice(w.text, s.off, start)], start, "", 0, false);
    ExpressionCallFree(w, mem, v, s0, e, name, usesReturn);
    Emit(w, s, start);
  }

  lemma {:induction false} AttrsKeepText(w: World, mem: Mem, v: View, s: CState, st: Node, i: nat)
    requires Fits(w, mem) && ViewIn(v, mem) && WellShaped(st) && InertAttrs(st) && i <= 5
    requires Faithful(w, s) && Climbs(s.off, AttrsMarks(w, st, i), |w.text|)
    ensures Faithful(w, Attrs(w, mem, v, s, st, i))
    ensures Attrs(w, mem, v, s, st, i).off == Reach(s.off, AttrsMarks(w, st, i))
    decreases st, 0, 5 - i
  {
    if i < 5 {
      AttrStep(w, mem, v, s, st, i);
      AttrsKeepText(w, mem, v, Attr(w, mem, v, s, st, i), st, i + 1);
    }
  }

  /** One attribute walked: the output stays faithful and the cursor is where the marks say. */
  lemma AttrStep(w: World, mem: Mem, v: View, s: CState, st: Node, i: nat)
    requires Fits(w, mem) && ViewIn(v, mem) && WellShaped(st) && InertAttrs(st) && i < 5
    requires Faithful(w, s) && Climbs(s.off, AttrsMarks(w, st, i), |w.text|)
    ensures Faithful(w, Attr(w, mem, v, s, st, i))
    ensures Climbs(Attr(w, mem, v, s, st, i).off, AttrsMarks(w, st, i + 1), |w.text|)
    ensures Reach(Attr(w, mem, v, s, st, i).off, AttrsMarks(w, st, i + 1)) == Reach(s.off, AttrsMarks(w, st, i))
    decreases st, 0, 0, 1
  {
    var child := BodyRewriter.ChildAttrs(st)[i];
    var cm := if child.Some? then BranchMarks(w, child.value) else [];
    ClimbsAppend(s.off, cm, AttrsMarks(w, st, i + 1), |w.text|);
    AttrKeepsText(w, mem, v, s, st, i);
  }

  lemma AttrKeepsText(w: World, mem: Mem, v: View, s: CState, st: Node, i: nat)
    requires Fits(w, mem) && ViewIn(v, mem) && WellShaped(st) && InertAttrs(st) && i < 5
    requires Faithful(w, s)
    requires var child := BodyRewriter.ChildAttrs(st)[i]; child.Some? ==> Climbs(s.off, BranchMarks(w, child.value), |w.text|)
    ensures Faithful(w, Attr(w, mem, v, s, st, i))
    ensures var child := BodyRewriter.ChildAttrs(st)[i];
            Attr(w, mem, v, s, st, i).off == Reach(s.off, if child.Some? then BranchMarks(w, child.value) else [])
    decreases st, 0, 0, 0
  {
    var child := BodyRewriter.ChildAttrs(st)[i];
    if child.Some? {
      BranchKeepsText(w, mem, v, s, child.value);
    }
  }

  lemma {:induction false} CasesKeepText(w: World, mem: Mem, v: View, s: CState, st: Node, i: nat)
    requires Fits(w, mem) && ViewIn(v, mem) && WellShaped(st) && InertCases(st)
    requires Faithful(w, s) && Climbs(s.off, CasesMarks(w, st, i), |w.text|)
    ensures Faithful(w, SwitchCases(w, mem, v, s, st, i))
    ensures SwitchCases(w, mem, v, s, st, i).off == Reach(s.off, CasesMarks(w, st, i))
    decreases st, 0, |st.cases| - i
  {
    if i < |st.cases| {
      var c := st.cases[i];
      assert WellShaped(c) && InertCase(c);
      ClimbsAppend(s.off, BranchMarks(w, c.statements.value), CasesMarks(w, st, i + 1), |w.text|);
      BranchKeepsText(w, mem, v, s, c.statements.value);
      assert ArmOf(w, mem, v, s, c) == Branch(w, mem, v, s, c.statements.value);
      CasesKeepText(w, mem, v, ArmOf(w, mem, v, s, c), st, i + 1);
    }
  }

  /**
   * Inlining a snippet with nothing to inline, whose cursor positions never
   * go back, gives the snippet up to the end of its parse tree: the whole
   * snippet when the tree has no end offset.
   */
  lemma InertSnippet(w: World, mem: Mem, v: View, script: Node)
    requires Fits(w, mem) && ViewIn(v, mem) && WellShaped(script) && InertBranch(script)
    requires Climbs(0, BranchMarks(w, script), |w.text|)
    ensures BranchEnd(w, script) <= |w.text|
    ensures Inlined(w, mem, v, script) == Done(w.text[..BranchEnd(w, script)])
    ensures script.end == 0 ==> Inlined(w, mem, v, script) == Done(w.text)
  {
    var s := CState([], 0, "", 0, false);
    assert Faithful(w, s);
    BranchKeepsText(w, mem, v, s, script);
    var ms := BranchMarks(w, script);
    assert Reach(0, ms) == BranchEnd(w, script);
    var r := Branch(w, mem, v, s, script);
    assert Inlined(w, mem, v, script) == Done(Concat(r.out));
    if script.end == 0 {
      assert w.text[..BranchEnd(w, script)] == w.text;
    }
  }

  // ---------------------------------------------------------------------------
  // Typed parameters
  // ---------------------------------------------------------------------------

  /**
   * After the typed parameters are bound, each of them holds a new copy of a
   * prototype in the top scope, and every other name of the top scope is as
   * it was.
   */
  lemma {:induction false} BindTypesSpec(w: World, mem: Mem, v: View, types: map<string, string>, ps: seq<string>)
    requires Fits(w, mem) && ViewIn(v, mem) && (forall i :: 0 <= i < |ps| ==> ps[i] in types)
    ensures forall i :: 0 <= i < |ps| ==> ps[i] in Top(BindTypes(w, mem, v, types, ps)) && Top(BindTypes(w, mem, v, types, ps))[ps[i]].Snap?
    ensures forall x :: x !in ps ==> (x in Top(BindTypes(w, mem, v, types, ps)) <==> x in Top(v))
    ensures forall x :: x !in ps && x in Top(v) ==> Top(BindTypes(w, mem, v, types, ps))[x] == Top(v)[x]
    decreases |ps|
  {
    if ps != [] {
      var p := ps[0];
      var v2 := BindType(w, mem, v, p, types[p]);
      BindTypesSpec(w, mem, v2, types, ps[1..]);
      var r := BindTypes(w, mem, v, types, ps);
      assert r == BindTypes(w, mem, v2, types, ps[1..]);
      forall i | 0 <= i < |ps|
        ensures ps[i] in Top(r) && Top(r)[ps[i]].Snap?
      {
        if i > 0 {
          assert ps[i] == ps[1..][i - 1];
        } else if p !in ps[1..] {
          assert Top(r)[p] == Top(v2)[p];
        }
      }
      forall x | x !in ps
        ensures x in Top(r) <==> x in Top(v)
        ensures x in Top(v) ==> Top(r)[x] == Top(v)[x]
      {
        assert x !in ps[1..] && x != p;
      }
    }
  }
}
