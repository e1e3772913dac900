/**
 * `inlineSingle`: the library's functions are crawled into a fresh
 * environment whose root (and `this`) is `window`, and then a `Crawler` walks
 * the snippet, copying its text and splicing in the inlined calls.
 *
 * The `Crawler` performs the walk on the real environment, pushing a scope
 * for every function it enters; each of its methods is proved to leave the
 * crawler in the state the matching function of module SnippetWalk
 * prescribes (or, once an exception is propagating, only to agree that one
 * is), and to leave the environment standing for the same view.
 */
module Inliner {
  import opened Common
  import opened PyText
  import opened JsAst
  import opened Paths
  import opened Environment
  import BodyRewriter
  import opened FunctionTypes
  import opened CallSites
  import opened Loops
  import opened SwitchGen
  import opened Views
  import opened SnippetWalk
  import LibraryCrawler
  import WalkFacts

  /** The crawler's state agrees with the prescribed one: both raise, or neither does and they are equal. */
  predicate Agrees(a: CState, b: CState)
  {
    a.raised == b.raised && (!b.raised ==> a == b)
  }

  /** One more statement walked: the remaining statements from the new state give the branch's result. */
  lemma StatementsAfter(w: World, mem: Mem, v: View, s0: CState, s: CState, t: CState, b: Node, i: nat)
    requires Fits(w, mem) && ViewIn(v, mem) && WellShaped(b) && i < |b.kids| && !s.raised
    requires Statements(w, mem, v, s, b, i) == Statements(w, mem, v, s0, b, 0)
    requires WellShaped(b.kids[i]) && Agrees(t, Statement(w, mem, v, s, b.kids[i]))
    ensures !t.raised ==> Statements(w, mem, v, t, b, i + 1) == Statements(w, mem, v, s0, b, 0)
    ensures t.raised ==> Statements(w, mem, v, s0, b, 0).raised
  {
  }

  /** One more part walked: the remaining parts from the new state give the expression's result. */
  lemma PiecesAfter(w: World, mem: Mem, v: View, s0: CState, s: CState, t: CState, e: Node, i: nat, name: Option<string>, usesReturn: bool)
    requires Fits(w, mem) && ViewIn(v, mem) && WellShaped(e) && i < |e.kids| && !s.raised
    requires Pieces(w, mem, v, s, e, i, name, usesReturn) == Pieces(w, mem, v, s0, e, 0, name, usesReturn)
    requires WellShaped(e.kids[i]) && Agrees(t, Piece(w, mem, v, s, e.kids[i], name, usesReturn))
    ensures !t.raised ==> Pieces(w, mem, v, t, e, i + 1, name, usesReturn) == Pieces(w, mem, v, s0, e, 0, name, usesReturn)
    ensures t.raised ==> Pieces(w, mem, v, s0, e, 0, name, usesReturn).raised
  {
  }

  /** One more copy of the loop body: the fragments produced so far grow by the copy, the tail and the separator. */
  lemma CopiesStep(os: seq<Outcome<string>>, tail: seq<string>, whole: Outcome<seq<string>>, done: seq<string>, c: string)
    requires os != [] && os[0] == Done(c)
    requires Continues(whole, done, Assemble(os, tail))
    ensures Continues(whole, done + [c] + tail + (if |os| > 1 then ["\n"] else []), Assemble(os[1..], tail))
  {
    var nl: seq<string> := if |os| > 1 then ["\n"] else [];
    var rest := Assemble(os[1..], tail);
    if rest.Done? {
      assert done + ([c] + tail + nl + rest.value) == done + [c] + tail + nl + rest.value;
    }
  }

  lemma ContinuesStart(whole: Outcome<seq<string>>)
    ensures Continues(whole, [], whole)
  {
    if whole.Done? {
      assert [] + whole.value == whole.value;
    }
  }

  /** A new object copying the members of what `r` stands for stands for the copy `SnapOf(r)`. */
  lemma CopyCorr(env: JSEnvironment, mem: Mem, from: JSObject?, r: Ref, o: JSObject)
    requires env.Valid() && MemOf(env, mem) && RefIn(r, mem) && Corr(mem, from, r)
    requires o.fn.None? && o.members == (if from == null then map[] else from.members)
    ensures Corr(mem, o, SnapOf(r))
  {
  }

  /** The view a function is walked in, for the view with its owner and a new scope pushed. */
  lemma FunctionViewIs(w: World, mem: Mem, v: View, f: Node, name: string, v1: View)
    requires Fits(w, mem) && ViewIn(v, mem) && ViewIn(v1, mem)
    requires v1 == PushScope(PushThis(v, Lookup(mem, w.root, v, DropLastSegment(name, '.'))))
    ensures var types := TypesOf(Split(Signature(w.text, f), ','), true);
            Enumerates(w.order(types.Keys), types.Keys)
    ensures var types := TypesOf(Split(Signature(w.text, f), ','), true);
            FunctionView(w, mem, v, f, name) == BindTypes(w, mem, v1, types, w.order(types.Keys))
  {
    KeysListed(w, TypesOf(Split(Signature(w.text, f), ','), true).Keys);
  }

  /** The view's scopes below the function's own are the caller's. */
  lemma ScopesBelow(v: View, v1: View, vf: View)
    requires v1.scopes == v.scopes + [map[]]
    requires |vf.scopes| == |v1.scopes| && Below(vf.scopes) == Below(v1.scopes)
    ensures Pushed(v.scopes, vf.scopes)
  {
    assert Below(v1.scopes) == v.scopes;
  }

  /**
   * The `Crawler` of `inlineSingle`.  `mem` is the snapshot of the library's
   * objects the walk starts from; the objects are never changed by the walk,
   * which only adds new ones and binds them in the scopes it pushes.
   */
  class Crawler {
    const text: string
    const libtext: string
    const env: JSEnvironment
    const order: set<string> -> seq<string>
    ghost const mem: Mem
    var output: seq<string>
    var inputoffset: nat
    var preput: string
    var callcount: nat
    var raised: bool

    function W(): World
    {
      World(text, libtext, env.root, order)
    }

    /** The environment is valid, its objects are the snapshot, and the snapshot fits the walk. */
    ghost predicate Inv()
      reads env, env.objs
    {
      env.Valid() && MemOf(env, mem) && Fits(W(), mem)
    }

    function State(): CState
      reads this
    {
      CState(output, inputoffset, preput, callcount, raised)
    }

    /** The fragments emitted so far, joined. */
    function GetOutput(): string
      reads this
    {
      Concat(output)
    }

    /** A crawler over a snippet and a library: the whole snippet is walked at construction. */
    constructor (inputtext: string, librarytext: string, env: JSEnvironment, order: set<string> -> seq<string>,
                 script: Node, ghost mem: Mem, ghost v: View)
      requires env.Valid() && MemOf(env, mem) && Fits(World(inputtext, librarytext, env.root, order), mem)
      requires ViewIn(v, mem) && EnvCorr(env, mem, v) && WellShaped(script)
      modifies env
      ensures this.env == env && this.mem == mem && W() == World(inputtext, librarytext, env.root, order)
      ensures Inv()
      ensures Agrees(State(), Branch(W(), mem, v, CState([], 0, "", 0, false), script))
    {
      text := inputtext;
      libtext := librarytext;
      this.env := env;
      this.order := order;
      this.mem := mem;
      output := [];
      inputoffset := 0;
      preput := "";
      callcount := 0;
      raised := false;
      new;
      WalkBranch(script, v);
    }

    // -------------------------------------------------------------------------
    // `walkbranch`
    // -------------------------------------------------------------------------

    method WalkBranch(b: Node, ghost v: View)
      requires Inv() && ViewIn(v, mem) && EnvCorr(env, mem, v) && WellShaped(b) && !raised
      modifies this, env
      ensures Inv()
      ensures !raised ==> env.thisStack == old(env.thisStack) && env.scopes == old(env.scopes) && EnvCorr(env, mem, v)
      ensures Agrees(State(), Branch(W(), mem, v, old(State()), b))
      decreases b, 6, 0
    {
      var end := BranchEnd(W(), b);
      WalkStatements(b, v);
      if raised {
        return;
      }
      ghost var s1 := State();
      output := output + [Slice(text, inputoffset, end)];
      inputoffset := end;
      assert State() == s1.(out := s1.out + [Slice(text, s1.off, end)], off := end);
    }

    /** The loop of `walkbranch` over the branch's statements. */
    method WalkStatements(b: Node, ghost v: View)
      requires Inv() && ViewIn(v, mem) && EnvCorr(env, mem, v) && WellShaped(b) && !raised
      modifies this, env
      ensures Inv()
      ensures !raised ==> env.thisStack == old(env.thisStack) && env.scopes == old(env.scopes) && EnvCorr(env, mem, v)
      ensures Agrees(State(), Statements(W(), mem, v, old(State()), b, 0))
      decreases b, 5, 0
    {
      ghost var s0 := State();
      var i := 0;
      while i < |b.kids| && !raised
        invariant 0 <= i <= |b.kids|
        invariant Inv()
        invariant !raised ==> env.thisStack == old(env.thisStack) && env.scopes == old(env.scopes) && EnvCorr(env, mem, v)
        invariant !raised ==> Statements(W(), mem, v, State(), b, i) == Statements(W(), mem, v, s0, b, 0)
        invariant raised ==> Statements(W(), mem, v, s0, b, 0).raised
      {
        ghost var s := State();
        assert WellShaped(b.kids[i]);
        WalkStatement(b.kids[i], v);
        StatementsAfter(W(), mem, v, s0, s, State(), b, i);
        i := i + 1;
      }
    }

    method WalkStatement(st: Node, ghost v: View)
      requires Inv() && ViewIn(v, mem) && EnvCorr(env, mem, v) && WellShaped(st) && !raised
      modifies this, env
      ensures Inv()
      ensures !raised ==> env.thisStack == old(env.thisStack) && env.scopes == old(env.scopes) && EnvCorr(env, mem, v)
      ensures Agrees(State(), Statement(W(), mem, v, old(State()), st))
      decreases st, 4, 0
    {
      if st.kind == VAR {
        WalkVar(st, v);
        if !raised {
          WalkAttrs(st, v);
        }
      } else if st.kind == SEMICOLON {
        WalkExpressionLine(st, v);
      } else if st.kind == CALL {
        // `self.replacefunction` does not exist: the attribute lookup raises.
        raised := true;
      } else if st.kind == FOR {
        WalkFor(st, v);
      } else if st.kind == SWITCH {
        WalkCases(st, v);
        if !raised {
          WalkAttrs(st, v);
        }
      } else {
        WalkAttrs(st, v);
      }
    }

    /** A `var` statement's first declarator, walked as a line if it has an initializer. */
    method WalkVar(st: Node, ghost v: View)
      requires Inv() && ViewIn(v, mem) && EnvCorr(env, mem, v) && WellShaped(st) && st.kind == VAR && !raised
      modifies this, env
      ensures Inv()
      ensures !raised ==> env.thisStack == old(env.thisStack) && env.scopes == old(env.scopes) && EnvCorr(env, mem, v)
      ensures Agrees(State(), VarLine(W(), mem, v, old(State()), st))
      decreases st, 3, 0
    {
      var decl := st.kids[0];
      assert WellShaped(decl);
      if decl.initializer.None? {
        return;
      }
      var name := CrawlIdentifier(decl);
      if name.Raised? {
        raised := true;
        return;
      }
      WalkLine(st.start, decl.initializer.value, name.value, true, v);
    }

    /** An expression statement, walked as a line. */
    method WalkExpressionLine(st: Node, ghost v: View)
      requires Inv() && ViewIn(v, mem) && EnvCorr(env, mem, v) && WellShaped(st) && !raised
      modifies this, env
      ensures Inv()
      ensures !raised ==> env.thisStack == old(env.thisStack) && env.scopes == old(env.scopes) && EnvCorr(env, mem, v)
      ensures Agrees(State(), ExpressionLine(W(), mem, v, old(State()), st))
      decreases st, 3, 0
    {
      if st.expression.None? {
        return;
      }
      var e := st.expression.value;
      assert WellShaped(e);
      var isAssign := e.kind == ASSIGN;
      var name := if isAssign then CrawlIdentifier(e.kids[0]) else Done(Some(st.value));
      if name.Raised? {
        raised := true;
        return;
      }
      WalkLine(st.start, e, name.value, isAssign, v);
    }

    /** A `for` statement: unrolled, or else its body walked. */
    method WalkFor(st: Node, ghost v: View)
      requires Inv() && ViewIn(v, mem) && EnvCorr(env, mem, v) && WellShaped(st) && !raised
      modifies this, env
      ensures Inv()
      ensures !raised ==> env.thisStack == old(env.thisStack) && env.scopes == old(env.scopes) && EnvCorr(env, mem, v)
      ensures Agrees(State(), ForLoop(W(), mem, v, old(State()), st))
      decreases st, 3, 0
    {
      var worked := UnloopFor(st);
      if raised || worked {
        return;
      }
      if st.body.None? {
        raised := true;
        return;
      }
      WalkBranch(st.body.value, v);
    }

    /** The cases of a `switch` statement, each walked as a branch. */
    method WalkCases(st: Node, ghost v: View)
      requires Inv() && ViewIn(v, mem) && EnvCorr(env, mem, v) && WellShaped(st) && !raised
      modifies this, env
      ensures Inv()
      ensures !raised ==> env.thisStack == old(env.thisStack) && env.scopes == old(env.scopes) && EnvCorr(env, mem, v)
      ensures Agrees(State(), SwitchCases(W(), mem, v, old(State()), st, 0))
      decreases st, 2, 0
    {
      ghost var s0 := State();
      var i := 0;
      while i < |st.cases| && !raised
        invariant 0 <= i <= |st.cases|
        invariant Inv()
        invariant !raised ==> env.thisStack == old(env.thisStack) && env.scopes == old(env.scopes) && EnvCorr(env, mem, v)
        invariant !raised ==> SwitchCases(W(), mem, v, State(), st, i) == SwitchCases(W(), mem, v, s0, st, 0)
        invariant raised ==> SwitchCases(W(), mem, v, s0, st, 0).raised
      {
        WalkCase(st.cases[i], v);
        i := i + 1;
      }
    }

    /** One case of a `switch`, walked as a branch. */
    method WalkCase(c: Node, ghost v: View)
      requires Inv() && ViewIn(v, mem) && EnvCorr(env, mem, v) && WellShaped(c) && !raised
      modifies this, env
      ensures Inv()
      ensures !raised ==> env.thisStack == old(env.thisStack) && env.scopes == old(env.scopes) && EnvCorr(env, mem, v)
      ensures Agrees(State(), ArmOf(W(), mem, v, old(State()), c))
      decreases c, 7, 0
    {
      if c.statements.None? {
        raised := true;
      } else {
        WalkBranch(c.statements.value, v);
      }
    }

    /** The attribute loop of `walkbranch`: each attribute present is walked as a branch. */
    method WalkAttrs(st: Node, ghost v: View)
      requires Inv() && ViewIn(v, mem) && EnvCorr(env, mem, v) && WellShaped(st) && !raised
      modifies this, env
      ensures Inv()
      ensures !raised ==> env.thisStack == old(env.thisStack) && env.scopes == old(env.scopes) && EnvCorr(env, mem, v)
      ensures Agrees(State(), Attrs(W(), mem, v, old(State()), st, 0))
      decreases st, 2, 0
    {
      ghost var s0 := State();
      var i := 0;
      while i < 5 && !raised
        invariant 0 <= i <= 5
        invariant Inv()
        invariant !raised ==> env.thisStack == old(env.thisStack) && env.scopes == old(env.scopes) && EnvCorr(env, mem, v)
        invariant !raised ==> Attrs(W(), mem, v, State(), st, i) == Attrs(W(), mem, v, s0, st, 0)
        invariant raised ==> Attrs(W(), mem, v, s0, st, 0).raised
      {
        WalkAttr(st, i, v);
        i := i + 1;
      }
    }

    /** The i-th attribute, walked as a branch if it is present. */
    method WalkAttr(st: Node, i: nat, ghost v: View)
      requires Inv() && ViewIn(v, mem) && EnvCorr(env, mem, v) && WellShaped(st) && i < 5 && !raised
      modifies this, env
      ensures Inv()
      ensures !raised ==> env.thisStack == old(env.thisStack) && env.scopes == old(env.scopes) && EnvCorr(env, mem, v)
      ensures Agrees(State(), Attr(W(), mem, v, old(State()), st, i))
      decreases st, 1, 0
    {
      var child := BodyRewriter.ChildAttrs(st)[i];
      if child.Some? {
        WalkBranch(child.value, v);
      }
    }

    /**
     * A line: the text before the statement is emitted, the call counter and
     * the hoisted text are reset, the expression is walked, and the hoisted
     * text goes in front of what the expression emitted.
     */
    method WalkLine(start: nat, e: Node, name: Option<string>, usesReturn: bool, ghost v: View)
      requires Inv() && ViewIn(v, mem) && EnvCorr(env, mem, v) && WellShaped(e) && !raised
      modifies this, env
      ensures Inv()
      ensures !raised ==> env.thisStack == old(env.thisStack) && env.scopes == old(env.scopes) && EnvCorr(env, mem, v)
      ensures Agrees(State(), Line(W(), mem, v, old(State()), start, e, name, usesReturn))
      decreases e, 4, 0
    {
      callcount := 0;
      preput := "";
      output := output + [Slice(text, inputoffset, start)];
      inputoffset := start;
      var index := |output|;
      ghost var s0 := State();
      WalkExpression(e, name, usesReturn, v);
      if !raised && |preput| > 0 {
        output := output[..index] + [preput] + output[index..];
      }
    }

    // -------------------------------------------------------------------------
    // `walkexpression`
    // -------------------------------------------------------------------------

    method WalkExpression(e: Node, name: Option<string>, usesReturn: bool, ghost v: View)
      requires Inv() && ViewIn(v, mem) && EnvCorr(env, mem, v) && WellShaped(e) && !raised
      modifies this, env
      ensures Inv()
      ensures !raised ==> env.thisStack == old(env.thisStack) && env.scopes == old(env.scopes) && EnvCorr(env, mem, v)
      ensures Agrees(State(), Expression(W(), mem, v, old(State()), e, name, usesReturn))
      decreases e, 3, 0
    {
      if e.kind == CALL {
        VisitCall(e, name, usesReturn, v);
      } else if e.kind == ASSIGN && e.kids[1].kind == FUNCTION {
        WalkFunction(e, name, v);
      } else {
        WalkPieces(e, name, usesReturn, v);
      }
    }

    /** The parts of an expression in turn: a call is replaced, a part with parts of its own is walked. */
    method WalkPieces(e: Node, name: Option<string>, usesReturn: bool, ghost v: View)
      requires Inv() && ViewIn(v, mem) && EnvCorr(env, mem, v) && WellShaped(e) && !raised
      modifies this, env
      ensures Inv()
      ensures !raised ==> env.thisStack == old(env.thisStack) && env.scopes == old(env.scopes) && EnvCorr(env, mem, v)
      ensures Agrees(State(), Pieces(W(), mem, v, old(State()), e, 0, name, usesReturn))
      decreases e, 2, 0
    {
      ghost var s0 := State();
      ghost var goal := Pieces(W(), mem, v, s0, e, 0, name, usesReturn);
      var i := 0;
      while i < |e.kids| && !raised
        invariant 0 <= i <= |e.kids|
        invariant Inv()
        invariant !raised ==> env.thisStack == old(env.thisStack) && env.scopes == old(env.scopes) && EnvCorr(env, mem, v)
        invariant !raised ==> Pieces(W(), mem, v, State(), e, i, name, usesReturn) == goal
        invariant raised ==> goal.raised
      {
        assert WellShaped(e.kids[i]);
        ghost var s := State();
        WalkPiece(e.kids[i], name, usesReturn, v);
        PiecesAfter(W(), mem, v, s0, s, State(), e, i, name, usesReturn);
        i := i + 1;
      }
      assert !raised ==> Pieces(W(), mem, v, State(), e, i, name, usesReturn) == State();
      assert Agrees(State(), goal);
    }

    /** One part of an expression: a call is replaced, a part with parts of its own is walked. */
    method WalkPiece(p: Node, name: Option<string>, usesReturn: bool, ghost v: View)
      requires Inv() && ViewIn(v, mem) && EnvCorr(env, mem, v) && WellShaped(p) && !raised
      modifies this, env
      ensures Inv()
      ensures !raised ==> env.thisStack == old(env.thisStack) && env.scopes == old(env.scopes) && EnvCorr(env, mem, v)
      ensures Agrees(State(), Piece(W(), mem, v, old(State()), p, name, usesReturn))
      decreases p, 5, 0
    {
      if p.kind == CALL {
        VisitCall(p, name, usesReturn, v);
      } else if |p.kids| > 0 {
        WalkExpression(p, name, usesReturn, v);
      }
    }

    /**
     * A function assigned to `name`: `this` is the object owning the name,
     * and a new scope binds each typed parameter to a copy of its type's
     * prototype before the body is walked.
     */
    method WalkFunction(e: Node, name: Option<string>, ghost v: View)
      requires Inv() && ViewIn(v, mem) && EnvCorr(env, mem, v) && WellShaped(e) && e.kind == ASSIGN && !raised
      modifies this, env
      ensures Inv()
      ensures !raised ==> env.thisStack == old(env.thisStack) && env.scopes == old(env.scopes) && EnvCorr(env, mem, v)
      ensures Agrees(State(), FunctionScope(W(), mem, v, old(State()), e, name))
      decreases e, 1, 0
    {
      var f := e.kids[1];
      assert WellShaped(f);
      if name.None? || f.body.None? {
        // both raise in the source (the scope push before a missing body is not observable)
        raised := true;
        return;
      }
      ghost var vf := EnterFunction(f, name.value, v);
      FunctionScopeIs(W(), mem, v, old(State()), e, name.value, vf);
      WalkBranch(f.body.value, vf);
      if raised {
        return;
      }
      LeaveFunction(v, vf);
    }

    /** `this` becomes the object owning `name`, and a new scope binds the typed parameters. */
    method EnterFunction(f: Node, name: string, ghost v: View) returns (ghost vf: View)
      requires Inv() && ViewIn(v, mem) && EnvCorr(env, mem, v) && WellShaped(f)
      modifies env
      ensures Inv() && ViewIn(vf, mem) && EnvCorr(env, mem, vf)
      ensures vf == FunctionView(W(), mem, v, f, name)
      ensures Pushed(v.thisStack, vf.thisStack) && Pushed(v.scopes, vf.scopes)
      ensures Pushed(old(env.thisStack), env.thisStack) && Pushed(old(env.scopes), env.scopes)
    {
      ghost var v1 := PushOwner(DropLastSegment(name, '.'), v);
      vf := BindSignature(f, v1);
      ScopesBelow(v, v1, vf);
      FunctionViewIs(W(), mem, v, f, name, v1);
    }

    /** `parsefunctiontypes` on the function's parameter list, each typed parameter then bound in the top scope. */
    method BindSignature(f: Node, ghost v1: View) returns (ghost vf: View)
      requires Inv() && ViewIn(v1, mem) && EnvCorr(env, mem, v1)
      modifies env
      ensures Inv() && ViewIn(vf, mem) && EnvCorr(env, mem, vf)
      ensures var types := TypesOf(Split(Signature(text, f), ','), true);
              OrderOk(order) && vf == BindTypes(W(), mem, v1, types, order(types.Keys))
      ensures vf.thisStack == v1.thisStack && |vf.scopes| == |v1.scopes| && Below(vf.scopes) == Below(v1.scopes)
      ensures env.thisStack == old(env.thisStack) && |env.scopes| == |old(env.scopes)|
      ensures Below(env.scopes) == Below(old(env.scopes))
    {
      var signature := Signature(text, f);
      var params := ParseFunctionTypes(signature);
      vf := BindTypedParams(signature, params, v1);
    }

    /** Makes what `parent` names the current `this` and opens a new scope. */
    method PushOwner(parent: string, ghost v: View) returns (ghost v1: View)
      requires Inv() && ViewIn(v, mem) && EnvCorr(env, mem, v)
      modifies env
      ensures Inv() && env.objs == old(env.objs) && ViewIn(v1, mem) && EnvCorr(env, mem, v1)
      ensures v1 == PushScope(PushThis(v, Lookup(mem, W().root, v, parent)))
      ensures env.thisStack == old(env.thisStack) + [old(env.Lookup(parent))]
      ensures env.scopes == old(env.scopes) + [map[]]
    {
      var parentobj := env.Get(parent);
      LookupCorr(env, mem, v, parent);
      ghost var pref := Lookup(mem, env.root, v, parent);
      StacksPush(env.objs, env.thisStack, env.scopes, mem, v, parentobj, pref);
      env.PushThis(parentobj);
      env.PushScope();
      v1 := PushScope(PushThis(v, pref));
    }

    /** The function's scope and `this` popped again. */
    method LeaveFunction(ghost v: View, ghost vf: View)
      requires Inv() && ViewIn(v, mem) && ViewIn(vf, mem) && EnvCorr(env, mem, vf)
      requires Pushed(v.thisStack, vf.thisStack) && Pushed(v.scopes, vf.scopes)
      modifies env
      ensures Inv() && env.objs == old(env.objs) && EnvCorr(env, mem, v)
      ensures env.thisStack == old(env.thisStack)[..|old(env.thisStack)| - 1]
      ensures env.scopes == old(env.scopes)[..|old(env.scopes)| - 1]
    {
      StacksPop(env.objs, env.thisStack, env.scopes, mem, v, vf);
      env.PopScope();
      var popped := env.PopThis();
    }

    /** The typed parameters, bound in turn in the top scope as `BindTypes` prescribes. */
    method BindTypedParams(signature: string, params: map<string, string>, ghost v1: View) returns (ghost vf: View)
      requires Inv() && ViewIn(v1, mem) && EnvCorr(env, mem, v1)
      requires params == TypesOf(Split(signature, ','), true)
      modifies env
      ensures Inv() && ViewIn(vf, mem) && EnvCorr(env, mem, vf)
      ensures OrderOk(order) && vf == BindTypes(W(), mem, v1, params, order(params.Keys))
      ensures env.thisStack == old(env.thisStack) && |env.scopes| == |old(env.scopes)|
      ensures Below(env.scopes) == Below(old(env.scopes))
    {
      KeysListed(W(), params.Keys);
      var ps := order(params.Keys);
      vf := v1;
      var i := 0;
      while i < |ps|
        invariant 0 <= i <= |ps|
        invariant Inv() && ViewIn(vf, mem) && EnvCorr(env, mem, vf)
        invariant env.thisStack == old(env.thisStack) && |env.scopes| == |old(env.scopes)|
        invariant Below(env.scopes) == Below(old(env.scopes))
        invariant BindTypes(W(), mem, vf, params, ps[i..]) == BindTypes(W(), mem, v1, params, ps)
      {
        var param := ps[i];
        assert param in params;
        TypedAreNames(Split(signature, ','), true, param);
        PlainIff(param);
        BindTypesStep(W(), mem, vf, params, ps, i);
        vf := BindTypedParam(param, params[param], vf);
        i := i + 1;
      }
    }

    /** Declares the parameter locally and binds it to a new object copying the members of its type's prototype. */
    method BindTypedParam(param: string, typ: string, ghost vi: View) returns (ghost vo: View)
      requires Inv() && ViewIn(vi, mem) && EnvCorr(env, mem, vi) && Plain(param)
      modifies env
      ensures Inv()
      ensures ViewIn(vo, mem)
      ensures EnvCorr(env, mem, vo)
      ensures vo == BindType(W(), mem, vi, param, typ)
      ensures env.thisStack == old(env.thisStack) && |env.scopes| == |old(env.scopes)|
      ensures Below(env.scopes) == Below(old(env.scopes))
    {
      ghost var vA := BindLocal(param, vi);
      var o;
      ghost var pref;
      o, pref := FromPrototype(typ + ".prototype", vA);
      vo := SetLocal(param, o, SnapOf(pref), vA);
    }

    /** A new object holding a copy of the members `name` resolves to. */
    method FromPrototype(name: string, ghost v: View) returns (o: JSObject, ghost pref: Ref)
      requires Inv() && ViewIn(v, mem) && EnvCorr(env, mem, v)
      modifies env
      ensures Inv() && EnvCorr(env, mem, v) && RefIn(pref, mem) && Corr(mem, o, SnapOf(pref))
      ensures pref == Lookup(mem, W().root, v, name)
      ensures fresh(o) && env.objs == old(env.objs) + {o}
      ensures env.thisStack == old(env.thisStack) && env.scopes == old(env.scopes)
    {
      var proto: JSObject?;
      proto, pref := GetPrototype(name, v);
      o := CopyPrototype(proto, pref, v);
    }

    /** Declares the parameter in the top scope, bound to nothing. */
    method BindLocal(param: string, ghost vi: View) returns (ghost vA: View)
      requires Inv() && ViewIn(vi, mem) && EnvCorr(env, mem, vi)
      modifies env
      ensures Inv() && env.objs == old(env.objs) && ViewIn(vA, mem) && EnvCorr(env, mem, vA)
      ensures vA == Bind(vi, param, Obj(null)) && param in env.Top()
      ensures env.thisStack == old(env.thisStack) && |env.scopes| == |old(env.scopes)|
      ensures Below(env.scopes) == Below(old(env.scopes))
    {
      StacksBind(env.objs, env.thisStack, env.scopes, mem, vi, param, null, Obj(null));
      env.CreateLocal(param);
      vA := Bind(vi, param, Obj(null));
    }

    /** Looks `name` up, with the reference the view resolves it to. */
    method GetPrototype(name: string, ghost v: View) returns (r: JSObject?, ghost ref: Ref)
      requires Inv() && ViewIn(v, mem) && EnvCorr(env, mem, v)
      ensures RefIn(ref, mem) && Corr(mem, r, ref) && r == env.Lookup(name)
      ensures ref == Lookup(mem, W().root, v, name)
    {
      r := env.Get(name);
      LookupCorr(env, mem, v, name);
      ref := Lookup(mem, env.root, v, name);
    }

    /** A new object holding a copy of the prototype's members. */
    method CopyPrototype(proto: JSObject?, ghost pref: Ref, ghost v: View) returns (o: JSObject)
      requires Inv() && ViewIn(v, mem) && EnvCorr(env, mem, v)
      requires RefIn(pref, mem) && Corr(mem, proto, pref) && env.Held(proto)
      modifies env
      ensures Inv() && EnvCorr(env, mem, v) && Corr(mem, o, SnapOf(pref))
      ensures fresh(o) && env.objs == old(env.objs) + {o}
      ensures env.thisStack == old(env.thisStack) && env.scopes == old(env.scopes)
    {
      ghost var objs0 := env.objs;
      o := env.NewObject(None, proto);
      CopyCorr(env, mem, proto, pref, o);
      StacksGrow(objs0, env.objs, env.thisStack, env.scopes, mem, v);
    }

    /** Rebinds a parameter the top scope declares. */
    method SetLocal(param: string, o: JSObject, ghost r: Ref, ghost vA: View) returns (ghost vo: View)
      requires Inv() && ViewIn(vA, mem) && EnvCorr(env, mem, vA) && Plain(param)
      requires o in env.objs && RefIn(r, mem) && Corr(mem, o, r) && param in env.Top()
      modifies env
      ensures Inv() && env.objs == old(env.objs) && ViewIn(vo, mem) && EnvCorr(env, mem, vo)
      ensures vo == Bind(vA, param, r)
      ensures env.thisStack == old(env.thisStack) && |env.scopes| == |old(env.scopes)|
      ensures Below(env.scopes) == Below(old(env.scopes))
    {
      StacksBind(env.objs, env.thisStack, env.scopes, mem, vA, param, o, r);
      env.SetInTop(param, o);
      vo := Bind(vA, param, r);
    }

    // -------------------------------------------------------------------------
    // Calls: `replacecall` and `replacecallswitch`
    // -------------------------------------------------------------------------

    /** A call met in a line named `name`: its temporary is numbered by the line's call counter. */
    method VisitCall(call: Node, name: Option<string>, usesReturn: bool, ghost v: View)
      requires Inv() && ViewIn(v, mem) && EnvCorr(env, mem, v) && WellShaped(call) && call.kind == CALL && !raised
      modifies this
      ensures State() == CallSite(W(), mem, v, old(State()), call, name, usesReturn)
    {
      if name.None? {
        raised := true;
        return;
      }
      var retname := if usesReturn then Some("ret" + name.value + IntToString(callcount)) else None;
      ReplaceCall(call, retname, usesReturn, v);
      if !raised {
        callcount := callcount + 1;
      }
    }

    method ReplaceCall(call: Node, retname: Option<string>, usesReturn: bool, ghost v: View)
      requires Inv() && ViewIn(v, mem) && EnvCorr(env, mem, v) && WellShaped(call) && call.kind == CALL && !raised
      modifies this
      ensures State() == Call(W(), mem, v, old(State()), call, retname, usesReturn)
    {
      if IsSwitchCall(call) {
        ReplaceCallSwitch(call, retname, usesReturn, v);
      } else {
        ReplaceDirect(call, retname, usesReturn, v);
      }
    }

    /** A direct call: the callee is looked up by its path, and a function found there is inlined. */
    method ReplaceDirect(call: Node, retname: Option<string>, usesReturn: bool, ghost v: View)
      requires Inv() && ViewIn(v, mem) && EnvCorr(env, mem, v) && WellShaped(call) && call.kind == CALL && !raised
      modifies this
      ensures State() == DirectCall(W(), mem, v, old(State()), call, retname, usesReturn)
    {
      var callee := call.kids[0];
      assert WellShaped(callee);
      var isCall := callee.kind == DOT && ValueIs(LastKid(callee), "call");
      var funname := CrawlIdentifier(callee);
      if funname.Raised? || funname.value.None? {
        raised := true;
        return;
      }
      ReplaceNamed(call, retname, usesReturn, isCall, funname.value.value, v);
    }

    /** `env.get` of the callee's path; a function found there is inlined. */
    method ReplaceNamed(call: Node, retname: Option<string>, usesReturn: bool, isCall: bool, path: string, ghost v: View)
      requires Inv() && ViewIn(v, mem) && EnvCorr(env, mem, v) && WellShaped(call) && call.kind == CALL && !raised
      modifies this
      ensures State() == DirectTo(W(), mem, v, old(State()), call, retname, usesReturn, isCall, path)
    {
      var lookupName := if isCall then Slice(path, 0, -5) else path;
      var fobj := env.Get(lookupName);
      LookupCorr(env, mem, v, lookupName);
      ghost var target := Lookup(mem, env.root, v, lookupName);
      CorrFacts(mem, fobj, target);
      if fobj == null || fobj.fn.None? {
        return;
      }
      FnShaped(W(), mem, target);
      InlineFunction(call, retname, usesReturn, isCall, path, fobj.fn.value);
    }

    /** The body of `f`, rewritten for this call site, put in place of the call. */
    method InlineFunction(call: Node, retname: Option<string>, usesReturn: bool, isCall: bool, funname: string, f: Node)
      requires WellShaped(call) && call.kind == CALL && WellShaped(f) && !raised
      modifies this
      ensures State() == InlineCall(W(), old(State()), call, retname, usesReturn, isCall, funname, f)
    {
      assert WellShaped(call.kids[1]);
      var arguments := Args(call.kids[1].kids);
      if arguments.Raised? {
        raised := true;
        return;
      }
      var args := arguments.value;
      if isCall && args == [] {
        // taking the first argument of an empty list raises
        raised := true;
        return;
      }
      var base := if isCall then map["this" := args[0]]
                  else if !Plain(funname) then map["this" := DropLastSegment(funname, '.')]
                  else map[];
      var rest := if isCall then args[1..] else args;
      if f.params.None? || f.body.None? {
        raised := true;
        return;
      }
      var replacements := BindParams(base, f.params.value, rest);
      RewriteBody(call, retname, usesReturn, f.body.value, replacements);
    }

    /** The body rewritten by a `functionreplacer` for this call site, then spliced in. */
    method RewriteBody(call: Node, retname: Option<string>, usesReturn: bool, body: Node, replacements: map<string, string>)
      requires WellShaped(body) && !raised
      modifies this
      ensures State() == InlineBody(W(), old(State()), call, retname, usesReturn, body, replacements)
    {
      var functionout := new BodyRewriter.Replacer(libtext, body, replacements, retname, false);
      if functionout.raised {
        assert BodyRewriter.Rewrite(libtext, body, replacements, retname, false).Raised?;
        raised := true;
        return;
      }
      assert BodyRewriter.Rewrite(libtext, body, replacements, retname, false) == Done(functionout.GetOutput());
      Splice(call, retname, usesReturn, functionout.needsRetVal, functionout.GetOutput());
    }

    /** The rewritten body in place of the call: hoisted behind the temporary, in parentheses, or alone. */
    method Splice(call: Node, retname: Option<string>, usesReturn: bool, needs: bool, body: string)
      requires needs ==> retname.Some?
      modifies this
      ensures State() == SpliceCall(W(), old(State()), call, retname, usesReturn, needs, body)
    {
      var before := Slice(text, inputoffset, call.start);
      if needs {
        preput := preput + body;
        output := output + [before, retname.value];
      } else if usesReturn {
        output := output + [before + "(", body + ")"];
      } else {
        output := output + [before, body];
      }
      inputoffset := call.end;
    }

    /** A call through `o[k]`: a `switch` over the members of `o`, one case per function member. */
    method ReplaceCallSwitch(call: Node, retname: Option<string>, usesReturn: bool, ghost v: View)
      requires Inv() && ViewIn(v, mem) && EnvCorr(env, mem, v) && WellShaped(call) && call.kind == CALL
      requires IsSwitchCall(call) && !raised
      modifies this
      ensures State() == SwitchCall(W(), mem, v, old(State()), call, retname, usesReturn)
    {
      var t := SwitchTarget(call);
      match t
      case Raised =>
        raised := true;
      case Done(target) =>
        SwitchOnTarget(call, retname, usesReturn, target, v);
    }

    /** Looks the switch's object up, then splices in the switch over its members. */
    method SwitchOnTarget(call: Node, retname: Option<string>, usesReturn: bool, t: SwitchRef, ghost v: View)
      requires Inv() && ViewIn(v, mem) && EnvCorr(env, mem, v) && WellShaped(call) && call.kind == CALL
      requires IsSwitchCall(call) && !raised
      modifies this
      ensures State() == SwitchOn(W(), mem, v, old(State()), call, retname, usesReturn, t)
    {
      var target := env.Get(t.objectname);
      LookupCorr(env, mem, v, t.objectname);
      ghost var obj := Lookup(mem, env.root, v, t.objectname);
      CorrFacts(mem, target, obj);
      if target == null {
        return;
      }
      CorrMembers(env, mem, target, obj);
      MembersShaped(W(), mem, obj);
      SwitchOverMembers(call, retname, usesReturn, t, target.members);
    }

    /** The switch over a resolved object's members, built and spliced in. */
    method SwitchOverMembers(call: Node, retname: Option<string>, usesReturn: bool, t: SwitchRef, m: map<string, JSObject?>)
      requires OrderOk(order) && WellShaped(call) && call.kind == CALL && IsSwitchCall(call) && !raised && ShapedMembers(m)
      modifies this
      ensures State() == SwitchOver(W(), old(State()), call, retname, usesReturn, t, m)
    {
      KeysListed(W(), m.Keys);
      var ks := order(m.Keys);
      var orig := OrigArgs(call.kids[1].kids);
      var ctx := SwitchCtx(libtext, retname, orig, t.viaCall, t.objectname);
      var sw := BuildSwitch(ctx, t.keyvariable, t.suffix, ks, m);
      if sw.Raised? {
        raised := true;
        return;
      }
      SwitchNeeds(ctx, t.keyvariable, t.suffix, ks, m, orig);
      SpliceSwitchCall(call, retname, usesReturn, sw.value.1, sw.value.0);
    }

    /** The switch in place of the call, or hoisted behind the temporary; a switch in place swallows a following `;` or space. */
    method SpliceSwitchCall(call: Node, retname: Option<string>, usesReturn: bool, needs: bool, sw: string)
      requires needs ==> retname.Some?
      modifies this
      ensures State() == SpliceSwitch(W(), old(State()), call, retname, usesReturn, needs, sw)
    {
      var before := Slice(text, inputoffset, call.start);
      if needs {
        preput := preput + sw + "\n";
        output := output + [before, retname.value];
        inputoffset := call.end;
      } else {
        if !usesReturn {
          output := output + [before, sw];
        }
        var o1 := call.end + 1;
        inputoffset := if o1 < |text| && (text[o1] == ';' || text[o1] == ' ') then o1 + 1 else o1;
      }
    }

    // -------------------------------------------------------------------------
    // `unloopFor`
    // -------------------------------------------------------------------------

    /**
     * Unrolls a recognised counting loop that stops within 60 runs: the text
     * before the loop, then one rewritten copy of the body per run, each
     * followed by the tail of the body and all but the last by a newline.
     */
    method UnloopFor(loop: Node) returns (worked: bool)
      requires WellShaped(loop) && !raised
      modifies this
      ensures var u := Unloop(text, old(State()), loop, true);
              raised == u.0.raised && (!raised ==> State() == u.0 && worked == u.1)
    {
      var parsed := ParseLoop(loop, true);
      if parsed.Raised? {
        raised := true;
        return false;
      }
      if parsed.value.None? {
        return false;
      }
      var l := parsed.value.value;
      var iterations := CountIterations(l);
      if iterations >= MaxIterations {
        return false;
      }
      output := output + [Slice(text, inputoffset, loop.start)];
      if loop.body.None? {
        // `loop.body.end` on a missing body
        raised := true;
        return false;
      }
      var body := loop.body.value;
      assert WellShaped(body);
      inputoffset := body.end;
      OutsAreCopies(text, body, l, iterations);
      Unroll(loop, body, l, iterations, Tail(text, loop, body), Outs(text, body, l, iterations), Copies(text, loop, body, l, iterations));
      worked := true;
    }

    /** The loop body rewritten with `i` bound to the current value, no temporary and no forcing. */
    method CopyBody(body: Node, l: Loop, ghost k: nat, cur: int, ghost os: seq<Outcome<string>>) returns (r: Outcome<string>)
      requires WellShaped(body) && cur == Value(l, k)
      requires CopiesOf(text, body, l, os) && k < |os|
      ensures r == os[k]
    {
      var bodyout := new BodyRewriter.Replacer(text, body, map["i" := IntToString(cur)], None, false);
      r := if bodyout.raised then Raised else Done(bodyout.GetOutput());
      assert r == Copy(text, body, l, k);
    }

    /** The copies of the body for a loop that runs n times, appended to the output. */
    method Unroll(loop: Node, body: Node, l: Loop, n: nat, tail: seq<string>,
                  ghost os: seq<Outcome<string>>, ghost whole: Outcome<seq<string>>)
      requires WellShaped(body) && !raised && n == Runs(l) && n < MaxIterations
      requires |os| == n && CopiesOf(text, body, l, os) && whole == Assemble(os, tail)
      modifies this
      ensures raised == whole.Raised?
      ensures !raised ==> output == old(output) + whole.value
      ensures inputoffset == old(inputoffset) && preput == old(preput) && callcount == old(callcount)
    {
      ghost var out0 := output;
      ghost var done: seq<string> := [];
      ghost var k: nat := 0;
      var cur := l.start;
      ContinuesStart(whole);
      assert os[0..] == os;
      while !Stops(l, cur)
        invariant k <= n && cur == Value(l, k)
        invariant output == out0 + done && !raised
        invariant inputoffset == old(inputoffset) && preput == old(preput) && callcount == old(callcount)
        invariant Continues(whole, done, Assemble(os[k..], tail))
        decreases n - k
      {
        var copy := CopyBody(body, l, k, cur, os);
        ghost var added;
        cur, added := UnrollStep(k, n, l, cur, copy, tail, os, whole, done);
        if raised {
          return;
        }
        done := done + added;
        k := k + 1;
      }
    }

    /** Run k of the unrolled loop: its copy of the body, the tail, and a newline unless it is the last run. */
    method UnrollStep(ghost k: nat, n: nat, l: Loop, cur: int, copy: Outcome<string>, tail: seq<string>,
                      ghost os: seq<Outcome<string>>, ghost whole: Outcome<seq<string>>, ghost done: seq<string>)
      returns (next: int, ghost added: seq<string>)
      requires !raised && n == Runs(l) && n < MaxIterations && |os| == n
      requires k <= n && cur == Value(l, k) && !Stops(l, cur) && copy == os[k]
      requires Continues(whole, done, Assemble(os[k..], tail))
      modifies this
      ensures raised ==> whole.Raised?
      ensures !raised ==> next == Value(l, k + 1) && k + 1 <= n
      ensures !raised ==> output == old(output) + added && Continues(whole, done + added, Assemble(os[k + 1..], tail))
      ensures inputoffset == old(inputoffset) && preput == old(preput) && callcount == old(callcount)
    {
      assert k < n;
      assert os[k..][0] == os[k] && os[k..][1..] == os[k + 1..];
      if copy.Raised? {
        raised := true;
        return cur, [];
      }
      var c := copy.value;
      CopiesStep(os[k..], tail, whole, done, c);
      next := cur + l.step;
      assert next == Value(l, k + 1);
      var nl: seq<string> := if !Stops(l, next) then ["\n"] else [];
      assert nl == if k + 1 < n then ["\n"] else [];
      output := output + [c] + tail + nl;
      added := [c] + tail + nl;
      assert done + added == done + [c] + tail + nl;
    }
  }

  /**
   * `inlineSingle(inputtext, librarytext)` on the parsed library and
   * snippet: the library is crawled into an environment rooted at `window`,
   * and the snippet's walk is the one of module SnippetWalk over the
   * objects the crawl built, with `window` as `this` and one scope.  A
   * snippet without calls, functions, loops or switches comes back unchanged.
   */
  method InlineSingle(inputtext: string, librarytext: string, library: Node, script: Node, order: set<string> -> seq<string>)
    returns (r: Outcome<string>, ghost w: World, ghost mem: Mem, ghost v: View, ghost crawled: bool)
    requires OrderOk(order) && WellShaped(library) && WellShaped(script)
    ensures Fits(w, mem) && ViewIn(v, mem)
    ensures w.text == inputtext && w.libtext == librarytext && w.order == order
    ensures r == if crawled then Inlined(w, mem, v, script) else Raised
    ensures crawled ==> v.thisStack == [Obj(w.root)] && |v.scopes| == 1
    ensures (crawled && WalkFacts.InertBranch(script) && script.end == 0
             && WalkFacts.Climbs(0, WalkFacts.BranchMarks(w, script), |inputtext|)) ==> r == Done(inputtext)
  {
    var window := new JSObject(None, null, map[]);
    window.SetItem("window", window);
    var env := new JSEnvironment(window, window, {window});
    var ok := LibraryCrawler.CrawlFunctions(env, library);
    crawled := ok;
    ViewOfCorr(env);
    mem := Snapshot(env);
    v := ViewOf(env);
    w := World(inputtext, librarytext, env.root, order);
    if !ok {
      r := Raised;
      return;
    }
    var crawler := new Crawler(inputtext, librarytext, env, order, script, mem, v);
    if crawler.raised {
      r := Raised;
    } else {
      r := Done(crawler.GetOutput());
    }
    if WalkFacts.InertBranch(script) && WalkFacts.Climbs(0, WalkFacts.BranchMarks(w, script), |inputtext|) && script.end == 0 {
      WalkFacts.InertSnippet(w, mem, v, script);
    }
  }
}
