/**
 * The crawler of `inlineSingle`: the walk over the snippet's parse tree that
 * copies the snippet text and splices in, at every call it can resolve, the
 * callee's body rewritten for that call site (or a `switch` over the members
 * of an object indexed by a key), and that unrolls counting `for` loops.
 *
 * The walk is specified here as functions over a state (`CState`).  The
 * environment only ever changes by pushing and popping, so it appears as a
 * `View` over a snapshot of the library's objects; the `Crawler` class of
 * module Inliner performs the walk on the real environment and is proved to
 * follow these functions.  Once an exception is propagating every step leaves
 * the state alone.
 */
module SnippetWalk {
  import opened Common
  import opened PyText
  import opened JsAst
  import opened Paths
  import opened Environment
  import BodyRewriter
  import opened FunctionTypes
  import opened CallSites
  import opened Loops
  import opened SwitchGen
  import opened Views

  /** The fixed inputs of the walk: the snippet text, the library text, the root object and the order dictionaries list their keys in. */
  datatype World = World(text: string, libtext: string, root: JSObject, order: set<string> -> seq<string>)

  /** `ks` lists the elements of `s`, each once. */
  predicate Enumerates(ks: seq<string>, s: set<string>)
  {
    |ks| == |s| && (forall i :: 0 <= i < |ks| ==> ks[i] in s) && (forall k :: k in s ==> k in ks)
  }

  /** `d.keys()` lists every key of a dictionary once, in an order the model does not fix. */
  ghost predicate OrderOk(order: set<string> -> seq<string>)
  {
    forall s :: Enumerates(order(s), s)
  }

  /** The snapshot is closed, holds the root, and holds only well-shaped function nodes. */
  ghost predicate Fits(w: World, mem: Mem)
  {
    && w.root in mem && ClosedSet(mem)
    && (forall o :: o in mem && o.fn.Some? ==> WellShaped(o.fn.value))
    && OrderOk(w.order)
  }

  /**
   * The crawler's state: the fragments emitted so far, the copy cursor into
   * the snippet, the text to hoist in front of the current statement, the
   * calls numbered so far in that statement, and whether an exception is
   * propagating.
   */
  datatype CState = CState(out: seq<string>, off: nat, preput: string, count: nat, raised: bool)

  function Fail(s: CState): CState
  {
    s.(raised := true)
  }

  lemma FnShaped(w: World, mem: Mem, r: Ref)
    requires Fits(w, mem) && RefIn(r, mem) && Fn(r).Some?
    ensures WellShaped(Fn(r).value)
  {
  }

  lemma MembersShaped(w: World, mem: Mem, r: Ref)
    requires Fits(w, mem) && RefIn(r, mem)
    ensures ShapedMembers(Members(mem, r))
  {
  }

  lemma KeysListed(w: World, s: set<string>)
    requires OrderOk(w.order)
    ensures Enumerates(w.order(s), s)
  {
  }

  // ---------------------------------------------------------------------------
  // Call sites: `replacecall` and `replacecallswitch`
  // ---------------------------------------------------------------------------

  /** A call through a computed member, `o[k](...)` or `o[k].m(...)`, goes to the switch generator. */
  predicate IsSwitchCall(call: Node)
    requires WellShaped(call) && call.kind == CALL
  {
    var callee := call.kids[0];
    assert WellShaped(callee);
    callee.kind == INDEX || (callee.kind == DOT && callee.kids[0].kind == INDEX)
  }

  /**
   * The call's text replaced by the inlined body: by the temporary's name
   * (the body being hoisted in front of the statement), by the body in
   * parentheses when the value is used, or by the body alone.
   */
  function SpliceCall(w: World, s: CState, call: Node, retname: Option<string>, usesReturn: bool, needs: bool, body: string): (r: CState)
    requires needs ==> retname.Some?
    ensures s.out <= r.out && r.raised == s.raised && r.count == s.count
  {
    var before := Slice(w.text, s.off, call.start);
    if needs then s.(out := s.out + [before, retname.value], off := call.end, preput := s.preput + body)
    else if usesReturn then s.(out := s.out + [before + "(", body + ")"], off := call.end)
    else s.(out := s.out + [before, body], off := call.end)
  }

  /**
   * Inlining a resolved function `f` at `call`: `this` is the first argument
   * of `f.call(...)`, else the callee's path up to its last dot (if it has
   * one); the parameters are bound to the argument texts.
   */
  function InlineCall(w: World, s: CState, call: Node, retname: Option<string>, usesReturn: bool,
                      isCall: bool, funname: string, f: Node): (r: CState)
    requires WellShaped(call) && call.kind == CALL && WellShaped(f) && !s.raised
    ensures s.out <= r.out && r.count == s.count
  {
    var argNodes := call.kids[1].kids;
    assert WellShaped(call.kids[1]);
    match Args(argNodes)
    case Raised => Fail(s)
    case Done(args) =>
      if isCall && args == [] then Fail(s)
      else if f.params.None? || f.body.None? then Fail(s)
      else
        var base := if isCall then map["this" := args[0]]
                    else if !Plain(funname) then map["this" := DropLastSegment(funname, '.')]
                    else map[];
        var rest := if isCall then args[1..] else args;
        InlineBody(w, s, call, retname, usesReturn, f.body.value, Bindings(base, f.params.value, rest))
  }

  /** The callee's body rewritten with the replacement dictionary, spliced in place of the call. */
  function InlineBody(w: World, s: CState, call: Node, retname: Option<string>, usesReturn: bool,
                      body: Node, repl: map<string, string>): (r: CState)
    requires WellShaped(body)
    ensures s.out <= r.out && r.count == s.count
  {
    match BodyRewriter.Rewrite(w.libtext, body, repl, retname, false)
    case Raised => Fail(s)
    case Done(out) => SpliceCall(w, s, call, retname, usesReturn, BodyRewriter.NeedsRetVal(body, retname, false), out)
  }

  /** `replacecall` for a direct call: a callee that does not resolve to a function is left as it is. */
  function DirectCall(w: World, mem: Mem, v: View, s: CState, call: Node, retname: Option<string>, usesReturn: bool): (r: CState)
    requires Fits(w, mem) && ViewIn(v, mem) && WellShaped(call) && call.kind == CALL && !s.raised
    ensures s.out <= r.out && r.count == s.count
  {
    var callee := call.kids[0];
    assert WellShaped(callee);
    var isCall := callee.kind == DOT && ValueIs(LastKid(callee), "call");
    match CrawlIdentifier(callee)
    case Raised => Fail(s)
    case Done(p) =>
      if p.None? then Fail(s)
      else DirectTo(w, mem, v, s, call, retname, usesReturn, isCall, p.value)
  }

  /** The callee's path looked up (without its `.call` suffix), and a function found there inlined. */
  function DirectTo(w: World, mem: Mem, v: View, s: CState, call: Node, retname: Option<string>, usesReturn: bool, isCall: bool, path: string): (r: CState)
    requires Fits(w, mem) && ViewIn(v, mem) && WellShaped(call) && call.kind == CALL && !s.raised
    ensures s.out <= r.out && r.count == s.count
  {
    var target := Lookup(mem, w.root, v, if isCall then Slice(path, 0, -5) else path);
    if Fn(target).None? then s
    else
      FnShaped(w, mem, target);
      InlineCall(w, s, call, retname, usesReturn, isCall, path, Fn(target).value)
  }

  /**
   * The switch statement put in place of the call, or hoisted with the
   * temporary's name in its place.  A switch that needs no temporary also
   * swallows the call's closing character and a following `;` or space; when
   * the value is used it is dropped (a case the source reports as impossible).
   */
  function SpliceSwitch(w: World, s: CState, call: Node, retname: Option<string>, usesReturn: bool, needs: bool, sw: string): (r: CState)
    requires needs ==> retname.Some?
    ensures s.out <= r.out && r.raised == s.raised && r.count == s.count
  {
    var before := Slice(w.text, s.off, call.start);
    if needs then s.(out := s.out + [before, retname.value], off := call.end, preput := s.preput + sw + "\n")
    else
      var o1 := call.end + 1;
      s.(out := if usesReturn then s.out else s.out + [before, sw],
         off := if o1 < |w.text| && (w.text[o1] == ';' || w.text[o1] == ' ') then o1 + 1 else o1)
  }

  /** The names a switch call is built from: the indexed object, the key variable, the `.name` after the index and whether that name is `call`. */
  datatype SwitchRef = SwitchRef(objectname: string, keyvariable: string, suffix: string, viaCall: bool)

  /** The names of `o[k](...)` or `o[k].name(...)`; an exception when one cannot be crawled or the object has no name. */
  function SwitchTarget(call: Node): (r: Outcome<SwitchRef>)
    requires WellShaped(call) && call.kind == CALL && IsSwitchCall(call)
  {
    var callee := call.kids[0];
    assert WellShaped(callee);
    var dotted := callee.kind == DOT && callee.kids[0].kind == INDEX;
    var idx := if dotted then callee.kids[0] else callee;
    assert WellShaped(idx) && idx.kind == INDEX;
    var on := CrawlIdentifier(idx.kids[0]);
    var kv := CrawlIdentifier(idx.kids[1]);
    var nc := if !dotted then Done("")
              else match CrawlIdentifier(callee.kids[1])
                case Done(Some(x)) => Done("." + x)
                case _ => Raised;
    if on.Raised? || kv.Raised? || nc.Raised? || on.value.None? then Raised
    else
      var keyvariable := if kv.value.None? then "None" else kv.value.value;
      var viaCall := dotted && ValueIs(callee.kids[1], "call");
      Done(SwitchRef(on.value.value, keyvariable, nc.value, viaCall))
  }

  /** The switch over the members of the object `t` names; nothing to do when the name is unbound. */
  function SwitchOn(w: World, mem: Mem, v: View, s: CState, call: Node, retname: Option<string>, usesReturn: bool, t: SwitchRef): (r: CState)
    requires Fits(w, mem) && ViewIn(v, mem) && WellShaped(call) && call.kind == CALL && IsSwitchCall(call) && !s.raised
    ensures s.out <= r.out && r.count == s.count
  {
    var obj := Lookup(mem, w.root, v, t.objectname);
    if IsNull(obj) then s
    else
      MembersShaped(w, mem, obj);
      SwitchOver(w, s, call, retname, usesReturn, t, Members(mem, obj))
  }

  /** The switch over the members of the object the call's target names, spliced in place of the call. */
  function SwitchOver(w: World, s: CState, call: Node, retname: Option<string>, usesReturn: bool, t: SwitchRef, m: map<string, JSObject?>): (r: CState)
    requires OrderOk(w.order) && WellShaped(call) && call.kind == CALL && IsSwitchCall(call) && !s.raised && ShapedMembers(m)
    ensures s.out <= r.out && r.count == s.count
  {
    KeysListed(w, m.Keys);
    var ks := w.order(m.Keys);
    var orig := OrigArgs(call.kids[1].kids);
    var ctx := SwitchCtx(w.libtext, retname, orig, t.viaCall, t.objectname);
    match Switch(ctx, t.keyvariable, t.suffix, ks, m, orig)
    case Raised => Fail(s)
    case Done(sw) =>
      SwitchNeeds(ctx, t.keyvariable, t.suffix, ks, m, orig);
      SpliceSwitch(w, s, call, retname, usesReturn, sw.1, sw.0)
  }

  /**
   * `replacecallswitch`: the object is looked up by its path; an object that
   * is not there leaves the call as it is, and otherwise its members, in
   * dictionary order, become the cases.
   */
  function SwitchCall(w: World, mem: Mem, v: View, s: CState, call: Node, retname: Option<string>, usesReturn: bool): (r: CState)
    requires Fits(w, mem) && ViewIn(v, mem) && WellShaped(call) && call.kind == CALL && IsSwitchCall(call) && !s.raised
    ensures s.out <= r.out && r.count == s.count
  {
    match SwitchTarget(call)
    case Raised => Fail(s)
    case Done(t) => SwitchOn(w, mem, v, s, call, retname, usesReturn, t)
  }

  function Call(w: World, mem: Mem, v: View, s: CState, call: Node, retname: Option<string>, usesReturn: bool): (r: CState)
    requires Fits(w, mem) && ViewIn(v, mem) && WellShaped(call) && call.kind == CALL && !s.raised
    ensures s.out <= r.out && r.count == s.count
  {
    if IsSwitchCall(call) then SwitchCall(w, mem, v, s, call, retname, usesReturn)
    else DirectCall(w, mem, v, s, call, retname, usesReturn)
  }

  /**
   * A call met while walking a statement named `name`: its temporary is
   * `ret<name><k>` for the k-th call of the statement (none when the value
   * is not used), and an unnamed statement raises.
   */
  function CallSite(w: World, mem: Mem, v: View, s: CState, call: Node, name: Option<string>, usesReturn: bool): (r: CState)
    requires Fits(w, mem) && ViewIn(v, mem) && WellShaped(call) && call.kind == CALL
    ensures s.out <= r.out && (s.raised ==> r == s)
  {
    if s.raised then s
    else if name.None? then Fail(s)
    else
      var retname := if usesReturn then Some("ret" + name.value + IntToString(s.count)) else None;
      var s1 := Call(w, mem, v, s, call, retname, usesReturn);
      if s1.raised then s1 else s1.(count := s1.count + 1)
  }

  // ---------------------------------------------------------------------------
  // `unloopFor`
  // ---------------------------------------------------------------------------

  /** One copy of the body, with `i` replaced by the counter's value after k steps. */
  function Copy(text: string, body: Node, l: Loop, k: nat): Outcome<string>
    requires WellShaped(body)
  {
    BodyRewriter.Rewrite(text, body, map["i" := IntToString(Value(l, k))], None, false)
  }

  /** The text from the end of the body's last statement to just before the loop's end, emitted after each copy. */
  function Tail(text: string, loop: Node, body: Node): seq<string>
  {
    if |body.kids| > 0 then [Slice(text, EffEnd(LastKid(body)), loop.end - 1)] else []
  }

  /** The outcomes of the copies for counter steps 0, ..., n - 1, in order. */
  function Outs(text: string, body: Node, l: Loop, n: nat): (os: seq<Outcome<string>>)
    requires WellShaped(body)
    ensures |os| == n
  {
    seq(n, j requires 0 <= j < n => Copy(text, body, l, j))
  }

  /** Each outcome in os is the copy for its step (stated with the copy as trigger, so that it is used only where a copy is named). */
  predicate CopiesOf(text: string, body: Node, l: Loop, os: seq<Outcome<string>>)
    requires WellShaped(body)
  {
    forall j {:trigger Copy(text, body, l, j)} :: 0 <= j < |os| ==> os[j] == Copy(text, body, l, j)
  }

  lemma OutsAreCopies(text: string, body: Node, l: Loop, n: nat)
    requires WellShaped(body)
    ensures CopiesOf(text, body, l, Outs(text, body, l, n))
  {
  }

  /**
   * The fragments of a run of copies: each copy followed by the tail and,
   * all but the last, by a newline.  The first copy that raised makes the
   * whole raise.
   */
  function Assemble(os: seq<Outcome<string>>, tail: seq<string>): Outcome<seq<string>>
    decreases |os|
  {
    if os == [] then Done([])
    else
      match os[0]
      case Raised => Raised
      case Done(c) =>
        match Assemble(os[1..], tail)
        case Raised => Raised
        case Done(rest) => Done([c] + tail + (if |os| > 1 then ["\n"] else []) + rest)
  }

  /** The fragments that replace a loop that runs n times. */
  function Copies(text: string, loop: Node, body: Node, l: Loop, n: nat): Outcome<seq<string>>
    requires WellShaped(body)
  {
    Assemble(Outs(text, body, l, n), Tail(text, loop, body))
  }

  /**
   * `unloopFor`: the new state and whether the loop was unrolled.  A loop
   * that is not recognised, or that would run 60 times or more, is left to
   * the caller; an unrolled loop is replaced by its copies and the cursor
   * moves to the end of its body.  `asWritten` chooses the recognition of
   * the source as written (see `Loops.ParseLoop`).
   */
  function Unloop(text: string, s: CState, loop: Node, asWritten: bool): (r: (CState, bool))
    requires WellShaped(loop) && !s.raised
    ensures s.out <= r.0.out
    ensures r.0.raised ==> r.0 == Fail(s) && !r.1
    ensures !r.0.raised && !r.1 ==> r.0 == s
  {
    UnloopParsed(text, s, loop, ParseLoop(loop, asWritten))
  }

  /** `unloopFor` once the loop is analysed. */
  function UnloopParsed(text: string, s: CState, loop: Node, parsed: Outcome<Option<Loop>>): (r: (CState, bool))
    requires WellShaped(loop) && !s.raised
    ensures s.out <= r.0.out
    ensures r.0.raised ==> r.0 == Fail(s) && !r.1
    ensures !r.0.raised && !r.1 ==> r.0 == s
  {
    match parsed
    case Raised => (Fail(s), false)
    case Done(p) =>
      if p.None? || Runs(p.value) >= MaxIterations then (s, false)
      else if loop.body.None? then (Fail(s), false)
      else
        var body := loop.body.value;
        assert WellShaped(body);
        match Copies(text, loop, body, p.value, Runs(p.value))
        case Raised => (Fail(s), false)
        case Done(frags) => (s.(out := s.out + [Slice(text, s.off, loop.start)] + frags, off := body.end), true)
  }

  /** What a copy contributes to the text: its output, or nothing if it raised. */
  function TextOf(o: Outcome<string>): string
  {
    match o
    case Done(c) => c
    case Raised => ""
  }

  /** Each copy's text followed by the tail's. */
  function Texts(os: seq<Outcome<string>>, tail: seq<string>): (u: seq<string>)
    ensures |u| == |os|
    ensures forall j :: 0 <= j < |os| ==> u[j] == TextOf(os[j]) + Concat(tail)
    decreases |os|
  {
    if os == [] then [] else [TextOf(os[0]) + Concat(tail)] + Texts(os[1..], tail)
  }

  /** For counter steps 0..n-1: the copy of the body followed by the tail. */
  function Unrolled(text: string, loop: Node, body: Node, l: Loop, n: nat): (u: seq<string>)
    requires WellShaped(body)
    ensures |u| == n
    ensures forall j :: 0 <= j < n ==> u[j] == TextOf(Copy(text, body, l, j)) + Concat(Tail(text, loop, body))
  {
    seq(n, j requires 0 <= j < n => TextOf(Copy(text, body, l, j)) + Concat(Tail(text, loop, body)))
  }

  /** The text of one copy's fragments. */
  lemma FragmentsText(c: string, t: seq<string>, nl: seq<string>, rest: seq<string>)
    ensures Concat([c] + t + nl + rest) == c + Concat(t) + Concat(nl) + Concat(rest)
  {
    var ct := [c] + t;
    var ctn := ct + nl;
    ConcatAppend(ctn, rest);
    ConcatAppend(ct, nl);
    ConcatAppend([c], t);
    assert Concat([c]) == Concat([]) + c;
    assert Concat(ct) == c + Concat(t);
    assert Concat(ctn) == c + Concat(t) + Concat(nl);
  }

  /** A run of copies is assembled exactly when no copy raised. */
  lemma {:induction false} AssembleDone(os: seq<Outcome<string>>, tail: seq<string>)
    ensures Assemble(os, tail).Done? <==> forall j :: 0 <= j < |os| ==> os[j].Done?
    decreases |os|
  {
    if os != [] {
      AssembleDone(os[1..], tail);
      assert forall j :: 1 <= j < |os| ==> os[j] == os[1..][j - 1];
    }
  }

  /** The assembled fragments spell the copies, each followed by the tail, joined by newlines. */
  lemma {:induction false} AssembleText(os: seq<Outcome<string>>, tail: seq<string>)
    requires Assemble(os, tail).Done?
    ensures Concat(Assemble(os, tail).value) == JoinWith("\n", Texts(os, tail))
    decreases |os|
  {
    if os != [] {
      var c := os[0].value;
      var rest := Assemble(os[1..], tail).value;
      var nl: seq<string> := if |os| > 1 then ["\n"] else [];
      AssembleText(os[1..], tail);
      FragmentsText(c, tail, nl, rest);
      if |os| > 1 {
        assert Concat(nl) == Concat([]) + "\n";
      } else {
        assert Texts(os[1..], tail) == [];
      }
    }
  }

  /** The unrolling succeeds exactly when every copy of the body does. */
  lemma CopiesDone(text: string, loop: Node, body: Node, l: Loop, n: nat)
    requires WellShaped(body)
    ensures Copies(text, loop, body, l, n).Done? <==> forall j :: 0 <= j < n ==> Copy(text, body, l, j).Done?
  {
    var os := Outs(text, body, l, n);
    AssembleDone(os, Tail(text, loop, body));
    assert forall j :: 0 <= j < n ==> os[j] == Copy(text, body, l, j);
  }

  /** The unrolled text is the copies for 0..n-1, each followed by the tail, joined by newlines. */
  lemma CopiesText(text: string, loop: Node, body: Node, l: Loop, n: nat)
    requires WellShaped(body) && Copies(text, loop, body, l, n).Done?
    ensures Concat(Copies(text, loop, body, l, n).value) == JoinWith("\n", Unrolled(text, loop, body, l, n))
  {
    var os, tail := Outs(text, body, l, n), Tail(text, loop, body);
    AssembleText(os, tail);
    assert forall j :: 0 <= j < n ==> os[j] == Copy(text, body, l, j);
    assert Texts(os, tail) == Unrolled(text, loop, body, l, n);
  }

  // `for (var i = 5; i > n; i--) { x; }`, at offset 0 of the snippet.

  function SampleSetup(): Node
  {
    var decl := Mk(IDENTIFIER, 9, 14, [], "i").(initializer := Some(Mk(NUMBER, 13, 14, [], "5").(num := 5)));
    Mk(VAR, 5, 14, [decl], "var")
  }

  function SampleCondition(): Node
  {
    Mk(GT, 16, 21, [Mk(IDENTIFIER, 16, 17, [], "i"), Mk(IDENTIFIER, 20, 21, [], "n")], ">")
  }

  function SampleUpdate(): Node
  {
    Mk(DECREMENT, 23, 26, [Mk(IDENTIFIER, 23, 24, [], "i")], "--")
  }

  function SampleBody(): Node
  {
    Mk(BLOCK, 28, 34, [Mk(SEMICOLON, 30, 32, [], ";").(expression := Some(Mk(IDENTIFIER, 30, 31, [], "x")))], "{")
  }

  function SampleLoop(): Node
  {
    Mk(FOR, 0, 34, [], "for").(setup := Some(SampleSetup()), condition := Some(SampleCondition()),
                               update := Some(SampleUpdate()), body := Some(SampleBody()))
  }

  /** A node without children or attributes, of a kind that needs no children, is well formed. */
  lemma LeafShaped(n: Node)
    requires MinKids(n.kind) == 0 && n.kids == [] && n.cases == []
    requires n.body.None? && n.expression.None? && n.condition.None? && n.thenPart.None? && n.elsePart.None?
    requires n.initializer.None? && n.setup.None? && n.update.None? && n.returned.None? && n.statements.None?
    ensures WellShaped(n)
  {
  }

  lemma SetupShaped()
    ensures WellShaped(SampleSetup())
  {
    var decl := SampleSetup().kids[0];
    LeafShaped(decl.initializer.value);
    assert WellShaped(decl);
  }

  lemma ClausesShaped()
    ensures WellShaped(SampleCondition()) && WellShaped(SampleUpdate())
  {
    LeafShaped(SampleCondition().kids[0]);
    LeafShaped(SampleCondition().kids[1]);
    LeafShaped(SampleUpdate().kids[0]);
  }

  lemma BodyShaped()
    ensures WellShaped(SampleBody())
  {
    var st := SampleBody().kids[0];
    LeafShaped(st.expression.value);
    assert WellShaped(st);
  }

  /**
   * As written the sample loop is recognised with the non-numeric bound `n`;
   * corrected it is not recognised.
   */
  lemma SampleParsed()
    ensures WellShaped(SampleLoop())
    ensures ParseLoop(SampleLoop(), true) == Done(Some(Loop(5, -1, Gt, NonNumeric)))
    ensures ParseLoop(SampleLoop(), false) == Done(None)
  {
    SampleClauses();
    ParseLoopOf(SampleLoop(), true, "i", 5, -1, Gt, NonNumeric);
    ParseLoopOf(SampleLoop(), false, "i", 5, -1, Gt, NonNumeric);
  }

  /** The sample's three clauses: counter `i` from 5, step -1, stop test `i > n`. */
  lemma SampleClauses()
    ensures WellShaped(SampleLoop())
    ensures SampleLoop().setup == Some(SampleSetup()) && SampleLoop().update == Some(SampleUpdate())
    ensures SampleLoop().condition == Some(SampleCondition())
    ensures ParseSetup(SampleSetup()) == Done(Some(("i", 5)))
    ensures ParseStep(SampleUpdate(), Some("i")) == Some(-1)
    ensures ParseStop(SampleCondition(), Some("i"), Some(-1)) == Some((Gt, NonNumeric))
  {
    LoopShaped();
    SetupParsed();
    StepParsed();
    StopParsed();
  }

  lemma LoopShaped()
    ensures WellShaped(SampleLoop())
  {
    SetupShaped();
    ClausesShaped();
    BodyShaped();
  }

  lemma SetupParsed()
    ensures ParseSetup(SampleSetup()) == Done(Some(("i", 5)))
  {
    SetupShaped();
    assert ParseSetup(SampleSetup()) == Done(Some(("i", 5)));
  }

  lemma StepParsed()
    ensures ParseStep(SampleUpdate(), Some("i")) == Some(-1)
  {
    ClausesShaped();
    assert ParseStep(SampleUpdate(), Some("i")) == Some(-1);
  }

  lemma StopParsed()
    ensures ParseStop(SampleCondition(), Some("i"), Some(-1)) == Some((Gt, NonNumeric))
  {
    ClausesShaped();
  }

  /**
   * As written, the loop above compares the counter with the name `n` by
   * Python 2's mixed-type ordering: it is unrolled zero times, so the loop
   * and its body vanish from the output.
   */
  lemma LoopDeletedAsWritten(text: string, s: CState)
    requires !s.raised
    ensures WellShaped(SampleLoop())
    ensures Unloop(text, s, SampleLoop(), true) == (s.(out := s.out + [Slice(text, s.off, 0)], off := 34), true)
  {
    SampleParsed();
    var l := Loop(5, -1, Gt, NonNumeric);
    NonNumericBound(l);
    assert Runs(l) == 0 by {
      RunsCharacterised(l, 0);
    }
    UnloopNoRuns(text, s, SampleLoop(), l);
  }

  /** A recognised loop that runs zero times is deleted: the text before it is copied and the cursor skips its body. */
  lemma UnloopNoRuns(text: string, s: CState, loop: Node, l: Loop)
    requires WellShaped(loop) && !s.raised && loop.body.Some? && Runs(l) == 0
    ensures UnloopParsed(text, s, loop, Done(Some(l))) == (s.(out := s.out + [Slice(text, s.off, loop.start)], off := loop.body.value.end), true)
  {
    assert s.out + [Slice(text, s.off, loop.start)] + [] == s.out + [Slice(text, s.off, loop.start)];
  }

  /** Corrected, the loop is not recognised and its body is walked like any other. */
  lemma LoopKeptCorrected(text: string, s: CState)
    requires !s.raised
    ensures WellShaped(SampleLoop())
    ensures Unloop(text, s, SampleLoop(), false) == (s, false)
  {
    SampleParsed();
  }

  // ---------------------------------------------------------------------------
  // The walk: `walkbranch` and `walkexpression`
  // ---------------------------------------------------------------------------

  /** A branch without an end offset runs to the end of the snippet. */
  function BranchEnd(w: World, b: Node): nat
  {
    if b.end == 0 then |w.text| else b.end
  }

  /** `walkbranch`: every statement in turn, then the text up to the end of the branch. */
  function Branch(w: World, mem: Mem, v: View, s: CState, b: Node): (r: CState)
    requires Fits(w, mem) && ViewIn(v, mem) && WellShaped(b)
    ensures s.out <= r.out && (s.raised ==> r == s)
    decreases b, 6, 0
  {
    if s.raised then s
    else
      var s1 := Statements(w, mem, v, s, b, 0);
      if s1.raised then s1
      else s1.(out := s1.out + [Slice(w.text, s1.off, BranchEnd(w, b))], off := BranchEnd(w, b))
  }

  function Statements(w: World, mem: Mem, v: View, s: CState, b: Node, i: nat): (r: CState)
    requires Fits(w, mem) && ViewIn(v, mem) && WellShaped(b)
    ensures s.out <= r.out && (s.raised ==> r == s)
    decreases b, 5, |b.kids| - i
  {
    if i >= |b.kids| then s
    else Statements(w, mem, v, Statement(w, mem, v, s, b.kids[i]), b, i + 1)
  }

  /**
   * One statement of `walkbranch`.  A `var` with an initializer and an
   * expression statement are walked as a line; a call statement raises (the
   * method it calls does not exist); a `for` loop is unrolled or its body
   * walked; the cases of a `switch` are walked as branches; and everything
   * but an expression statement and a loop then has its attributes walked.
   */
  function Statement(w: World, mem: Mem, v: View, s: CState, st: Node): (r: CState)
    requires Fits(w, mem) && ViewIn(v, mem) && WellShaped(st)
    ensures s.out <= r.out && (s.raised ==> r == s)
    decreases st, 4, 0
  {
    if s.raised then s
    else if st.kind == VAR then Attrs(w, mem, v, VarLine(w, mem, v, s, st), st, 0)
    else if st.kind == SEMICOLON then ExpressionLine(w, mem, v, s, st)
    else if st.kind == CALL then Fail(s)
    else if st.kind == FOR then ForLoop(w, mem, v, s, st)
    else if st.kind == SWITCH then Attrs(w, mem, v, SwitchCases(w, mem, v, s, st, 0), st, 0)
    else Attrs(w, mem, v, s, st, 0)
  }

  /** A `var` statement: its first declarator's initializer, if any, is walked as a line named after the declarator. */
  function VarLine(w: World, mem: Mem, v: View, s: CState, st: Node): (r: CState)
    requires Fits(w, mem) && ViewIn(v, mem) && WellShaped(st) && st.kind == VAR
    ensures s.out <= r.out && (s.raised ==> r == s)
    decreases st, 3, 0
  {
    var decl := st.kids[0];
    assert WellShaped(decl);
    if s.raised || decl.initializer.None? then s
    else
      match CrawlIdentifier(decl)
      case Raised => Fail(s)
      case Done(name) => Line(w, mem, v, s, st.start, decl.initializer.value, name, true)
  }

  /**
   * An expression statement: an assignment is a line named after its target
   * whose value is used; any other expression is named after the
   * statement's own value and its value is not used.
   */
  function ExpressionLine(w: World, mem: Mem, v: View, s: CState, st: Node): (r: CState)
    requires Fits(w, mem) && ViewIn(v, mem) && WellShaped(st)
    ensures s.out <= r.out && (s.raised ==> r == s)
    decreases st, 3, 0
  {
    if s.raised || st.expression.None? then s
    else
      var e := st.expression.value;
      assert WellShaped(e);
      var isAssign := e.kind == ASSIGN;
      var name := if isAssign then CrawlIdentifier(e.kids[0]) else Done(Some(st.value));
      match name
      case Raised => Fail(s)
      case Done(n) => Line(w, mem, v, s, st.start, e, n, isAssign)
  }

  /** A `for` statement: unrolled if possible, otherwise its body is walked (a missing body raises). */
  function ForLoop(w: World, mem: Mem, v: View, s: CState, st: Node): (r: CState)
    requires Fits(w, mem) && ViewIn(v, mem) && WellShaped(st)
    ensures s.out <= r.out && (s.raised ==> r == s)
    decreases st, 3, 0
  {
    if s.raised then s
    else
      var u := Unloop(w.text, s, st, true);
      if u.0.raised || u.1 then u.0
      else if st.body.None? then Fail(s)
      else Branch(w, mem, v, s, st.body.value)
  }

  /** The cases of a `switch`, each body walked as a branch (a case without one raises). */
  function SwitchCases(w: World, mem: Mem, v: View, s: CState, st: Node, i: nat): (r: CState)
    requires Fits(w, mem) && ViewIn(v, mem) && WellShaped(st)
    ensures s.out <= r.out && (s.raised ==> r == s)
    decreases st, 2, |st.cases| - i
  {
    if i >= |st.cases| then s
    else
      var c := st.cases[i];
      assert WellShaped(c);
      SwitchCases(w, mem, v, ArmOf(w, mem, v, s, c), st, i + 1)
  }

  /** One case of a `switch`: its body walked as a branch (a case without one raises). */
  function ArmOf(w: World, mem: Mem, v: View, s: CState, c: Node): (r: CState)
    requires Fits(w, mem) && ViewIn(v, mem) && WellShaped(c)
    ensures s.out <= r.out && (s.raised ==> r == s)
    decreases c, 7, 0
  {
    if s.raised then s
    else if c.statements.None? then Fail(s)
    else Branch(w, mem, v, s, c.statements.value)
  }

  /** The attribute loop: every attribute that is present is walked as a branch. */
  function Attrs(w: World, mem: Mem, v: View, s: CState, st: Node, i: nat): (r: CState)
    requires Fits(w, mem) && ViewIn(v, mem) && WellShaped(st) && i <= 5
    ensures s.out <= r.out && (s.raised ==> r == s)
    decreases st, 2, 5 - i
  {
    if i == 5 then s
    else Attrs(w, mem, v, Attr(w, mem, v, s, st, i), st, i + 1)
  }

  /** The i-th attribute, walked as a branch if it is present. */
  function Attr(w: World, mem: Mem, v: View, s: CState, st: Node, i: nat): (r: CState)
    requires Fits(w, mem) && ViewIn(v, mem) && WellShaped(st) && i < 5
    ensures s.out <= r.out && (s.raised ==> r == s)
    decreases st, 1, 0
  {
    var child := BodyRewriter.ChildAttrs(st)[i];
    if child.Some? then Branch(w, mem, v, s, child.value) else s
  }

  /**
   * A line (`var` initializer or expression statement): the text before it
   * is copied, the call counter and the hoisted text are reset, the
   * expression is walked, and the hoisted text, if any, is put in front of
   * everything the expression emitted.
   */
  function Line(w: World, mem: Mem, v: View, s: CState, start: nat, e: Node, name: Option<string>, usesReturn: bool): (r: CState)
    requires Fits(w, mem) && ViewIn(v, mem) && WellShaped(e)
    ensures s.out <= r.out && (s.raised ==> r == s)
    decreases e, 4, 0
  {
    if s.raised then s
    else
      var s0 := CState(s.out + [Slice(w.text, s.off, start)], start, "", 0, false);
      var s1 := Expression(w, mem, v, s0, e, name, usesReturn);
      Hoist(s0, s1)
  }

  /** The hoisted text goes in front of what the line emitted after `s0`. */
  function Hoist(s0: CState, s1: CState): (r: CState)
    requires s0.out <= s1.out
    ensures s0.out <= r.out && r.raised == s1.raised
  {
    if !s1.raised && |s1.preput| > 0 then s1.(out := s1.out[..|s0.out|] + [s1.preput] + s1.out[|s0.out|..])
    else s1
  }

  /**
   * `walkexpression`: a call is replaced, a function assigned to a name is
   * walked in its own scope, and anything else has its parts walked.
   */
  function Expression(w: World, mem: Mem, v: View, s: CState, e: Node, name: Option<string>, usesReturn: bool): (r: CState)
    requires Fits(w, mem) && ViewIn(v, mem) && WellShaped(e)
    ensures s.out <= r.out && (s.raised ==> r == s)
    decreases e, 3, 0
  {
    if s.raised then s
    else if e.kind == CALL then CallSite(w, mem, v, s, e, name, usesReturn)
    else if e.kind == ASSIGN && e.kids[1].kind == FUNCTION then FunctionScope(w, mem, v, s, e, name)
    else Pieces(w, mem, v, s, e, 0, name, usesReturn)
  }

  /** The parts from the i-th on: a call is replaced, a part with parts of its own is walked. */
  function Pieces(w: World, mem: Mem, v: View, s: CState, e: Node, i: nat, name: Option<string>, usesReturn: bool): (r: CState)
    requires Fits(w, mem) && ViewIn(v, mem) && WellShaped(e)
    ensures s.out <= r.out && (s.raised ==> r == s)
    decreases e, 2, |e.kids| - i
  {
    if i >= |e.kids| then s
    else
      var p := e.kids[i];
      assert WellShaped(p);
      Pieces(w, mem, v, Piece(w, mem, v, s, p, name, usesReturn), e, i + 1, name, usesReturn)
  }

  /** One part: a call is replaced, a part with parts of its own is walked, a leaf is skipped. */
  function Piece(w: World, mem: Mem, v: View, s: CState, p: Node, name: Option<string>, usesReturn: bool): (r: CState)
    requires Fits(w, mem) && ViewIn(v, mem) && WellShaped(p)
    ensures s.out <= r.out && (s.raised ==> r == s)
    decreases p, 5, 0
  {
    if p.kind == CALL then CallSite(w, mem, v, s, p, name, usesReturn)
    else if |p.kids| > 0 then Expression(w, mem, v, s, p, name, usesReturn)
    else s
  }

  /** The parameter list after the `function` keyword: the text between the next `(` and the next `)`. */
  function Signature(text: string, f: Node): string
  {
    Slice(text, Find(text, '(', f.start) + 1, Find(text, ')', f.start))
  }

  /**
   * The typed parameters, in the order given: each is declared in the top
   * scope (as None) and then bound to a new copy of the members of its
   * type's `prototype`, looked up with the bindings made so far.
   */
  function BindTypes(w: World, mem: Mem, v: View, types: map<string, string>, ps: seq<string>): (r: View)
    requires Fits(w, mem) && ViewIn(v, mem) && (forall i :: 0 <= i < |ps| ==> ps[i] in types)
    ensures ViewIn(r, mem)
    ensures r.thisStack == v.thisStack && |r.scopes| == |v.scopes|
    ensures Below(r.scopes) == Below(v.scopes)
    decreases |ps|
  {
    if ps == [] then v
    else BindTypes(w, mem, BindType(w, mem, v, ps[0], types[ps[0]]), types, ps[1..])
  }

  /** The first parameter still to bind is bound, and the rest follow. */
  lemma BindTypesStep(w: World, mem: Mem, v: View, types: map<string, string>, ps: seq<string>, i: nat)
    requires Fits(w, mem) && ViewIn(v, mem) && (forall j :: 0 <= j < |ps| ==> ps[j] in types) && i < |ps|
    ensures BindTypes(w, mem, v, types, ps[i..]) == BindTypes(w, mem, BindType(w, mem, v, ps[i], types[ps[i]]), types, ps[i + 1..])
  {
    assert ps[i..][1..] == ps[i + 1..];
  }

  /**
   * One typed parameter `p` of type `typ`: declared in the top scope, then
   * bound to a new copy of the members of `typ.prototype` as the view with
   * `p` declared resolves it.
   */
  function BindType(w: World, mem: Mem, v: View, p: string, typ: string): (r: View)
    requires Fits(w, mem) && ViewIn(v, mem)
    ensures ViewIn(r, mem)
    ensures r.thisStack == v.thisStack && |r.scopes| == |v.scopes|
    ensures Below(r.scopes) == Below(v.scopes)
    ensures Top(r) == Top(v)[p := SnapOf(Lookup(mem, w.root, Bind(v, p, Obj(null)), typ + ".prototype"))]
  {
    ViewInBind(v, p, Obj(null), mem);
    var v1 := Bind(v, p, Obj(null));
    var proto := Lookup(mem, w.root, v1, typ + ".prototype");
    ViewInBind(v1, p, SnapOf(proto), mem);
    Bind(v1, p, SnapOf(proto))
  }

  /**
   * A function expression assigned to `name`: its body is walked with the
   * object owning `name` as `this`, in a new scope holding the typed
   * parameters.
   */
  function FunctionScope(w: World, mem: Mem, v: View, s: CState, e: Node, name: Option<string>): (r: CState)
    requires Fits(w, mem) && ViewIn(v, mem) && WellShaped(e) && e.kind == ASSIGN
    ensures s.out <= r.out && (s.raised ==> r == s)
    decreases e, 1, 0
  {
    if s.raised then s
    else if name.None? then Fail(s)
    else
      var f := e.kids[1];
      assert WellShaped(f);
      if f.body.None? then Fail(s)
      else Branch(w, mem, FunctionView(w, mem, v, f, name.value), s, f.body.value)
  }

  /** A named function with a body: its scope is that body walked as a branch in the function's view. */
  lemma FunctionScopeIs(w: World, mem: Mem, v: View, s: CState, e: Node, name: string, vf: View)
    requires Fits(w, mem) && ViewIn(v, mem) && WellShaped(e) && e.kind == ASSIGN && !s.raised
    requires WellShaped(e.kids[1]) && e.kids[1].body.Some? && vf == FunctionView(w, mem, v, e.kids[1], name)
    ensures WellShaped(e.kids[1].body.value) && ViewIn(vf, mem)
    ensures FunctionScope(w, mem, v, s, e, Some(name)) == Branch(w, mem, vf, s, e.kids[1].body.value)
  {
  }

  /** The view a function's body is walked in. */
  function FunctionView(w: World, mem: Mem, v: View, f: Node, name: string): (r: View)
    requires Fits(w, mem) && ViewIn(v, mem)
    ensures ViewIn(r, mem)
  {
    var parent := Lookup(mem, w.root, v, DropLastSegment(name, '.'));
    ViewInPush(v, parent, mem);
    var v1 := PushScope(PushThis(v, parent));
    var types := TypesOf(Split(Signature(w.text, f), ','), true);
    KeysListed(w, types.Keys);
    BindTypes(w, mem, v1, types, w.order(types.Keys))
  }

  /** The crawler's output for the whole snippet, or the exception. */
  function Inlined(w: World, mem: Mem, v: View, script: Node): Outcome<string>
    requires Fits(w, mem) && ViewIn(v, mem) && WellShaped(script)
  {
    var r := Branch(w, mem, v, CState([], 0, "", 0, false), script);
    if r.raised then Raised else Done(Concat(r.out))
  }
}
