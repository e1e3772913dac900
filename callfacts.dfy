/**
 * What `replacecall` and the call numbering of `walkexpression` promise,
 * stated over the walk's functions: a callee that does not resolve to a
 * function leaves the snippet alone, the dictionary handed to the body
 * rewriter binds `this` as the call form demands, the rewritten body is put
 * in place of the call in one of three shapes, and each call of a statement
 * gets a temporary name of its own.
 */
module CallFacts {
  import opened Common
  import opened PyText
  import opened JsAst
  import opened Paths
  import opened Environment
  import opened Views
  import opened CallSites
  import opened SnippetWalk
  import opened SwitchGen
  import BodyRewriter

  /** The callee is a member access whose last segment is `call`, as in `f.call(...)`. */
  predicate ViaCall(call: Node)
    requires WellShaped(call) && call.kind == CALL
  {
    var callee := call.kids[0];
    assert WellShaped(callee);
    callee.kind == DOT && ValueIs(LastKid(callee), "call")
  }

  /** The name `env.get` is asked for: the callee's path, without its `.call` suffix. */
  function LookupName(call: Node, path: string): string
    requires WellShaped(call) && call.kind == CALL
  {
    if ViaCall(call) then Slice(path, 0, -5) else path
  }

  /** Inlining either raises or emits two fragments, so it never leaves the state as it was. */
  lemma InlineChanges(w: World, s: CState, call: Node, retname: Option<string>, usesReturn: bool,
                      isCall: bool, funname: string, f: Node)
    requires WellShaped(call) && call.kind == CALL && WellShaped(f) && !s.raised
    ensures var r := InlineCall(w, s, call, retname, usesReturn, isCall, funname, f);
            r.raised || |r.out| == |s.out| + 2
  {
    var r := InlineCall(w, s, call, retname, usesReturn, isCall, funname, f);
    assert WellShaped(call.kids[1]);
    match Args(call.kids[1].kids)
    case Raised =>
      assert r == Fail(s);
    case Done(args) =>
      if (isCall && args == []) || f.params.None? || f.body.None? {
        assert r == Fail(s);
      } else {
        var base := if isCall then map["this" := args[0]]
                    else if !Plain(funname) then map["this" := DropLastSegment(funname, '.')]
                    else map[];
        var rest := if isCall then args[1..] else args;
        var repl := Bindings(base, f.params.value, rest);
        var body := f.body.value;
        assert r == InlineBody(w, s, call, retname, usesReturn, body, repl);
        match BodyRewriter.Rewrite(w.libtext, body, repl, retname, false)
        case Raised =>
        case Done(out) =>
          assert r == SpliceCall(w, s, call, retname, usesReturn, BodyRewriter.NeedsRetVal(body, retname, false), out);
      }
  }

  /**
   * A direct call whose callee has a path is left exactly as it is when, and
   * only when, `env.get` of that path finds nothing, or finds an object that
   * was not made from a function node.
   */
  lemma DirectCallUntouched(w: World, mem: Mem, v: View, s: CState, call: Node, retname: Option<string>, usesReturn: bool, path: string)
    requires Fits(w, mem) && ViewIn(v, mem) && WellShaped(call) && call.kind == CALL && !s.raised
    requires !IsSwitchCall(call) && CrawlIdentifier(call.kids[0]) == Done(Some(path))
    ensures Call(w, mem, v, s, call, retname, usesReturn) == s
            <==> Fn(Lookup(mem, w.root, v, LookupName(call, path))).None?
  {
    CallIsDirectTo(w, mem, v, s, call, retname, usesReturn, path);
    var target := Lookup(mem, w.root, v, LookupName(call, path));
    if Fn(target).Some? {
      FnShaped(w, mem, target);
      InlineChanges(w, s, call, retname, usesReturn, ViaCall(call), path, Fn(target).value);
    }
  }

  /** A callee without a path (`_crawlIdentifier` gives None) or whose path raises: the exception propagates. */
  lemma NamelessCalleeRaises(w: World, mem: Mem, v: View, s: CState, call: Node, retname: Option<string>, usesReturn: bool)
    requires Fits(w, mem) && ViewIn(v, mem) && WellShaped(call) && call.kind == CALL && !s.raised
    requires !IsSwitchCall(call) && (CrawlIdentifier(call.kids[0]).Raised? || CrawlIdentifier(call.kids[0]).value.None?)
    ensures Call(w, mem, v, s, call, retname, usesReturn) == Fail(s)
  {
    assert WellShaped(call.kids[0]);
  }

  /**
   * A direct call resolved to a function `f` with parameters and a body:
   * the body is rewritten with the dictionary that binds `this` and the
   * parameters.  For `f.call(a0, a1, ...)` `this` is the first argument and
   * the parameters take the rest; for a dotted callee `o.p.f(...)` `this` is
   * `o.p`; for a plain name nothing but the parameters is bound.  A
   * `.call` without arguments, or a function without parameters or body,
   * raises.
   */
  lemma ResolvedCallBindings(w: World, mem: Mem, v: View, s: CState, call: Node, retname: Option<string>, usesReturn: bool,
                             path: string, args: seq<string>)
    requires Fits(w, mem) && ViewIn(v, mem) && WellShaped(call) && call.kind == CALL && !s.raised
    requires !IsSwitchCall(call) && CrawlIdentifier(call.kids[0]) == Done(Some(path))
    requires Fn(Lookup(mem, w.root, v, LookupName(call, path))).Some?
    requires WellShaped(call.kids[1]) && Args(call.kids[1].kids) == Done(args)
    ensures var f := Fn(Lookup(mem, w.root, v, LookupName(call, path))).value;
            var r := Call(w, mem, v, s, call, retname, usesReturn);
            && (f.params.None? || f.body.None? || (ViaCall(call) && args == []) ==> r == Fail(s))
            && (f.params.Some? && f.body.Some? && ViaCall(call) && args != [] ==>
                  r == InlineBody(w, s, call, retname, usesReturn, f.body.value, Bindings(map["this" := args[0]], f.params.value, args[1..])))
            && (f.params.Some? && f.body.Some? && !ViaCall(call) && '.' in path ==>
                  r == InlineBody(w, s, call, retname, usesReturn, f.body.value, Bindings(map["this" := DropLastSegment(path, '.')], f.params.value, args)))
            && (f.params.Some? && f.body.Some? && !ViaCall(call) && '.' !in path ==>
                  r == InlineBody(w, s, call, retname, usesReturn, f.body.value, Bindings(map[], f.params.value, args)))
  {
    var target := Lookup(mem, w.root, v, LookupName(call, path));
    FnShaped(w, mem, target);
    ResolvedCall(w, mem, v, s, call, retname, usesReturn, path);
    PlainIff(path);
    InlineCallBindings(w, s, call, retname, usesReturn, ViaCall(call), path, Fn(target).value, args);
  }

  /** A direct call resolved to a function: it is inlined with that function. */
  lemma ResolvedCall(w: World, mem: Mem, v: View, s: CState, call: Node, retname: Option<string>, usesReturn: bool, path: string)
    requires Fits(w, mem) && ViewIn(v, mem) && WellShaped(call) && call.kind == CALL && !s.raised
    requires !IsSwitchCall(call) && CrawlIdentifier(call.kids[0]) == Done(Some(path))
    requires Fn(Lookup(mem, w.root, v, LookupName(call, path))).Some?
    ensures var f := Fn(Lookup(mem, w.root, v, LookupName(call, path))).value;
            WellShaped(f) && Call(w, mem, v, s, call, retname, usesReturn) == InlineCall(w, s, call, retname, usesReturn, ViaCall(call), path, f)
  {
    var target := Lookup(mem, w.root, v, LookupName(call, path));
    FnShaped(w, mem, target);
    CallIsDirectTo(w, mem, v, s, call, retname, usesReturn, path);
  }

  /** A direct call whose callee has a path: the path is looked up and what it finds decides. */
  lemma CallIsDirectTo(w: World, mem: Mem, v: View, s: CState, call: Node, retname: Option<string>, usesReturn: bool, path: string)
    requires Fits(w, mem) && ViewIn(v, mem) && WellShaped(call) && call.kind == CALL && !s.raised
    requires !IsSwitchCall(call) && CrawlIdentifier(call.kids[0]) == Done(Some(path))
    ensures Call(w, mem, v, s, call, retname, usesReturn) == DirectTo(w, mem, v, s, call, retname, usesReturn, ViaCall(call), path)
  {
    var callee := call.kids[0];
    assert WellShaped(callee);
    assert Call(w, mem, v, s, call, retname, usesReturn) == DirectCall(w, mem, v, s, call, retname, usesReturn);
  }

  /** The dictionary `InlineCall` hands to the body rewriter, for each call form. */
  lemma InlineCallBindings(w: World, s: CState, call: Node, retname: Option<string>, usesReturn: bool,
                           isCall: bool, path: string, f: Node, args: seq<string>)
    requires WellShaped(call) && call.kind == CALL && WellShaped(f) && !s.raised
    requires WellShaped(call.kids[1]) && Args(call.kids[1].kids) == Done(args)
    requires Plain(path) <==> '.' !in path
    ensures var r := InlineCall(w, s, call, retname, usesReturn, isCall, path, f);
            && (f.params.None? || f.body.None? || (isCall && args == []) ==> r == Fail(s))
            && (f.params.Some? && f.body.Some? && isCall && args != [] ==>
                  r == InlineBody(w, s, call, retname, usesReturn, f.body.value, Bindings(map["this" := args[0]], f.params.value, args[1..])))
            && (f.params.Some? && f.body.Some? && !isCall && '.' in path ==>
                  r == InlineBody(w, s, call, retname, usesReturn, f.body.value, Bindings(map["this" := DropLastSegment(path, '.')], f.params.value, args)))
            && (f.params.Some? && f.body.Some? && !isCall && '.' !in path ==>
                  r == InlineBody(w, s, call, retname, usesReturn, f.body.value, Bindings(map[], f.params.value, args)))
  {
  }

  /**
   * The rewritten body put in place of the call.  With a temporary the
   * body, which then begins with the temporary's declaration, goes into the
   * text hoisted in front of the statement and the call's text becomes the
   * temporary's name; otherwise the body replaces the call, in parentheses
   * when the value is used.  Either way the cursor moves past the call.
   */
  lemma InlineBodyShape(w: World, s: CState, call: Node, retname: Option<string>, usesReturn: bool,
                        body: Node, repl: map<string, string>)
    requires WellShaped(body)
    ensures var r := InlineBody(w, s, call, retname, usesReturn, body, repl);
            var before := Slice(w.text, s.off, call.start);
            var needs := BodyRewriter.NeedsRetVal(body, retname, false);
            match BodyRewriter.Rewrite(w.libtext, body, repl, retname, false)
            case Raised => r == Fail(s)
            case Done(out) =>
              && r.off == call.end && r.count == s.count && r.raised == s.raised
              && (needs ==> r.out == s.out + [before, retname.value] && r.preput == s.preput + out
                            && BodyRewriter.Header(retname.value) <= out)
              && (!needs && usesReturn ==> r.out == s.out + [before + "(", out + ")"] && r.preput == s.preput)
              && (!needs && !usesReturn ==> r.out == s.out + [before, out] && r.preput == s.preput)
  {
    BodyRewriter.RetValHeader(w.libtext, body, repl, retname, false);
  }

  /** Without a temporary, a used value is the rewritten body in parentheses. */
  lemma ValueSpliced(w: World, s: CState, call: Node, body: Node, repl: map<string, string>, out: string)
    requires WellShaped(body) && BodyRewriter.Rewrite(w.libtext, body, repl, None, false) == Done(out)
    ensures InlineBody(w, s, call, None, true, body, repl)
            == s.(out := s.out + [Slice(w.text, s.off, call.start) + "(", out + ")"], off := call.end)
  {
  }

  /** With a temporary, the call becomes the temporary's name and the rewritten body is hoisted. */
  lemma HoistSpliced(w: World, s: CState, call: Node, t: string, body: Node, repl: map<string, string>, out: string)
    requires WellShaped(body) && BodyRewriter.NeedsRetVal(body, Some(t), false)
    requires BodyRewriter.Rewrite(w.libtext, body, repl, Some(t), false) == Done(out)
    ensures InlineBody(w, s, call, Some(t), true, body, repl)
            == s.(out := s.out + [Slice(w.text, s.off, call.start), t], off := call.end, preput := s.preput + out)
  {
  }

  /**
   * `walkexpression` on a call: a used value gets the temporary
   * `ret<name><k>`, k being the number of calls of the statement so far,
   * an unused one none; an unnamed statement raises; and a call that does not
   * raise moves the numbering on by one, whatever `replacecall` did.
   */
  lemma CallSiteNumbering(w: World, mem: Mem, v: View, s: CState, call: Node, name: Option<string>, usesReturn: bool)
    requires Fits(w, mem) && ViewIn(v, mem) && WellShaped(call) && call.kind == CALL && !s.raised
    ensures name.None? ==> CallSite(w, mem, v, s, call, name, usesReturn) == Fail(s)
    ensures name.Some? ==>
      var retname := if usesReturn then Some(TempName(name.value, s.count)) else None;
      var s1 := Call(w, mem, v, s, call, retname, usesReturn);
      var r := CallSite(w, mem, v, s, call, name, usesReturn);
      && (s1.raised ==> r == s1)
      && (!s1.raised ==> r.count == s.count + 1 && r.out == s1.out && r.off == s1.off && r.preput == s1.preput)
  {
  }

  /** The temporary of the k-th call of statement `name`: `ret`, the name, then k in decimal. */
  function TempName(name: string, k: nat): string
  {
    "ret" + name + IntToString(k)
  }

  /** Two calls of a statement never share a temporary: different counts give different names. */
  lemma TempNamesDistinct(name: string, i: nat, j: nat)
    ensures TempName(name, i) == TempName(name, j) <==> i == j
  {
    if TempName(name, i) == TempName(name, j) {
      var p := "ret" + name;
      assert NatToString(i) == TempName(name, i)[|p|..];
      assert NatToString(j) == TempName(name, j)[|p|..];
      DigitsOfNat(i);
      DigitsOfNat(j);
    }
  }

  /**
   * A call through a computed member `o[k](...)` whose object `o`
   * is not bound in the environment is left exactly as it is.
   */
  lemma SwitchUnboundUntouched(w: World, mem: Mem, v: View, s: CState, call: Node, retname: Option<string>, usesReturn: bool, t: SwitchRef)
    requires Fits(w, mem) && ViewIn(v, mem) && WellShaped(call) && call.kind == CALL && !s.raised
    requires IsSwitchCall(call) && SwitchTarget(call) == Done(t)
    requires IsNull(Lookup(mem, w.root, v, t.objectname))
    ensures Call(w, mem, v, s, call, retname, usesReturn) == s
  {
  }
  /**
   * The switch over the members of a bound object, put in place of an
   * indexed call.  A failing case, or an object without function members,
   * raises.  With a return name the switch is hoisted, followed by a
   * newline, and the call's text becomes the name; without one the switch
   * replaces the call, or is dropped when the value is used.  Only without a
   * return name does the cursor also skip past the character after the call
   * and a following `;` or space.
   */
  lemma SwitchSpliced(w: World, s: CState, call: Node, retname: Option<string>, usesReturn: bool, t: SwitchRef, m: map<string, JSObject?>)
    requires OrderOk(w.order) && WellShaped(call) && call.kind == CALL && IsSwitchCall(call) && !s.raised && ShapedMembers(m)
    ensures Enumerates(w.order(m.Keys), m.Keys)
    ensures var ks := w.order(m.Keys);
            var orig := OrigArgs(call.kids[1].kids);
            var sw := Switch(SwitchCtx(w.libtext, retname, orig, t.viaCall, t.objectname), t.keyvariable, t.suffix, ks, m, orig);
            var r := SwitchOver(w, s, call, retname, usesReturn, t, m);
            var before := Slice(w.text, s.off, call.start);
            && (FnKeys(ks, m) == [] || sw.Raised? ==> r == Fail(s))
            && (sw.Done? ==> SwitchHead(t.keyvariable) <= sw.value.0)
            && (sw.Done? && retname.Some? ==>
                  r == s.(out := s.out + [before, retname.value], off := call.end, preput := s.preput + sw.value.0 + "\n"))
            && (sw.Done? && retname.None? ==>
                  && r.preput == s.preput && r.count == s.count && !r.raised && r.off > call.end
                  && r.out == (if usesReturn then s.out else s.out + [before, sw.value.0]))
  {
    KeysListed(w, m.Keys);
    var ks := w.order(m.Keys);
    var orig := OrigArgs(call.kids[1].kids);
    var ctx := SwitchCtx(w.libtext, retname, orig, t.viaCall, t.objectname);
    SwitchShape(ctx, t.keyvariable, t.suffix, ks, m, orig);
    if Switch(ctx, t.keyvariable, t.suffix, ks, m, orig).Done? {
      SwitchNeeds(ctx, t.keyvariable, t.suffix, ks, m, orig);
    }
  }
}
