/**
 * The `switch` statement `replacecallswitch` emits for a call through a
 * computed member, `obj[key](args)`: one `case` per member of `obj` that is
 * a function, the member's body inlined under it, and a `default:` that
 * makes the original call.
 */
module SwitchGen {
  import opened Common
  import opened PyText
  import opened JsAst
  import opened Environment
  import opened BodyRewriter
  import opened CallSites

  /**
   * What every case shares: the library text, the return temporary, the
   * call's arguments as echoed text, whether a trailing `.call` takes `this`
   * from the first argument, and the object's path (the `this` otherwise).
   */
  datatype SwitchCtx = SwitchCtx(libtext: string, retname: Option<string>, args: seq<string>, popThis: bool, objectname: string)

  /** An argument as `replacecallswitch` echoes it: a string re-quoted, anything else `str(node.value)`. */
  function OrigArg(n: Node): string
  {
    if n.kind == STRING then Quote(n.value) else ValueText(n)
  }

  function OrigArgs(ns: seq<Node>): seq<string>
  {
    seq(|ns|, i requires 0 <= i < |ns| => OrigArg(ns[i]))
  }

  /** `this` for every case, and the arguments left for the parameters. */
  function CaseThis(c: SwitchCtx): Outcome<(string, seq<string>)>
  {
    if !c.popThis then Done((c.objectname, c.args))
    else if c.args == [] then Raised
    else Done((c.args[0], c.args[1..]))
  }

  /**
   * The replacements for one member function: `this`, then parameter i bound
   * to argument i for every argument; a function with fewer parameters than
   * arguments raises.
   */
  function CaseRepl(c: SwitchCtx, f: Node): Outcome<map<string, string>>
  {
    match CaseThis(c)
    case Raised => Raised
    case Done(tr) =>
      var rest := tr.1;
      if |rest| == 0 then Done(map["this" := tr.0])
      else if f.params.None? || |f.params.value| < |rest| then Raised
      else Done(Bindings(map["this" := tr.0], f.params.value[..|rest|], rest))
  }

  /** One case: the member's key, its inlined body, and whether a temporary is needed so far. */
  datatype Case = Case(key: string, body: string, needs: bool)

  /** The case for a member function, given whether an earlier case needed the temporary. */
  function CaseFor(c: SwitchCtx, key: string, f: Node, needs: bool): (r: Outcome<Case>)
    requires WellShaped(f)
    ensures r.Done? ==> r.value.key == key
  {
    match CaseRepl(c, f)
    case Raised => Raised
    case Done(repl) =>
      if f.body.None? then Raised
      else
        match Rewrite(c.libtext, f.body.value, repl, c.retname, true)
        case Raised => Raised
        case Done(out) => Done(Case(key, out, needs || NeedsRetVal(f.body.value, c.retname, true)))
  }

  /** A case fails independently of the cases before it. */
  predicate CaseFails(c: SwitchCtx, f: Node)
    requires WellShaped(f)
  {
    CaseFor(c, "", f, false).Raised?
  }

  /** Every member is an object that is absent, plain, or made from a well-shaped function node. */
  predicate ShapedMembers(m: map<string, JSObject?>)
  {
    forall k :: k in m && m[k] != null && m[k].fn.Some? ==> WellShaped(m[k].fn.value)
  }

  /** The keys, in the given order, whose member is a function. */
  function FnKeys(ks: seq<string>, m: map<string, JSObject?>): seq<string>
    requires forall i :: 0 <= i < |ks| ==> ks[i] in m
    decreases |ks|
  {
    if ks == [] then []
    else if m[ks[0]] != null && m[ks[0]].fn.Some? then [ks[0]] + FnKeys(ks[1..], m)
    else FnKeys(ks[1..], m)
  }

  /**
   * The cases for the members under `ks`, in that order: a member that is
   * None raises (it has no `getFunction`), a plain object is skipped.
   */
  function Cases(c: SwitchCtx, ks: seq<string>, m: map<string, JSObject?>, needs: bool): Outcome<seq<Case>>
    requires (forall i :: 0 <= i < |ks| ==> ks[i] in m) && ShapedMembers(m)
    decreases |ks|
  {
    if ks == [] then Done([])
    else
      var o := m[ks[0]];
      if o == null then Raised
      else if o.fn.None? then Cases(c, ks[1..], m, needs)
      else
        match CaseFor(c, ks[0], o.fn.value, needs)
        case Raised => Raised
        case Done(first) =>
          match Cases(c, ks[1..], m, first.needs)
          case Raised => Raised
          case Done(rest) => Done([first] + rest)
  }

  /** The labels of a case: always the quoted key, and the bare key too when it is an integer literal. */
  function Labels(key: string): seq<string>
  {
    ["\tcase \"" + key + "\":\n"] + (if IsIntKey(key) then ["\tcase " + key + ":\n"] else [])
  }

  /** The fragments of one case; `;` closes a body only while no case has needed the temporary. */
  function CaseLines(cs: Case): seq<string>
  {
    Labels(cs.key) + [cs.body] + (if cs.needs then [] else [";\n"]) + ["\tbreak;\n"]
  }

  function AllLines(cs: seq<Case>): seq<string>
    decreases |cs|
  {
    if cs == [] then [] else AllLines(cs[..|cs| - 1]) + CaseLines(cs[|cs| - 1])
  }

  function SwitchHead(keyvariable: string): string
  {
    "switch (" + keyvariable + ") {\n"
  }

  /** The `default:` branch re-issues the original call. */
  function SwitchDefault(objectname: string, keyvariable: string, needscall: string, orig: seq<string>): string
  {
    "\tdefault:\n\t" + objectname + "[" + keyvariable + "]" + needscall + "(" + JoinWith(", ", orig) + ");\n}"
  }

  /**
   * The whole statement and whether it needs the temporary.  With no member
   * function the echoed arguments were never computed: a NameError.
   */
  function Switch(c: SwitchCtx, keyvariable: string, needscall: string, ks: seq<string>, m: map<string, JSObject?>, orig: seq<string>): Outcome<(string, bool)>
    requires (forall i :: 0 <= i < |ks| ==> ks[i] in m) && ShapedMembers(m)
  {
    match Cases(c, ks, m, false)
    case Raised => Raised
    case Done(cs) =>
      if cs == [] then Raised
      else Done((Concat([SwitchHead(keyvariable)] + AllLines(cs) + [SwitchDefault(c.objectname, keyvariable, needscall, orig)]), cs[|cs| - 1].needs))
  }

  // ---------------------------------------------------------------------------
  // The loop of `replacecallswitch`.

  /** The replacements for one member function, as the loop body builds them. */
  method CaseReplacements(c: SwitchCtx, f: Node) returns (r: Outcome<map<string, string>>)
    ensures r == CaseRepl(c, f)
  {
    var arguments := c.args;
    var this0 := c.objectname;
    if c.popThis {
      if arguments == [] {
        return Raised;
      }
      this0 := arguments[0];
      arguments := arguments[1..];
    }
    var base := map["this" := this0];
    var repl := base;
    if arguments != [] {
      if f.params.None? {
        // `fun.params[0]` on a function without a parameter list
        return Raised;
      }
      var ps := f.params.value;
      var i := 0;
      while i < |arguments|
        invariant 0 <= i <= |arguments| && i <= |ps|
        invariant repl == Bound(base, ps, arguments, i)
      {
        if i >= |ps| {
          return Raised;
        }
        repl := repl[ps[i] := arguments[i]];
        i := i + 1;
      }
      BoundIsBindings(base, ps, arguments, i);
    }
    r := Done(repl);
  }

  /** `base` after the loop's first i bindings of a parameter to its argument. */
  function Bound(base: map<string, string>, ps: seq<string>, args: seq<string>, i: nat): map<string, string>
    requires i <= |ps| && i <= |args|
  {
    if i == 0 then base else Bound(base, ps, args, i - 1)[ps[i - 1] := args[i - 1]]
  }

  /** The loop's bindings are those `Bindings` prescribes for the parameters reached. */
  lemma {:induction false} BoundIsBindings(base: map<string, string>, ps: seq<string>, args: seq<string>, i: nat)
    requires 0 < i <= |ps| && i <= |args|
    ensures Bound(base, ps, args, i) == Bindings(base, ps[..i], args)
  {
    if i == 1 {
      BindNext(base, ps, args, 0);
    } else {
      BoundIsBindings(base, ps, args, i - 1);
      BindNext(base, ps, args, i - 1);
    }
  }

  /** Binding parameter i to argument i extends the bindings of the parameters before it. */
  lemma BindNext(base: map<string, string>, ps: seq<string>, args: seq<string>, i: nat)
    requires i < |ps| && i < |args|
    ensures Bindings(base, ps[..i + 1], args) == (if i == 0 then base else Bindings(base, ps[..i], args))[ps[i] := args[i]]
  {
    BindingsSnoc(base, ps[..i], ps[i], args);
    assert ps[..i + 1] == ps[..i] + [ps[i]];
    assert Bindings(base, [], args) == base;
  }

  /** The case for one member function, as the loop body computes it. */
  method MakeCase(c: SwitchCtx, key: string, f: Node, needs: bool) returns (r: Outcome<Case>)
    requires WellShaped(f)
    ensures r == CaseFor(c, key, f, needs)
  {
    var repl := CaseReplacements(c, f);
    if repl.Raised? || f.body.None? {
      return Raised;
    }
    var out := new Replacer(c.libtext, f.body.value, repl.value, c.retname, true);
    if out.raised {
      return Raised;
    }
    r := Done(Case(key, out.GetOutput(), needs || out.needsRetVal));
  }

  /**
   * The `switchoutput` loop over the object's keys, in the order given, and
   * the finished statement with whether it needs the temporary.
   */
  method BuildSwitch(c: SwitchCtx, keyvariable: string, needscall: string, ks: seq<string>, m: map<string, JSObject?>)
    returns (r: Outcome<(string, bool)>)
    requires (forall i :: 0 <= i < |ks| ==> ks[i] in m) && ShapedMembers(m)
    ensures r == Switch(c, keyvariable, needscall, ks, m, c.args)
  {
    var lines := [SwitchHead(keyvariable)];
    var needs := false;
    var haveArgs := false;
    ghost var done: seq<Case> := [];
    var i := 0;
    assert ks[0..] == ks;
    assert Continues(Cases(c, ks, m, false), [], Cases(c, ks, m, false)) by {
      var whole := Cases(c, ks, m, false);
      if whole.Done? {
        assert [] + whole.value == whole.value;
      }
    }
    while i < |ks|
      invariant 0 <= i <= |ks|
      invariant lines == [SwitchHead(keyvariable)] + AllLines(done)
      invariant haveArgs == (done != [])
      invariant needs == (if done == [] then false else done[|done| - 1].needs)
      invariant Continues(Cases(c, ks, m, false), done, Cases(c, ks[i..], m, needs))
    {
      var o := m[ks[i]];
      if o == null {
        CasesRaiseAt(c, ks, m, i, needs, Cases(c, ks, m, false), done);
        return Raised;
      }
      if o.fn.Some? {
        var cs := MakeCase(c, ks[i], o.fn.value, needs);
        if cs.Raised? {
          CasesRaiseAt(c, ks, m, i, needs, Cases(c, ks, m, false), done);
          return Raised;
        }
        var x := cs.value;
        CasesStepFn(c, ks, m, i, needs, Cases(c, ks, m, false), done, x);
        AllLinesSnoc(done, x);
        assert x.key == ks[i];
        AppendAssoc([SwitchHead(keyvariable)], AllLines(done), CaseLines(x));
        lines := lines + CaseLines(x);
        needs := x.needs;
        haveArgs := true;
        done := done + [x];
      } else {
        CasesStepPlain(c, ks, m, i, needs, Cases(c, ks, m, false), done);
      }
      i := i + 1;
    }
    assert ks[i..] == [];
    assert done + [] == done;
    if !haveArgs {
      return Raised;
    }
    lines := lines + [SwitchDefault(c.objectname, keyvariable, needscall, c.args)];
    r := Done((Concat(lines), needs));
  }

  lemma AppendAssoc(a: seq<string>, b: seq<string>, c: seq<string>)
    ensures (a + b) + c == a + (b + c)
  {
  }

  lemma AllLinesSnoc(done: seq<Case>, x: Case)
    ensures AllLines(done + [x]) == AllLines(done) + CaseLines(x)
  {
    assert (done + [x])[..|done|] == done;
  }

  /** A member that is None, or whose case fails, makes the whole list fail. */
  lemma CasesRaiseAt(c: SwitchCtx, ks: seq<string>, m: map<string, JSObject?>, i: nat, needs: bool,
                     whole: Outcome<seq<Case>>, done: seq<Case>)
    requires (forall j :: 0 <= j < |ks| ==> ks[j] in m) && ShapedMembers(m) && i < |ks|
    requires Continues(whole, done, Cases(c, ks[i..], m, needs))
    requires m[ks[i]] == null || (m[ks[i]].fn.Some? && CaseFor(c, ks[i], m[ks[i]].fn.value, needs).Raised?)
    ensures whole.Raised?
  {
  }

  /** Past a plain object nothing is emitted. */
  lemma CasesStepPlain(c: SwitchCtx, ks: seq<string>, m: map<string, JSObject?>, i: nat, needs: bool,
                       whole: Outcome<seq<Case>>, done: seq<Case>)
    requires (forall j :: 0 <= j < |ks| ==> ks[j] in m) && ShapedMembers(m) && i < |ks|
    requires Continues(whole, done, Cases(c, ks[i..], m, needs))
    requires m[ks[i]] != null && m[ks[i]].fn.None?
    ensures Continues(whole, done, Cases(c, ks[i + 1..], m, needs))
  {
    assert ks[i..][1..] == ks[i + 1..];
  }

  /** Past a member function its case is emitted, and it carries the temporary forward. */
  lemma CasesStepFn(c: SwitchCtx, ks: seq<string>, m: map<string, JSObject?>, i: nat, needs: bool,
                    whole: Outcome<seq<Case>>, done: seq<Case>, x: Case)
    requires (forall j :: 0 <= j < |ks| ==> ks[j] in m) && ShapedMembers(m) && i < |ks|
    requires Continues(whole, done, Cases(c, ks[i..], m, needs))
    requires m[ks[i]] != null && m[ks[i]].fn.Some? && CaseFor(c, ks[i], m[ks[i]].fn.value, needs) == Done(x)
    ensures Continues(whole, done + [x], Cases(c, ks[i + 1..], m, x.needs))
  {
    assert ks[i..][1..] == ks[i + 1..];
    var rest := Cases(c, ks[i + 1..], m, x.needs);
    if rest.Done? {
      assert done + ([x] + rest.value) == (done + [x]) + rest.value;
    }
  }

  // ---------------------------------------------------------------------------
  // What the switch contains.

  /** One case per member function, in the order of the keys. */
  lemma {:induction false} CasesKeys(c: SwitchCtx, ks: seq<string>, m: map<string, JSObject?>, needs: bool)
    requires (forall i :: 0 <= i < |ks| ==> ks[i] in m) && ShapedMembers(m)
    requires Cases(c, ks, m, needs).Done?
    ensures var cs := Cases(c, ks, m, needs).value;
      |cs| == |FnKeys(ks, m)| && forall i :: 0 <= i < |cs| ==> cs[i].key == FnKeys(ks, m)[i]
    decreases |ks|
  {
    if ks != [] {
      var o := m[ks[0]];
      if o.fn.None? {
        CasesKeys(c, ks[1..], m, needs);
      } else {
        var first := CaseFor(c, ks[0], o.fn.value, needs).value;
        CasesKeys(c, ks[1..], m, first.needs);
      }
    }
  }

  /**
   * Every inlined body is forced to use the temporary when there is one, so
   * a case needs it exactly when a temporary name was given (or an earlier
   * case already needed it).
   */
  lemma {:induction false} CasesNeed(c: SwitchCtx, ks: seq<string>, m: map<string, JSObject?>, needs: bool)
    requires (forall i :: 0 <= i < |ks| ==> ks[i] in m) && ShapedMembers(m)
    requires Cases(c, ks, m, needs).Done?
    ensures forall i :: 0 <= i < |Cases(c, ks, m, needs).value| ==>
      Cases(c, ks, m, needs).value[i].needs == (needs || c.retname.Some?)
    decreases |ks|
  {
    if ks != [] {
      var o := m[ks[0]];
      if o.fn.None? {
        CasesNeed(c, ks[1..], m, needs);
      } else {
        var first := CaseFor(c, ks[0], o.fn.value, needs).value;
        CasesNeed(c, ks[1..], m, first.needs);
      }
    }
  }

  /** Building the cases fails exactly when some member is None or some member function's case fails. */
  lemma {:induction false} CasesRaise(c: SwitchCtx, ks: seq<string>, m: map<string, JSObject?>, needs: bool)
    requires (forall i :: 0 <= i < |ks| ==> ks[i] in m) && ShapedMembers(m)
    ensures Cases(c, ks, m, needs).Raised? <==>
      exists i :: 0 <= i < |ks| && (m[ks[i]] == null || (m[ks[i]].fn.Some? && CaseFails(c, m[ks[i]].fn.value)))
    decreases |ks|
  {
    if ks != [] {
      var o := m[ks[0]];
      var tail := ks[1..];
      assert forall i :: 1 <= i < |ks| ==> ks[i] == tail[i - 1];
      if o != null && o.fn.Some? {
        CaseFailsAnyNeeds(c, ks[0], o.fn.value, needs);
        var r := CaseFor(c, ks[0], o.fn.value, needs);
        if r.Done? {
          CasesRaise(c, tail, m, r.value.needs);
        }
      } else if o != null {
        CasesRaise(c, tail, m, needs);
      }
    }
  }

  lemma CaseFailsAnyNeeds(c: SwitchCtx, key: string, f: Node, needs: bool)
    requires WellShaped(f)
    ensures CaseFor(c, key, f, needs).Raised? <==> CaseFails(c, f)
  {
  }

  /** With no member function at all, the switch raises; otherwise it ends with the `default:` call. */
  lemma SwitchShape(c: SwitchCtx, keyvariable: string, needscall: string, ks: seq<string>, m: map<string, JSObject?>, orig: seq<string>)
    requires (forall i :: 0 <= i < |ks| ==> ks[i] in m) && ShapedMembers(m)
    ensures FnKeys(ks, m) == [] ==> Switch(c, keyvariable, needscall, ks, m, orig).Raised?
    ensures Switch(c, keyvariable, needscall, ks, m, orig).Done? ==>
      var text := Switch(c, keyvariable, needscall, ks, m, orig).value.0;
      && SwitchHead(keyvariable) <= text
      && text[|text| - |SwitchDefault(c.objectname, keyvariable, needscall, orig)|..] == SwitchDefault(c.objectname, keyvariable, needscall, orig)
  {
    var r := Cases(c, ks, m, false);
    if r.Done? {
      CasesKeys(c, ks, m, false);
      var parts := [SwitchHead(keyvariable)] + AllLines(r.value);
      var d := SwitchDefault(c.objectname, keyvariable, needscall, orig);
      ConcatAppend(parts, [d]);
      ConcatAppend([SwitchHead(keyvariable)], AllLines(r.value));
      assert Concat([d]) == d by {
        assert [d][..0] == [];
      }
      assert Concat([SwitchHead(keyvariable)]) == SwitchHead(keyvariable) by {
        assert [SwitchHead(keyvariable)][..0] == [];
      }
    }
  }

  /** The switch needs the return temporary exactly when the call site asked for one. */
  lemma SwitchNeeds(c: SwitchCtx, keyvariable: string, needscall: string, ks: seq<string>, m: map<string, JSObject?>, orig: seq<string>)
    requires (forall i :: 0 <= i < |ks| ==> ks[i] in m) && ShapedMembers(m)
    requires Switch(c, keyvariable, needscall, ks, m, orig).Done?
    ensures Switch(c, keyvariable, needscall, ks, m, orig).value.1 == c.retname.Some?
  {
    CasesNeed(c, ks, m, false);
  }

  /** The labels of the keys "1" and "log": a bare `case 1:` only for the integer key. */
  lemma LabelExamples()
    ensures Labels("1") == ["\tcase \"1\":\n", "\tcase 1:\n"]
    ensures Labels("log") == ["\tcase \"log\":\n"]
  {
    LabelOfOne();
    LabelOfLog();
  }

  lemma LabelOfOne()
    ensures Labels("1") == ["\tcase \"1\":\n", "\tcase 1:\n"]
  {
    assert IntToString(1) == "1" by {
      assert NatToString(1) == "1";
    }
    PyIntOfIntString(1);
    assert IsIntKey("1");
    assert "\tcase \"" + "1" + "\":\n" == "\tcase \"1\":\n";
    assert "\tcase " + "1" + ":\n" == "\tcase 1:\n";
  }

  lemma LabelOfLog()
    ensures Labels("log") == ["\tcase \"log\":\n"]
  {
    NotIntLog();
    assert "\tcase \"" + "log" + "\":\n" == "\tcase \"log\":\n";
  }
}
