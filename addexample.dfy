/**
 * The `add` example of the tests `test_singlereturn` and
 * `test_doublecallinline` (jsfunklinertest.py:89-94, 110-115): a call whose
 * value is used, of a function that is a lone return, worked through the
 * body rewriter and the splice.  `add(a, b)` becomes `(a + b)` for any
 * argument texts, so `add(2,3)` becomes `(2 + 3)`.  The tree is the one the
 * parser gives for the library function, the `return` ending with its value.
 */
module AddExample {
  import opened Common
  import opened PyText
  import opened JsAst
  import opened CallSites
  import opened BodyRewriter
  import opened SnippetWalk
  import CallFacts

  // ---------------------------------------------------------------------------
  // `function add(one, two) { return one + two; }`

  function AddText(): string
  {
    "function add(one, two) { return one + two; }"
  }

  function AddSum(): Node
  {
    Mk(PLUS, 32, 41, [Mk(IDENTIFIER, 32, 35, [], "one"), Mk(IDENTIFIER, 38, 41, [], "two")], "+")
  }

  function AddReturn(): Node
  {
    Mk(RETURN, 25, 41, [], "return").(returned := Some(AddSum()))
  }

  function AddBody(): Node
  {
    Mk(SCRIPT, 24, 43, [AddReturn()], "")
  }

  lemma AddShaped()
    ensures WellShaped(AddSum()) && WellShaped(AddReturn()) && WellShaped(AddBody())
  {
    LeafShaped(AddSum().kids[0]);
    LeafShaped(AddSum().kids[1]);
  }

  /** A library text holding `add`'s operator, with its spaces, between the operands. */
  predicate Gap(text: string)
  {
    Slice(text, 35, 38) == " + "
  }

  lemma AddGap()
    ensures Gap(AddText())
  {
    var t := AddText();
    assert |t| == 44;
    assert t[35..38] == " + " by {
      assert forall i :: 0 <= i < 3 ==> t[35..38][i] == t[35 + i];
    }
  }

  function AddCtx(text: string, a: string, b: string): Ctx
  {
    Ctx(text, map["one" := a, "two" := b], None, false)
  }

  /** The gap between the two operands is copied, each operand replaced. */
  lemma AddSumWalked(text: string, a: string, b: string)
    requires Gap(text)
    ensures WellShaped(AddSum())
    ensures ExpressionWalk(AddCtx(text, a, b), RState([""], 32, false), AddSum()) == RState(["", "", a, " + ", b], 41, false)
  {
    AddShaped();
    var c, sum := AddCtx(text, a, b), AddSum();
    var s2 := RState([""], 32, false);
    var p1 := PieceWalk(c, s2, sum.kids[0]);
    assert p1 == RState(["", "", a], 35, false);
    var p2 := PieceWalk(c, p1, sum.kids[1]);
    assert p2 == RState(["", "", a, " + ", b], 41, false);
    assert PiecesWalk(c, p1, sum, 1) == PiecesWalk(c, p2, sum, 2);
  }

  /** The return keeps its value only: the cursor skips `return `, and nothing follows the value. */
  lemma AddReturnWalked(text: string, a: string, b: string)
    requires Gap(text)
    ensures WellShaped(AddReturn())
    ensures StatementWalk(AddCtx(text, a, b), RState([], 25, false), AddReturn()) == RState(["", "", a, " + ", b], 41, false)
  {
    AddShaped();
    AddSumWalked(text, a, b);
    var c, ret := AddCtx(text, a, b), AddReturn();
    var p2 := RState(["", "", a, " + ", b], 41, false);
    assert MoveTo(CopyTo(c, RState([], 25, false), 25), 32) == RState([""], 32, false);
    NoAttrsWalked(c, p2, ret);
  }

  /** The body's one statement, then the copy up to the return's end, which is empty. */
  lemma AddBodyWalked(text: string, a: string, b: string)
    requires Gap(text)
    ensures WellShaped(AddBody())
    ensures BranchWalk(AddCtx(text, a, b), RState([], 25, false), AddBody(), true) == RState(["", "", a, " + ", b, ""], 41, false)
  {
    AddShaped();
    AddReturnWalked(text, a, b);
    var c, body := AddCtx(text, a, b), AddBody();
    var s0 := RState([], 25, false);
    var p2 := RState(["", "", a, " + ", b], 41, false);
    assert StatementsWalk(c, s0, body, 0) == p2 by {
      assert StatementsWalk(c, p2, body, 1) == p2;
    }
  }

  lemma AddConcat(a: string, b: string)
    ensures Concat(["", "", a, " + ", b, ""]) == a + " + " + b
  {
    var out := ["", "", a, " + ", b, ""];
    assert Concat(out[..1]) == "" by {
      assert out[..1][..0] == [];
    }
    assert Concat(out[..2]) == "" by {
      assert out[..2][..1] == out[..1];
    }
    assert Concat(out[..3]) == a by {
      assert out[..3][..2] == out[..2];
    }
    assert Concat(out[..4]) == a + " + " by {
      assert out[..4][..3] == out[..3];
    }
    assert Concat(out[..5]) == a + " + " + b by {
      assert out[..5][..4] == out[..4];
    }
    assert out[..6][..5] == out[..5];
    assert out[..6] == out;
    assert Concat(out) == Concat(out[..5]) + "";
  }

  /** `add`'s body for `add(a, b)`: the return's value with the parameters replaced, `return` and `;` dropped. */
  lemma AddRewrittenFor(text: string, a: string, b: string)
    requires Gap(text)
    ensures WellShaped(AddBody())
    ensures Rewrite(text, AddBody(), map["one" := a, "two" := b], None, false) == Done(a + " + " + b)
  {
    AddBodyWalked(text, a, b);
    AddConcat(a, b);
    assert !NeedsRetVal(AddBody(), None, false);
    assert Run(text, AddBody(), map["one" := a, "two" := b], None, false) == RState(["", "", a, " + ", b, ""], 41, false);
  }

  /** The instance of the tests, `add(2,3)`: the body rewrites to `2 + 3`. */
  lemma AddRewritten(text: string)
    requires Gap(text)
    ensures WellShaped(AddBody())
    ensures Rewrite(text, AddBody(), map["one" := "2", "two" := "3"], None, false) == Done("2 + 3")
  {
    AddRewrittenFor(text, "2", "3");
    TwoPlusThree();
  }

  lemma TwoPlusThree()
    ensures "2" + " + " + "3" == "2 + 3"
    ensures "2" + " + " + "3" + ")" == "2 + 3)"
  {
    var x := "2" + " + ";
    assert x == "2 + ";
    assert x + "3" == "2 + 3";
    assert x + "3" + ")" == "2 + 3)";
  }

  /** `add(one, two)` called with the argument texts `a, b`. */
  lemma AddBindings(a: string, b: string)
    ensures Bindings(map[], ["one", "two"], [a, b]) == map["one" := a, "two" := b]
  {
    BindingsSpec(map[], ["one", "two"], [a, b], "one");
    BindingsSpec(map[], ["one", "two"], [a, b], "two");
  }

  /** `add(a, b)` whose value is used: the rewritten body in parentheses, `(a + b)`, in place of the call. */
  lemma AddInlinedAsValueFor(w: World, s: CState, call: Node, a: string, b: string)
    requires w.libtext == AddText()
    ensures WellShaped(AddBody())
    ensures InlineBody(w, s, call, None, true, AddBody(), Bindings(map[], ["one", "two"], [a, b]))
            == s.(out := s.out + [Slice(w.text, s.off, call.start) + "(", a + " + " + b + ")"], off := call.end)
  {
    AddGap();
    AddBindings(a, b);
    AddSpliced(w, s, call, a, b);
  }

  /** The instance of the tests: `add(2,3)` becomes `(2 + 3)`. */
  lemma AddInlinedAsValue(w: World, s: CState, call: Node)
    requires w.libtext == AddText()
    ensures WellShaped(AddBody())
    ensures InlineBody(w, s, call, None, true, AddBody(), Bindings(map[], ["one", "two"], ["2", "3"]))
            == s.(out := s.out + [Slice(w.text, s.off, call.start) + "(", "2 + 3)"], off := call.end)
  {
    AddInlinedAsValueFor(w, s, call, "2", "3");
    TwoPlusThree();
  }

  /** The splice of `add`'s rewritten body, over any library text with `add`'s operator in place. */
  lemma AddSpliced(w: World, s: CState, call: Node, a: string, b: string)
    requires Gap(w.libtext)
    ensures WellShaped(AddBody())
    ensures InlineBody(w, s, call, None, true, AddBody(), map["one" := a, "two" := b])
            == s.(out := s.out + [Slice(w.text, s.off, call.start) + "(", a + " + " + b + ")"], off := call.end)
  {
    AddRewrittenFor(w.libtext, a, b);
    CallFacts.ValueSpliced(w, s, call, AddBody(), map["one" := a, "two" := b], a + " + " + b);
  }
}
