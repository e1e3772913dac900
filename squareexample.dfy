/**
 * The example of the test `test_singlecallretval` (jsfunklinertest.py:131-136):
 * a call whose value is used, of a function that is more than a lone return.
 * `square(2)` in the statement `var final = ...` hoists the rewritten body,
 * behind the temporary `retfinal0`, in front of the statement.
 */
module SquareExample {
  import opened Common
  import opened PyText
  import opened JsAst
  import opened CallSites
  import opened BodyRewriter
  import opened SnippetWalk
  import CallFacts

  function SquareText(): string
  {
    "function square(one) { var two = one; return one * two; }"
  }

  function SquareVar(): Node
  {
    var init := Mk(IDENTIFIER, 33, 36, [], "one");
    Mk(VAR, 23, 36, [Mk(IDENTIFIER, 27, 36, [], "two").(initializer := Some(init))], "var")
  }

  function SquareProduct(): Node
  {
    Mk(Other("MUL"), 45, 54, [Mk(IDENTIFIER, 45, 48, [], "one"), Mk(IDENTIFIER, 51, 54, [], "two")], "*")
  }

  function SquareReturn(): Node
  {
    Mk(RETURN, 38, 54, [], "return").(returned := Some(SquareProduct()))
  }

  function SquareBody(): Node
  {
    Mk(SCRIPT, 22, 56, [SquareVar(), SquareReturn()], "")
  }

  lemma SquareShaped()
    ensures WellShaped(SquareVar()) && WellShaped(SquareReturn()) && WellShaped(SquareBody())
  {
    LeafShaped(SquareVar().kids[0].initializer.value);
    LeafShaped(SquareProduct().kids[0]);
    LeafShaped(SquareProduct().kids[1]);
  }

  /** A library text holding, between the replaced identifiers, the text of `square`: `var two = `, `; ` and ` * two`. */
  predicate Gaps(text: string)
  {
    && Slice(text, 23, 33) == "var two = "
    && Slice(text, 36, 38) == "; "
    && Slice(text, 48, 54) == " * two"
  }

  lemma SquareGaps()
    ensures Gaps(SquareText())
  {
    var t := SquareText();
    assert |t| == 57;
    assert t[23..33] == "var two = " by {
      assert forall i :: 0 <= i < 10 ==> t[23..33][i] == t[23 + i];
    }
    assert t[36..38] == "; " by {
      assert forall i :: 0 <= i < 2 ==> t[36..38][i] == t[36 + i];
    }
    assert t[48..54] == " * two" by {
      assert forall i :: 0 <= i < 6 ==> t[48..54][i] == t[48 + i];
    }
  }

  function SquareCtx(text: string): Ctx
  {
    Ctx(text, map["one" := "2"], Some("retfinal0"), true)
  }

  /** The declaration up to its initializer is copied, the initializer replaced. */
  lemma SquareVarWalked(text: string, pre: seq<string>)
    requires Gaps(text)
    ensures WellShaped(SquareVar())
    ensures StatementWalk(SquareCtx(text), RState(pre, 23, false), SquareVar()) == RState(pre + ["var two = ", "2"], 36, false)
  {
    SquareShaped();
    NoAttrsWalked(SquareCtx(text), RState(pre + ["var two = ", "2"], 36, false), SquareVar());
  }

  /** In `one * two` only `one` is a parameter. */
  lemma SquareProductWalked(text: string, o: seq<string>)
    ensures WellShaped(SquareProduct())
    ensures ExpressionWalk(SquareCtx(text), RState(o, 45, false), SquareProduct()) == RState(o + ["", "2"], 48, false)
  {
    SquareShaped();
    var c, prod := SquareCtx(text), SquareProduct();
    var p1 := PieceWalk(c, RState(o, 45, false), prod.kids[0]);
    assert p1 == RState(o + ["", "2"], 48, false);
    assert PieceWalk(c, p1, prod.kids[1]) == p1;
    assert PiecesWalk(c, p1, prod, 1) == PiecesWalk(c, p1, prod, 2);
  }

  /** The return becomes an assignment to the temporary, ended by `;` and a newline. */
  lemma SquareReturnWalked(text: string, pre: seq<string>)
    requires Gaps(text)
    ensures WellShaped(SquareReturn())
    ensures StatementWalk(SquareCtx(text), RState(pre, 36, false), SquareReturn())
            == RState(pre + ["; ", "retfinal0 = "] + ["", "2"] + [" * two", ";\n"], 54, false)
  {
    var c := SquareCtx(text);
    var o := pre + ["; ", "retfinal0 = "];
    assert RState(pre + [Slice(text, 36, 38), c.retval.value + " = "], 45, false) == RState(o, 45, false) by {
      assert "retfinal0" + " = " == "retfinal0 = ";
    }
    SquareProductWalked(text, o);
    ReturnAssigned(c, RState(pre, 36, false), SquareReturn());
  }

  /** The two statements one after the other. */
  lemma SquareStatementsWalked(text: string, pre: seq<string>)
    requires Gaps(text)
    ensures WellShaped(SquareBody())
    ensures StatementsWalk(SquareCtx(text), RState(pre, 23, false), SquareBody(), 0)
            == RState(pre + ["var two = ", "2"] + ["; ", "retfinal0 = "] + ["", "2"] + [" * two", ";\n"], 54, false)
  {
    SquareShaped();
    var c, body := SquareCtx(text), SquareBody();
    var mid := pre + ["var two = ", "2"];
    var p := mid + ["; ", "retfinal0 = "] + ["", "2"] + [" * two", ";\n"];
    SquareVarWalked(text, pre);
    SquareReturnWalked(text, mid);
    assert StatementsWalk(c, RState(mid, 36, false), body, 1) == RState(p, 54, false) by {
      assert StatementsWalk(c, RState(p, 54, false), body, 2) == RState(p, 54, false);
    }
  }

  /** Both statements, then the empty copy up to the return's end. */
  lemma SquareBodyWalked(text: string, pre: seq<string>)
    requires Gaps(text)
    ensures WellShaped(SquareBody())
    ensures BranchWalk(SquareCtx(text), RState(pre, 23, false), SquareBody(), true)
            == RState(pre + ["var two = ", "2"] + ["; ", "retfinal0 = "] + ["", "2"] + [" * two", ";\n"] + [""], 54, false)
  {
    SquareStatementsWalked(text, pre);
    var p := pre + ["var two = ", "2"] + ["; ", "retfinal0 = "] + ["", "2"] + [" * two", ";\n"];
    assert EffEnd(LastKid(SquareBody())) == 54;
    TopBranchWalked(SquareCtx(text), RState(pre, 23, false), SquareBody(), p);
  }

  /** The text hoisted in front of `var final = square(2)`. */
  function SquareHoisted(): string
  {
    "var retfinal0 = undefined;\nvar two = 2; retfinal0 = 2 * two;\n"
  }

  /** The declaration of the temporary, then the rewritten declaration of `two`. */
  lemma SquareDeclsJoined(out: seq<string>)
    requires out == [Header("retfinal0"), "var two = ", "2"]
    ensures Concat(out) == "var retfinal0 = undefined;\nvar two = 2"
  {
    assert Concat(out[..1]) == "var retfinal0 = undefined;\n" by {
      assert out[..1][..0] == [];
    }
    assert Concat(out[..2]) == "var retfinal0 = undefined;\nvar two = " by {
      assert out[..2][..1] == out[..1];
    }
    assert out[..3][..2] == out[..2];
    assert out[..3] == out;
  }

  /** Then the start of the assignment to the temporary. */
  lemma SquareHeadJoined(out: seq<string>)
    requires out == [Header("retfinal0"), "var two = ", "2", "; ", "retfinal0 = "]
    ensures Concat(out) == "var retfinal0 = undefined;\nvar two = 2; retfinal0 = "
  {
    SquareDeclsJoined(out[..3]);
    assert Concat(out[..4]) == "var retfinal0 = undefined;\nvar two = 2; " by {
      assert out[..4][..3] == out[..3];
    }
    assert out[..5][..4] == out[..4];
    assert out[..5] == out;
  }

  /** The fragments of the rewritten body joined. */
  lemma SquareJoined()
    ensures Concat([Header("retfinal0")] + ["var two = ", "2"] + ["; ", "retfinal0 = "] + ["", "2"] + [" * two", ";\n"] + [""])
            == SquareHoisted()
  {
    var out := [Header("retfinal0")] + ["var two = ", "2"] + ["; ", "retfinal0 = "] + ["", "2"] + [" * two", ";\n"] + [""];
    assert out == [Header("retfinal0"), "var two = ", "2", "; ", "retfinal0 = ", "", "2", " * two", ";\n", ""];
    SquareHeadJoined(out[..5]);
    assert Concat(out[..6]) == "var retfinal0 = undefined;\nvar two = 2; retfinal0 = " by {
      assert out[..6][..5] == out[..5];
    }
    assert Concat(out[..7]) == "var retfinal0 = undefined;\nvar two = 2; retfinal0 = 2" by {
      assert out[..7][..6] == out[..6];
    }
    assert Concat(out[..8]) == "var retfinal0 = undefined;\nvar two = 2; retfinal0 = 2 * two" by {
      assert out[..8][..7] == out[..7];
    }
    assert Concat(out[..9]) == SquareHoisted() by {
      assert out[..9][..8] == out[..8];
    }
    assert out[..10][..9] == out[..9];
    assert out[..10] == out;
  }

  /**
   * `square`'s body for `square(2)` with the temporary `retfinal0`: the
   * declaration of the temporary, the body with `one` replaced, and the
   * return turned into an assignment.
   */
  lemma SquareRewritten(text: string)
    requires Gaps(text)
    ensures WellShaped(SquareBody())
    ensures Rewrite(text, SquareBody(), map["one" := "2"], Some("retfinal0"), false) == Done(SquareHoisted())
  {
    SquareBodyWalked(text, [Header("retfinal0")]);
    SquareJoined();
    assert NeedsRetVal(SquareBody(), Some("retfinal0"), false);
    assert Run(text, SquareBody(), map["one" := "2"], Some("retfinal0"), false)
      == RState([Header("retfinal0")] + ["var two = ", "2"] + ["; ", "retfinal0 = "] + ["", "2"] + [" * two", ";\n"] + [""], 54, false);
  }

  /** `square(one)` called with `2`. */
  lemma SquareBindings()
    ensures Bindings(map[], ["one"], ["2"]) == map["one" := "2"]
  {
    BindingsSpec(map[], ["one"], ["2"], "one");
  }

  /**
   * The first call of `var final = square(2)`: its temporary is `retfinal0`,
   * the call's text becomes that name, and the rewritten body is hoisted in
   * front of the statement.
   */
  lemma SquareHoistedCall(w: World, s: CState, call: Node)
    requires w.libtext == SquareText()
    ensures CallFacts.TempName("final", 0) == "retfinal0"
    ensures WellShaped(SquareBody())
    ensures InlineBody(w, s, call, Some("retfinal0"), true, SquareBody(), Bindings(map[], ["one"], ["2"]))
            == s.(out := s.out + [Slice(w.text, s.off, call.start), "retfinal0"], off := call.end, preput := s.preput + SquareHoisted())
  {
    assert IntToString(0) == "0";
    assert "ret" + "final" + "0" == "retfinal0";
    SquareGaps();
    SquareBindings();
    SquareRewritten(w.libtext);
    assert NeedsRetVal(SquareBody(), Some("retfinal0"), false);
    CallFacts.HoistSpliced(w, s, call, "retfinal0", SquareBody(), map["one" := "2"], SquareHoisted());
  }
}
