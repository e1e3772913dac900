/**
 * `parsefunctiontypes`: reading `/*:Type*/` annotations off a parameter list.
 * A parameter is annotated when it reads
 *     name  spaces  /*  spaces  :  spaces  Type  spaces  */  anything
 * with `name` an identifier (`[a-zA-Z_$][a-zA-Z0-9_$]*`) and `Type` a dotted
 * identifier (`[a-zA-Z_$][a-zA-Z0-9_$.]*`).  The regular expression that
 * accepts this shape is replaced by a small matcher proved to accept exactly
 * it.  Every piece in the shape is maximal, because a name or type character
 * is neither a space nor the `/` or `*` that follows it, so the match is unique.
 */
module FunctionTypes {
  import opened Common
  import opened PyText

  predicate IsNameStart(ch: char)
  {
    ('a' <= ch <= 'z') || ('A' <= ch <= 'Z') || ch == '_' || ch == '$'
  }

  predicate IsNameChar(ch: char)
  {
    IsNameStart(ch) || ('0' <= ch <= '9')
  }

  predicate IsTypeChar(ch: char)
  {
    IsNameChar(ch) || ch == '.'
  }

  /** The character classes the matcher scans over. */
  datatype Class = NameChars | TypeChars

  predicate In(ch: char, cls: Class)
  {
    match cls
    case NameChars => IsNameChar(ch)
    case TypeChars => IsTypeChar(ch)
  }

  /** The longest prefix of `s` made of `cls` characters. */
  function TakeWhile(s: string, cls: Class): (r: string)
    ensures r <= s && forall k :: 0 <= k < |r| ==> In(r[k], cls)
    ensures |r| < |s| ==> !In(s[|r|], cls)
    decreases |s|
  {
    if s != [] && In(s[0], cls) then [s[0]] + TakeWhile(s[1..], cls) else []
  }

  /** What is left of `s` after its longest prefix of `cls` characters. */
  function DropWhile(s: string, cls: Class): (r: string)
    ensures s == TakeWhile(s, cls) + r
    decreases |s|
  {
    if s != [] && In(s[0], cls) then DropWhile(s[1..], cls) else s
  }

  predicate AllIn(s: string, cls: Class)
  {
    forall k :: 0 <= k < |s| ==> In(s[k], cls)
  }

  predicate AllSpace(s: string)
  {
    forall k :: 0 <= k < |s| ==> IsSpace(s[k])
  }

  /** A string that does not start with a `cls` character. */
  predicate StopsClass(s: string, cls: Class)
  {
    s == [] || !In(s[0], cls)
  }

  predicate StopsSpace(s: string)
  {
    s == [] || !IsSpace(s[0])
  }

  predicate IsName(n: string)
  {
    |n| > 0 && IsNameStart(n[0]) && AllIn(n[1..], NameChars)
  }

  predicate IsType(t: string)
  {
    |t| > 0 && IsNameStart(t[0]) && AllIn(t[1..], TypeChars)
  }

  /** The annotated shape, written out piece by piece. */
  function Compose(n: string, w1: string, w2: string, w3: string, t: string, w4: string, rest: string): string
  {
    n + (w1 + ("/*" + (w2 + (":" + (w3 + (t + (w4 + ("*/" + rest))))))))
  }

  /** `p` is an annotation of parameter `n` with type `t`. */
  ghost predicate Annotated(p: string, n: string, t: string)
  {
    exists w1, w2, w3, w4, rest ::
      && IsName(n) && IsType(t) && AllSpace(w1) && AllSpace(w2) && AllSpace(w3) && AllSpace(w4)
      && p == Compose(n, w1, w2, w3, t, w4, rest)
  }

  /**
   * `re.match` of the annotation pattern: anchored at the first character of
   * `p`.  Returns the parameter name and its type.  The stages below each
   * consume one piece of the shape and skip the spaces after it.
   */
  function MatchAt(p: string): Option<(string, string)>
  {
    if |p| == 0 || !IsNameStart(p[0]) then None
    else OpenComment([p[0]] + TakeWhile(p[1..], NameChars), StripFront(DropWhile(p[1..], NameChars)))
  }

  // After the name `n`: the opening slash-star.
  function OpenComment(n: string, r: string): Option<(string, string)>
  {
    if "/*" <= r then Colon(n, StripFront(r[2..])) else None
  }

  function Colon(n: string, r: string): Option<(string, string)>
  {
    if ":" <= r then TypeName(n, StripFront(r[1..])) else None
  }

  function TypeName(n: string, r: string): Option<(string, string)>
  {
    if |r| > 0 && IsNameStart(r[0])
    then CloseComment(n, [r[0]] + TakeWhile(r[1..], TypeChars), StripFront(DropWhile(r[1..], TypeChars)))
    else None
  }

  // After the type `t`: the closing star-slash.
  function CloseComment(n: string, t: string, r: string): Option<(string, string)>
  {
    if "*/" <= r then Some((n, t)) else None
  }

  // ---------------------------------------------------------------------------
  // Scanning lemmas.

  lemma {:induction false} TakeDropExact(x: string, y: string, cls: Class)
    requires AllIn(x, cls) && StopsClass(y, cls)
    ensures TakeWhile(x + y, cls) == x && DropWhile(x + y, cls) == y
    decreases |x|
  {
    if x != [] {
      assert (x + y)[1..] == x[1..] + y;
      TakeDropExact(x[1..], y, cls);
      assert x == [x[0]] + x[1..];
    } else {
      assert x + y == y;
    }
  }

  lemma {:induction false} StripExact(w: string, y: string)
    requires AllSpace(w) && StopsSpace(y)
    ensures StripFront(w + y) == y
    decreases |w|
  {
    if w != [] {
      assert (w + y)[1..] == w[1..] + y;
      StripExact(w[1..], y);
    } else {
      assert w + y == y;
    }
  }

  /** Whatever `StripFront` removed is whitespace. */
  lemma {:induction false} StripSplits(s: string) returns (w: string)
    ensures AllSpace(w) && s == w + StripFront(s)
    ensures StopsSpace(StripFront(s))
    decreases |s|
  {
    if s != [] && IsSpace(s[0]) {
      var w' := StripSplits(s[1..]);
      w := [s[0]] + w';
      assert StripFront(s) == StripFront(s[1..]);
      assert w + StripFront(s) == [s[0]] + (w' + StripFront(s[1..]));
      assert s == [s[0]] + s[1..];
      assert forall k :: 1 <= k < |w| ==> w[k] == w'[k - 1];
    } else {
      w := [];
      assert w + s == s;
    }
  }

  // ---------------------------------------------------------------------------
  // The matcher accepts exactly the annotated shape.

  lemma TypeComplete(n: string, t: string, w4: string, rest: string)
    requires IsType(t) && AllSpace(w4)
    ensures TypeName(n, t + (w4 + ("*/" + rest))) == Some((n, t))
  {
    var r := t + (w4 + ("*/" + rest));
    assert r[0] == t[0];
    assert r[1..] == t[1..] + (w4 + ("*/" + rest));
    TakeDropExact(t[1..], w4 + ("*/" + rest), TypeChars);
    StripExact(w4, "*/" + rest);
    assert [t[0]] + t[1..] == t;
  }

  lemma MiddleComplete(n: string, w2: string, w3: string, t: string, w4: string, rest: string)
    requires IsType(t) && AllSpace(w2) && AllSpace(w3) && AllSpace(w4)
    ensures OpenComment(n, "/*" + (w2 + (":" + (w3 + (t + (w4 + ("*/" + rest))))))) == Some((n, t))
  {
    var b := t + (w4 + ("*/" + rest));
    var c := ":" + (w3 + b);
    var d := "/*" + (w2 + c);
    TypeComplete(n, t, w4, rest);
    assert b[0] == t[0];
    assert c[1..] == w3 + b;
    StripExact(w3, b);
    assert d[2..] == w2 + c;
    StripExact(w2, c);
  }

  /** Every annotated parameter is matched, with its own name and type. */
  lemma MatchComplete(n: string, w1: string, w2: string, w3: string, t: string, w4: string, rest: string)
    requires IsName(n) && IsType(t) && AllSpace(w1) && AllSpace(w2) && AllSpace(w3) && AllSpace(w4)
    ensures MatchAt(Compose(n, w1, w2, w3, t, w4, rest)) == Some((n, t))
  {
    var d := "/*" + (w2 + (":" + (w3 + (t + (w4 + ("*/" + rest))))));
    var p := Compose(n, w1, w2, w3, t, w4, rest);
    assert p == n + (w1 + d);
    MiddleComplete(n, w2, w3, t, w4, rest);
    assert p[0] == n[0];
    assert p[1..] == n[1..] + (w1 + d);
    TakeDropExact(n[1..], w1 + d, NameChars);
    StripExact(w1, d);
    assert [n[0]] + n[1..] == n;
  }

  lemma SoundTail(n: string, r3: string) returns (t: string, w4: string, rest: string)
    requires TypeName(n, r3).Some?
    ensures TypeName(n, r3) == Some((n, t))
    ensures IsType(t) && AllSpace(w4) && r3 == t + (w4 + ("*/" + rest))
  {
    var tw := TakeWhile(r3[1..], TypeChars);
    var d4 := DropWhile(r3[1..], TypeChars);
    t := [r3[0]] + tw;
    var r4 := StripFront(d4);
    w4 := StripSplits(d4);
    assert "*/" <= r4;
    rest := r4[2..];
    assert r4 == "*/" + rest;
    assert t[1..] == tw && AllIn(tw, TypeChars);
    assert r3 == [r3[0]] + r3[1..];
    Glue(r3, [r3[0]], r3[1..], tw, d4, w4, r4);
  }

  lemma Glue(x: string, a: string, y: string, b: string, d: string, w: string, r: string)
    requires x == a + y && y == b + d && d == w + r
    ensures x == (a + b) + (w + r)
  {
  }

  lemma SoundMiddle(n: string, r1: string) returns (w2: string, w3: string, r3: string)
    requires OpenComment(n, r1).Some?
    ensures OpenComment(n, r1) == TypeName(n, r3)
    ensures AllSpace(w2) && AllSpace(w3) && r1 == "/*" + (w2 + (":" + (w3 + r3)))
  {
    var r2 := StripFront(r1[2..]);
    w2 := StripSplits(r1[2..]);
    r3 := StripFront(r2[1..]);
    w3 := StripSplits(r2[1..]);
    assert r2 == ":" + (w3 + r3);
    assert r1 == "/*" + r1[2..];
  }

  /** Whatever is matched is an annotated parameter. */
  lemma MatchSound(p: string)
    requires MatchAt(p).Some?
    ensures Annotated(p, MatchAt(p).value.0, MatchAt(p).value.1)
  {
    var n := [p[0]] + TakeWhile(p[1..], NameChars);
    var d0 := DropWhile(p[1..], NameChars);
    var r1 := StripFront(d0);
    var w1 := StripSplits(d0);
    var w2, w3, r3 := SoundMiddle(n, r1);
    var t, w4, rest := SoundTail(n, r3);
    assert MatchAt(p) == Some((n, t));
    assert p == [p[0]] + p[1..];
    Glue(p, [p[0]], p[1..], TakeWhile(p[1..], NameChars), d0, w1, r1);
    var tail := t + (w4 + ("*/" + rest));
    assert r3 == tail;
    assert r1 == "/*" + (w2 + (":" + (w3 + tail)));
    assert p == Compose(n, w1, w2, w3, t, w4, rest);
    assert IsName(n) by {
      assert n[1..] == TakeWhile(p[1..], NameChars);
    }
  }

  /** The matcher's result, both directions: a match is exactly an annotation. */
  lemma MatchIff(p: string, n: string, t: string)
    ensures MatchAt(p) == Some((n, t)) <==> Annotated(p, n, t)
  {
    if MatchAt(p) == Some((n, t)) {
      MatchSound(p);
    }
    if Annotated(p, n, t) {
      var w1, w2, w3, w4, rest :|
        && IsName(n) && IsType(t) && AllSpace(w1) && AllSpace(w2) && AllSpace(w3) && AllSpace(w4)
        && p == Compose(n, w1, w2, w3, t, w4, rest);
      MatchComplete(n, w1, w2, w3, t, w4, rest);
    }
  }

  // ---------------------------------------------------------------------------
  // The parameter list.

  /**
   * How one comma-separated piece of the signature is matched.  The source
   * matches each piece as it comes (`strict`, what the walk uses); the piece
   * after `, ` then starts with a space and never matches, which drops every
   * annotation but the first.  Matching after leading whitespace instead
   * (`!strict`) is what the documented example
   * `variable/*:type*/, othervar /* :mytype */` intends.
   */
  function MatchParam(p: string, strict: bool): Option<(string, string)>
  {
    if strict then MatchAt(p) else MatchAt(StripFront(p))
  }

  /** The match of every piece, in order. */
  function MatchAll(params: seq<string>, strict: bool): (ms: seq<Option<(string, string)>>)
    ensures |ms| == |params| && forall i :: 0 <= i < |params| ==> ms[i] == MatchParam(params[i], strict)
  {
    seq(|params|, i requires 0 <= i < |params| => MatchParam(params[i], strict))
  }

  /** The dictionary built from the matches, a later one overwriting an earlier one. */
  function Fold(ms: seq<Option<(string, string)>>): map<string, string>
    decreases |ms|
  {
    if ms == [] then map[]
    else
      var m := Fold(ms[..|ms| - 1]);
      match ms[|ms| - 1]
      case None => m
      case Some(nt) => m[nt.0 := nt.1]
  }

  /** `parsefunctiontypes`' result for the pieces of a signature. */
  function TypesOf(params: seq<string>, strict: bool): map<string, string>
  {
    Fold(MatchAll(params, strict))
  }

  /** A match that annotates the name `x`. */
  predicate Names(m: Option<(string, string)>, x: string)
  {
    m.Some? && m.value.0 == x
  }

  /** A name is in the dictionary exactly when some match annotates it. */
  lemma {:induction false} FoldDomain(ms: seq<Option<(string, string)>>, x: string)
    ensures x in Fold(ms) <==> exists i :: 0 <= i < |ms| && Names(ms[i], x)
    decreases |ms|
  {
    if ms != [] {
      var init := ms[..|ms| - 1];
      FoldDomain(init, x);
      if x in Fold(init) {
        var i :| 0 <= i < |init| && Names(init[i], x);
        assert ms[i] == init[i];
      }
      if exists i :: 0 <= i < |ms| && Names(ms[i], x) {
        var i :| 0 <= i < |ms| && Names(ms[i], x);
        if i < |init| {
          assert Names(init[i], x);
        }
      }
    }
  }

  /** The type a name gets is the one the last match annotating it gives. */
  lemma {:induction false} FoldLast(ms: seq<Option<(string, string)>>, x: string, i: nat)
    requires i < |ms| && Names(ms[i], x)
    requires forall j :: i < j < |ms| ==> !Names(ms[j], x)
    ensures x in Fold(ms) && Fold(ms)[x] == ms[i].value.1
    decreases |ms|
  {
    var init := ms[..|ms| - 1];
    if i < |ms| - 1 {
      assert forall j :: i < j < |init| ==> init[j] == ms[j];
      FoldLast(init, x, i);
      assert !Names(ms[|ms| - 1], x);
    }
  }

  /**
   * Over the pieces of a signature: a name is typed exactly when some piece
   * annotates it, and it gets the type of the last such piece.
   */
  lemma TypesOfSpec(params: seq<string>, strict: bool, x: string)
    ensures x in TypesOf(params, strict) <==> exists i :: 0 <= i < |params| && Names(MatchParam(params[i], strict), x)
    ensures forall i ::
      (0 <= i < |params| && Names(MatchParam(params[i], strict), x)
       && (forall j :: i < j < |params| ==> !Names(MatchParam(params[j], strict), x)))
      ==> (x in TypesOf(params, strict) && TypesOf(params, strict)[x] == MatchParam(params[i], strict).value.1)
  {
    var ms := MatchAll(params, strict);
    FoldDomain(ms, x);
    forall i | 0 <= i < |params| && Names(MatchParam(params[i], strict), x)
      && (forall j :: i < j < |params| ==> !Names(MatchParam(params[j], strict), x))
      ensures x in TypesOf(params, strict) && TypesOf(params, strict)[x] == MatchParam(params[i], strict).value.1
    {
      FoldLast(ms, x, i);
    }
  }

  /** Every typed parameter is a name, so it has no `.` in it. */
  lemma TypedAreNames(params: seq<string>, strict: bool, x: string)
    requires x in TypesOf(params, strict)
    ensures IsName(x) && '.' !in x
  {
    TypesOfSpec(params, strict, x);
    var i :| 0 <= i < |params| && Names(MatchParam(params[i], strict), x);
    var p := if strict then params[i] else StripFront(params[i]);
    assert MatchAt(p) == MatchParam(params[i], strict);
    MatchSound(p);
    AnnotatedName(p, x, MatchAt(p).value.1);
    NameHasNoDot(x);
  }

  lemma AnnotatedName(p: string, n: string, t: string)
    requires Annotated(p, n, t)
    ensures IsName(n)
  {
  }

  lemma NameHasNoDot(x: string)
    requires IsName(x)
    ensures '.' !in x
  {
    assert forall k :: 1 <= k < |x| ==> x[k] == x[1..][k - 1];
  }

  /** The parameter-to-type map of a signature comment, as the scanning loop builds it. */
  method ParseFunctionTypes(signature: string) returns (ret: map<string, string>)
    ensures ret == TypesOf(Split(signature, ','), true)
  {
    var params := Split(signature, ',');
    ghost var ms := MatchAll(params, true);
    ret := map[];
    var i := 0;
    while i < |params|
      invariant 0 <= i <= |params|
      invariant ret == Fold(ms[..i])
    {
      assert ms[..i + 1][..i] == ms[..i];
      var m := MatchParam(params[i], true);
      if m.Some? {
        ret := ret[m.value.0 := m.value.1];
      }
      i := i + 1;
    }
    assert ms[..i] == ms;
  }

  // ---------------------------------------------------------------------------
  // Examples: the documented signature and the annotated-parameter tests.

  lemma CommaSplit(a: string, b: string)
    requires ',' !in a && ',' !in b
    ensures Split(a + "," + b, ',') == [a, b]
  {
    SplitAround(a, b, ',');
    SplitNoSeparator(a, ',');
    SplitNoSeparator(b, ',');
  }

  lemma AllNameChars(s: string)
    requires forall k :: 0 <= k < |s| ==> IsNameChar(s[k])
    ensures AllIn(s, NameChars) && AllIn(s, TypeChars)
  {
  }

  lemma NoComma(n: string, w1: string, w2: string, w3: string, t: string, w4: string, rest: string)
    requires IsName(n) && IsType(t) && AllSpace(w1) && AllSpace(w2) && AllSpace(w3) && AllSpace(w4)
    requires ',' !in rest
    ensures ',' !in Compose(n, w1, w2, w3, t, w4, rest)
  {
    assert n == [n[0]] + n[1..];
    assert t == [t[0]] + t[1..];
  }

  /** An annotated piece without leading whitespace is matched either way. */
  lemma PieceMatches(n: string, w1: string, w2: string, w3: string, t: string, w4: string, rest: string, strict: bool)
    requires IsName(n) && IsType(t) && AllSpace(w1) && AllSpace(w2) && AllSpace(w3) && AllSpace(w4)
    ensures MatchParam(Compose(n, w1, w2, w3, t, w4, rest), strict) == Some((n, t))
  {
    var a := Compose(n, w1, w2, w3, t, w4, rest);
    MatchComplete(n, w1, w2, w3, t, w4, rest);
    assert a[0] == n[0];
    StripExact("", a);
    assert "" + a == a;
  }

  /** A piece starting with a space never matches as written; after the space it is matched as `p`. */
  lemma SpacedPiece(p: string, strict: bool)
    requires p != [] && IsNameStart(p[0])
    ensures MatchParam(" " + p, strict) == if strict then None else MatchAt(p)
  {
    StripExact(" ", p);
  }

  lemma FoldOne(x: Option<(string, string)>)
    ensures Fold([x]) == if x.Some? then map[x.value.0 := x.value.1] else map[]
  {
    assert [x][..0] == [];
  }

  lemma FoldTwo(x: Option<(string, string)>, y: Option<(string, string)>)
    ensures Fold([x, y]) == var m := Fold([x]); if y.Some? then m[y.value.0 := y.value.1] else m
  {
    assert [x, y][..1] == [x];
  }

  /** A signature of two comma-free pieces folds their two matches. */
  lemma TwoPieces(a: string, b: string, strict: bool)
    requires ',' !in a && ',' !in b
    ensures TypesOf(Split(a + "," + b, ','), strict) == Fold([MatchParam(a, strict), MatchParam(b, strict)])
  {
    CommaSplit(a, b);
    assert MatchAll([a, b], strict) == [MatchParam(a, strict), MatchParam(b, strict)];
  }

  /**
   * The documented two-parameter shape `a/*:A*/, b /* :B */`: matching each
   * piece as it comes types only `a`; matching after leading whitespace types both.
   */
  lemma TwoAnnotations(n1: string, t1: string, n2: string, t2: string, strict: bool)
    requires IsName(n1) && IsType(t1) && IsName(n2) && IsType(t2)
    ensures var a, b := Compose(n1, "", "", "", t1, "", ""), " " + Compose(n2, " ", " ", "", t2, " ", "");
      TypesOf(Split(a + "," + b, ','), strict) == if strict then map[n1 := t1] else map[n1 := t1, n2 := t2]
  {
    var b0 := Compose(n2, " ", " ", "", t2, " ", "");
    var a, b := Compose(n1, "", "", "", t1, "", ""), " " + b0;
    NoComma(n1, "", "", "", t1, "", "");
    NoComma(n2, " ", " ", "", t2, " ", "");
    TwoPieces(a, b, strict);
    PieceMatches(n1, "", "", "", t1, "", "", strict);
    SecondPiece(n2, t2, strict);
    FoldOne(Some((n1, t1)));
    FoldTwo(Some((n1, t1)), if strict then None else Some((n2, t2)));
  }

  lemma SecondPiece(n: string, t: string, strict: bool)
    requires IsName(n) && IsType(t)
    ensures MatchParam(" " + Compose(n, " ", " ", "", t, " ", ""), strict) == if strict then None else Some((n, t))
  {
    var b0 := Compose(n, " ", " ", "", t, " ", "");
    MatchComplete(n, " ", " ", "", t, " ", "");
    assert b0[0] == n[0];
    SpacedPiece(b0, strict);
  }

  /** As written, the documented example yields only the first annotation. */
  lemma DocExampleStrict()
    ensures TypesOf(Split("variable/*:type*/, othervar /* :mytype */", ','), true) == map["variable" := "type"]
  {
    AllNameChars("ariable");
    AllNameChars("ype");
    AllNameChars("thervar");
    AllNameChars("ytype");
    DocExampleShape();
    TwoAnnotations("variable", "type", "othervar", "mytype", true);
  }

  /** Matching after leading whitespace yields both annotations of the documented example. */
  lemma DocExample()
    ensures TypesOf(Split("variable/*:type*/, othervar /* :mytype */", ','), false)
      == map["variable" := "type", "othervar" := "mytype"]
  {
    AllNameChars("ariable");
    AllNameChars("ype");
    AllNameChars("thervar");
    AllNameChars("ytype");
    DocExampleShape();
    TwoAnnotations("variable", "type", "othervar", "mytype", false);
  }

  /** The documented example is the two-parameter shape of `TwoAnnotations`. */
  lemma DocExampleShape()
    ensures "variable/*:type*/, othervar /* :mytype */"
      == Compose("variable", "", "", "", "type", "", "") + "," + (" " + Compose("othervar", " ", " ", "", "mytype", " ", ""))
  {
    FirstDocPiece();
    SecondDocPiece();
    assert "variable/*:type*/," == "variable/*:type*/" + ",";
    assert "variable/*:type*/, othervar /* :mytype */" == "variable/*:type*/," + " othervar /* :mytype */";
  }

  lemma FirstDocPiece()
    ensures "variable/*:type*/" == Compose("variable", "", "", "", "type", "", "")
  {
    assert "*/" + "" == "*/";
    assert "type" + ("" + "*/") == "type*/";
    assert ":" + ("" + "type*/") == ":type*/";
    assert "/*" + ("" + ":type*/") == "/*:type*/";
  }

  lemma SecondDocPiece()
    ensures " othervar /* :mytype */" == " " + Compose("othervar", " ", " ", "", "mytype", " ", "")
  {
    assert "/* :mytype */" == "/*" + (" " + (":" + ("" + ("mytype" + (" " + ("*/" + "")))))) by {
      assert "*/" + "" == "*/";
      assert "mytype" + (" " + "*/") == "mytype */";
      assert ":" + ("" + "mytype */") == ":mytype */";
      assert "/*" + (" " + ":mytype */") == "/* :mytype */";
    }
    assert " othervar /* :mytype */" == " " + ("othervar" + (" " + "/* :mytype */"));
  }

  /** `logger /* : object */ , message`: spaces inside the annotation are allowed, either way of matching. */
  lemma SpacedAnnotationExample(strict: bool)
    ensures TypesOf(Split("logger /* : object */ , message", ','), strict) == map["logger" := "object"]
  {
    AllNameChars("ogger");
    AllNameChars("bject");
    AllNameChars("essage");
    assert "logger /* : object */ , message" == Compose("logger", " ", " ", " ", "object", " ", " ") + "," + (" " + "message") by {
      assert "*/" + " " == "*/ ";
      assert "object" + (" " + "*/ ") == "object */ ";
      assert ":" + (" " + "object */ ") == ": object */ ";
      assert "/*" + (" " + ": object */ ") == "/* : object */ ";
      assert "logger" + (" " + "/* : object */ ") == "logger /* : object */ ";
      assert "logger /* : object */ , message" == "logger /* : object */ " + "," + " message";
    }
    SpacedShape("logger", "object", "message", strict);
  }

  lemma SpacedShape(n: string, t: string, m: string, strict: bool)
    requires IsName(n) && IsType(t) && IsName(m)
    ensures TypesOf(Split(Compose(n, " ", " ", " ", t, " ", " ") + "," + (" " + m), ','), strict) == map[n := t]
  {
    var a, b := Compose(n, " ", " ", " ", t, " ", " "), " " + m;
    NoComma(n, " ", " ", " ", t, " ", " ");
    assert m == [m[0]] + m[1..];
    TwoPieces(a, b, strict);
    PieceMatches(n, " ", " ", " ", t, " ", " ", strict);
    NameAloneUnmatched(m, strict);
    FoldOne(Some((n, t)));
    FoldTwo(Some((n, t)), None);
  }

  /** A bare name after a space, not followed by an annotation, is not matched either way. */
  lemma NameAloneUnmatched(m: string, strict: bool)
    requires IsName(m)
    ensures MatchParam(" " + m, strict) == None
  {
    SpacedPiece(m, strict);
    if !strict {
      TakeDropExact(m[1..], [], NameChars);
      assert m[1..] + [] == m[1..];
    }
  }

  /** `logger/*:deep.object*/`: a type may be a dotted path, either way of matching. */
  lemma DottedTypeExample(strict: bool)
    ensures TypesOf(Split("logger/*:deep.object*/", ','), strict) == map["logger" := "deep.object"]
  {
    AllNameChars("ogger");
    assert AllIn("eep.object", TypeChars);
    assert "logger/*:deep.object*/" == Compose("logger", "", "", "", "deep.object", "", "") by {
      assert "/*:deep.object*/" == "/*" + ("" + (":" + ("" + ("deep.object" + ("" + ("*/" + "")))))) by {
        assert "*/" + "" == "*/";
        assert "deep.object" + ("" + "*/") == "deep.object*/";
        assert ":" + ("" + "deep.object*/") == ":deep.object*/";
      }
      assert "logger" + ("" + "/*:deep.object*/") == "logger/*:deep.object*/";
    }
    OneAnnotation("logger", "deep.object", strict);
  }

  lemma OneAnnotation(n: string, t: string, strict: bool)
    requires IsName(n) && IsType(t)
    ensures TypesOf(Split(Compose(n, "", "", "", t, "", ""), ','), strict) == map[n := t]
  {
    var a := Compose(n, "", "", "", t, "", "");
    NoComma(n, "", "", "", t, "", "");
    SplitNoSeparator(a, ',');
    PieceMatches(n, "", "", "", t, "", "", strict);
    var ms := MatchAll([a], strict);
    assert ms == [Some((n, t))];
    FoldOne(Some((n, t)));
  }
}
