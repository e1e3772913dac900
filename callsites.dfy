/**
 * The text a call site hands to an inlined body: the call's arguments as
 * source text, and the replacement dictionary that binds the callee's
 * parameters to them.
 */
module CallSites {
  import opened Common
  import opened PyText
  import opened JsAst
  import opened Paths

  /** `'"' + s + '"'`. */
  function Quote(s: string): string
  {
    "\"" + s + "\""
  }

  /**
   * One argument of `replacecall`: a string literal is re-quoted, anything
   * else is its path.  A node with no path gives `None`, which the body
   * rewriter later prints as `str(None)`.
   */
  function ArgText(n: Node): Outcome<string>
    requires WellShaped(n)
  {
    if n.kind == STRING then Done(Quote(n.value))
    else
      match CrawlIdentifier(n)
      case Raised => Raised
      case Done(p) => Done(if p.Some? then p.value else "None")
  }

  /** The argument list, evaluated left to right; the first failure propagates. */
  function Args(ns: seq<Node>): Outcome<seq<string>>
    requires forall i :: 0 <= i < |ns| ==> WellShaped(ns[i])
    decreases |ns|
  {
    if ns == [] then Done([])
    else
      match ArgText(ns[0])
      case Raised => Raised
      case Done(a) =>
        match Args(ns[1..])
        case Raised => Raised
        case Done(rest) => Done([a] + rest)
  }

  /** The list is computed exactly when every argument is, and then element by element. */
  lemma {:induction false} ArgsSpec(ns: seq<Node>)
    requires forall i :: 0 <= i < |ns| ==> WellShaped(ns[i])
    ensures Args(ns).Done? <==> forall i :: 0 <= i < |ns| ==> ArgText(ns[i]).Done?
    ensures Args(ns).Done? ==>
      |Args(ns).value| == |ns| && forall i :: 0 <= i < |ns| ==> Args(ns).value[i] == ArgText(ns[i]).value
    decreases |ns|
  {
    if ns != [] {
      var t := ns[1..];
      ArgsSpec(t);
      assert forall i :: 1 <= i < |ns| ==> ns[i] == t[i - 1];
      match ArgText(ns[0])
      case Raised =>
      case Done(a) =>
        if Args(t).Done? {
          assert Args(ns).value == [a] + Args(t).value;
        } else {
          var j :| 0 <= j < |t| && !ArgText(t[j]).Done?;
          assert !ArgText(ns[j + 1]).Done?;
        }
    }
  }

  /** The position of the last `x` in `s`. */
  function LastIndex(s: seq<string>, x: string): (k: nat)
    requires x in s
    ensures k < |s| && s[k] == x && forall j :: k < j < |s| ==> s[j] != x
    decreases |s|
  {
    if s[|s| - 1] == x then |s| - 1 else LastIndex(s[..|s| - 1], x)
  }

  /** The i-th argument, or `'undefined'` when the call passed fewer. */
  function ArgOr(args: seq<string>, i: nat): string
  {
    if i < |args| then args[i] else "undefined"
  }

  /**
   * The dictionary `base` extended by binding the parameters in order: each
   * parameter name gets the argument at its position (`'undefined'` past the
   * end of the arguments), and a name that occurs twice gets the later one.
   */
  function Bindings(base: map<string, string>, params: seq<string>, args: seq<string>): map<string, string>
  {
    map x | x in base.Keys + (set p | p in params) :: if x in params then ArgOr(args, LastIndex(params, x)) else base[x]
  }

  /** One more parameter overrides whatever its name was bound to. */
  lemma BindingsSnoc(base: map<string, string>, params: seq<string>, p: string, args: seq<string>)
    ensures Bindings(base, params + [p], args) == Bindings(base, params, args)[p := ArgOr(args, |params|)]
  {
    var ps := params + [p];
    assert ps[..|ps| - 1] == params;
    forall x | x in params && x != p
      ensures LastIndex(ps, x) == LastIndex(params, x)
    {
    }
  }

  /** The parameter loop of `replacecall`: `for i in range(len(funparams))`. */
  method BindParams(base: map<string, string>, params: seq<string>, args: seq<string>)
    returns (r: map<string, string>)
    ensures r == Bindings(base, params, args)
  {
    r := base;
    var i := 0;
    while i < |params|
      invariant 0 <= i <= |params|
      invariant r == Bindings(base, params[..i], args)
    {
      BindingsSnoc(base, params[..i], params[i], args);
      assert params[..i + 1] == params[..i] + [params[i]];
      if i < |args| {
        r := r[params[i] := args[i]];
      } else {
        r := r[params[i] := "undefined"];
      }
      i := i + 1;
    }
    assert params[..i] == params;
    assert Bindings(base, [], args) == base;
  }

  /**
   * What a parameter ends up bound to: a parameter at a position the call
   * reached gets that argument, one past the arguments gets `'undefined'`,
   * every other name keeps its `base` binding, and extra arguments are ignored.
   */
  lemma BindingsSpec(base: map<string, string>, params: seq<string>, args: seq<string>, x: string)
    ensures x in Bindings(base, params, args) <==> x in base || x in params
    ensures x in params ==>
      var k := LastIndex(params, x);
      Bindings(base, params, args)[x] == (if k < |args| then args[k] else "undefined")
    ensures x !in params && x in base ==> Bindings(base, params, args)[x] == base[x]
    ensures |args| > |params| ==> Bindings(base, params, args) == Bindings(base, params, args[..|params|])
  {
    if |args| > |params| {
      var short := args[..|params|];
      forall y | y in params
        ensures ArgOr(args, LastIndex(params, y)) == ArgOr(short, LastIndex(params, y))
      {
      }
    }
  }

  /** `f(a, b)` into `function f(x, y, z)`: `x` and `y` get the arguments, `z` is `'undefined'`. */
  lemma BindingsExample()
    ensures Bindings(map["this" := "o"], ["x", "y", "z"], ["a", "b"]) == map["this" := "o", "x" := "a", "y" := "b", "z" := "undefined"]
  {
    var base, args := map["this" := "o"], ["a", "b"];
    assert Bindings(base, [], args) == base;
    BindingsSnoc(base, [], "x", args);
    assert [] + ["x"] == ["x"];
    BindingsSnoc(base, ["x"], "y", args);
    assert ["x"] + ["y"] == ["x", "y"];
    BindingsSnoc(base, ["x", "y"], "z", args);
    assert ["x", "y"] + ["z"] == ["x", "y", "z"];
  }
}
