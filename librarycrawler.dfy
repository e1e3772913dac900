/**
 * `_crawlFunctions`: the pass over the library's parse tree that fills the
 * environment.  Function declarations and function expressions get a function
 * object and a blank prototype; object and array literals get an object whose
 * members are crawled with that object as `this`; aliases copy a binding; and
 * `x = new F` gives `x` a snapshot of `F.prototype`.  Constructor bodies and
 * `new` bindings are queued while the statements are visited and run, in
 * order, once the pass over this level is finished.
 *
 * Python exceptions (a missing attribute, `None` where a name is needed, a
 * dotted `set` whose path breaks) abort the whole inlining; each method here
 * returns `ok == false` for them.
 */
module LibraryCrawler {
  import opened Common
  import opened PyText
  import opened JsAst
  import opened Paths
  import opened Environment

  /** A deferred closure: crawl a constructor body with `obj` as `this`, or bind `name` to `new`. */
  datatype Task =
    | CrawlBody(obj: JSObject, body: Option<Node>)
    | BindNew(name: Option<string>, fromname: string)

  /** Queued work that is still meaningful: known objects, bodies smaller than `bound`. */
  ghost predicate TasksOk(env: JSEnvironment, tasks: seq<Task>, bound: nat)
    reads env
  {
    forall i :: 0 <= i < |tasks| ==>
      tasks[i].CrawlBody? ==>
        && tasks[i].obj in env.objs && SizeOpt(tasks[i].body) < bound
        && (tasks[i].body.Some? ==> WellShaped(tasks[i].body.value))
  }

  /** The existing binding of `name`, or a new object made from `fn`. */
  method GetOrNew(env: JSEnvironment, name: string, fn: Option<Node>) returns (o: JSObject)
    requires env.Valid() && OptShaped(fn)
    modifies env
    ensures env.Valid() && o in env.objs
    ensures old(env.objs) <= env.objs && fresh(env.objs - old(env.objs))
    ensures env.thisStack == old(env.thisStack) && env.scopes == old(env.scopes)
    ensures old(env.Lookup(name)) != null ==> o == old(env.Lookup(name)) && env.objs == old(env.objs)
    ensures old(env.Lookup(name)) == null ==> fresh(o) && o.fn == fn && o.members == map[]
  {
    var found := env.Get(name);
    if found != null {
      o := found;
    } else {
      o := env.NewObject(fn, null);
    }
  }

  /** Binds `name` to `v`, failing exactly when a dotted name's path breaks. */
  method SetChecked(env: JSEnvironment, name: string, v: JSObject?) returns (ok: bool)
    requires env.Valid() && env.Held(v)
    modifies env, env.objs
    ensures env.Valid() && env.objs == old(env.objs)
    ensures env.thisStack == old(env.thisStack) && |env.scopes| == |old(env.scopes)|
    ensures ok == old(env.CanSet(name))
    ensures ok && Plain(name) ==> env.Lookup(name) == v
    ensures ok && Plain(name) ==> forall o :: o in env.objs && o != env.root ==> o.members == old(o.members)
    ensures ok && !Plain(name) ==>
      var t := old(env.Target(name));
      && env.scopes == old(env.scopes)
      && t.members == old(t.members)[env.LastSegment(name) := v]
      && forall o :: o in env.objs && o != t ==> o.members == old(o.members)
    ensures !ok ==> env.scopes == old(env.scopes) && forall o :: o in env.objs ==> o.members == old(o.members)
  {
    ok := env.CanSet(name);
    if ok {
      env.Set(name, v);
    }
  }

  /**
   * Binds `name` to its function object (a new one made from `fnNode` unless
   * the name is already bound) and `name.prototype` to a prototype (a new blank
   * one unless there is one), returning the prototype.  A plain name that was
   * unbound ends up bound to a new object of `fnNode` whose `prototype`
   * member is the returned, new, empty prototype.
   */
  method BindFunction(env: JSEnvironment, name: string, fnNode: Node) returns (ok: bool, proto: JSObject)
    requires env.Valid() && WellShaped(fnNode)
    modifies env, env.objs
    ensures env.Valid() && proto in env.objs
    ensures old(env.objs) <= env.objs && fresh(env.objs - old(env.objs))
    ensures env.thisStack == old(env.thisStack) && |env.scopes| == |old(env.scopes)|
    ensures ok && Plain(name) && name != "this" && old(env.Lookup(name)) == null ==>
      var f := env.Lookup(name);
      && f != null && fresh(f) && f.fn == Some(fnNode)
      && f.members == map["prototype" := proto]
      && fresh(proto) && proto.members == map[]
  {
    var f := GetOrNew(env, name, Some(fnNode));
    proto := f;
    ghost var fresh0 := old(env.Lookup(name)) == null;
    ok := SetChecked(env, name, f);
    if !ok {
      return;
    }
    if Plain(name) && name != "this" && fresh0 {
      assert f != env.root;
      assert f.members == map[];
    }
    ok, proto := BindPrototype(env, name);
  }

  /**
   * `name.prototype`: the prototype already there, or a new blank one bound
   * there.  When `name` is a plain name bound to an object with no members, that
   * object comes out with exactly one member, `prototype`, a new empty object.
   */
  method BindPrototype(env: JSEnvironment, name: string) returns (ok: bool, proto: JSObject)
    requires env.Valid()
    modifies env, env.objs
    ensures env.Valid() && proto in env.objs
    ensures old(env.objs) <= env.objs && fresh(env.objs - old(env.objs))
    ensures env.thisStack == old(env.thisStack) && |env.scopes| == |old(env.scopes)|
    ensures Plain(name) && name != "this" && old(env.Lookup(name)) != null && old(env.Lookup(name).members) == map[] ==>
      var f := old(env.Lookup(name));
      && ok && env.Lookup(name) == f
      && f.members == map["prototype" := proto]
      && fresh(proto) && proto.members == map[]
  {
    var pname := name + ".prototype";
    ghost var f := env.Lookup(name);
    ghost var claim := Plain(name) && name != "this" && f != null && f.members == map[];
    if claim {
      ProtoSlot(env, name);
    }
    proto := GetOrNew(env, pname, None);
    if claim {
      assert env.Lookup(name) == f;
      ProtoSlot(env, name);
    }
    ok := SetChecked(env, pname, proto);
    if claim {
      assert f.members == map["prototype" := proto];
      assert env.Lookup(name) == f;
    }
  }

  /** `name.prototype` is the `prototype` member of whatever `name` is bound to. */
  lemma ProtoSlot(env: JSEnvironment, name: string)
    requires env.Valid() && Plain(name) && name != "this"
    ensures !Plain(name + ".prototype")
    ensures env.Target(name + ".prototype") == env.Lookup(name)
    ensures env.LastSegment(name + ".prototype") == "prototype"
  {
    PlainIff(name);
    assert name + ".prototype" == name + "." + "prototype";
    SplitNoSeparator("prototype", '.');
    SplitAround(name, "prototype", '.');
    env.PrefixTarget(name, "prototype");
  }

  /**
   * What binding a function node queues and leaves behind: one crawl of the
   * node's body, and, when a plain name other than `this` was unbound, a new
   * object of the node under that name whose only member is `prototype`, the
   * new empty object the queued crawl gets as `this`.
   */
  twostate predicate FunctionBound(env: JSEnvironment, name: string, fnNode: Node, new tasks: seq<Task>, ok: bool)
    requires old(env.Valid()) && env.Valid()
    reads env, env.objs
  {
    && |tasks| == 1 && tasks[0].CrawlBody? && tasks[0].body == fnNode.body
    && (ok && Plain(name) && name != "this" && old(env.Lookup(name)) == null ==>
          var f := env.Lookup(name);
          && f != null && fresh(f) && f.fn == Some(fnNode)
          && f.members == map["prototype" := tasks[0].obj]
          && tasks[0].obj in env.objs && fresh(tasks[0].obj) && tasks[0].obj.members == map[])
  }

  /** A function node bound under `name`, with the crawl of its body queued against its prototype. */
  method FunctionTask(env: JSEnvironment, name: string, fnNode: Node) returns (ok: bool, tasks: seq<Task>)
    requires env.Valid() && WellShaped(fnNode)
    modifies env, env.objs
    ensures env.Valid() && fresh(env.objs - old(env.objs))
    ensures Kept(env, old(env.objs), old(env.thisStack), |old(env.scopes)|, ok)
    ensures |tasks| == 1 && tasks[0].CrawlBody? && tasks[0].obj in env.objs && tasks[0].body == fnNode.body
    ensures FunctionBound(env, name, fnNode, tasks, ok)
  {
    var proto;
    ok, proto := BindFunction(env, name, fnNode);
    tasks := [CrawlBody(proto, fnNode.body)];
  }

  /** `name` bound to whatever `from` is bound to. */
  method BindAlias(env: JSEnvironment, name: string, from: string) returns (ok: bool)
    requires env.Valid()
    modifies env, env.objs
    ensures env.Valid() && env.objs == old(env.objs)
    ensures Kept(env, old(env.objs), old(env.thisStack), |old(env.scopes)|, ok)
    ensures ok == old(env.CanSet(name))
    ensures ok && Plain(name) ==> env.Lookup(name) == old(env.Lookup(from))
  {
    var v := env.Get(from);
    ok := SetChecked(env, name, v);
  }

  /** The environment bookkeeping every crawling method keeps. */
  ghost predicate Kept(env: JSEnvironment, objs0: set<JSObject>, this0: seq<JSObject?>, nscopes: nat, ok: bool)
    reads env
  {
    && objs0 <= env.objs
    && (ok ==> env.thisStack == this0 && |env.scopes| == nscopes)
  }

  /**
   * `_crawlFunctions(env, code)`: crawls the children of `code`, then runs the
   * queued work in the order it was queued.  On success the `this` stack is
   * as it was and no scope was pushed or popped.
   */
  method CrawlFunctions(env: JSEnvironment, code: Node) returns (ok: bool)
    requires env.Valid() && WellShaped(code)
    modifies env, env.objs
    ensures env.Valid() && fresh(env.objs - old(env.objs))
    ensures Kept(env, old(env.objs), old(env.thisStack), |old(env.scopes)|, ok)
    decreases Size(code), 1
  {
    var tasks: seq<Task> := [];
    var i := 0;
    while i < |code.kids|
      invariant 0 <= i <= |code.kids|
      invariant env.Valid() && fresh(env.objs - old(env.objs))
      invariant Kept(env, old(env.objs), old(env.thisStack), |old(env.scopes)|, true)
      invariant TasksOk(env, tasks, Size(code))
    {
      SizeKid(code, i);
      var more: seq<Task>;
      ok, more := CrawlStatement(env, code.kids[i]);
      if !ok {
        return;
      }
      tasks := tasks + more;
      i := i + 1;
    }
    var j := 0;
    while j < |tasks|
      invariant 0 <= j <= |tasks|
      invariant env.Valid() && fresh(env.objs - old(env.objs))
      invariant Kept(env, old(env.objs), old(env.thisStack), |old(env.scopes)|, true)
      invariant TasksOk(env, tasks, Size(code))
    {
      ok := RunTask(env, tasks[j], Size(code));
      if !ok {
        return;
      }
      j := j + 1;
    }
    ok := true;
  }

  /** One deferred closure (lines 179-184 and 267-270). */
  method RunTask(env: JSEnvironment, t: Task, ghost bound: nat) returns (ok: bool)
    requires env.Valid() && TasksOk(env, [t], bound)
    modifies env, env.objs
    ensures env.Valid() && fresh(env.objs - old(env.objs))
    ensures Kept(env, old(env.objs), old(env.thisStack), |old(env.scopes)|, ok)
    ensures t.CrawlBody? && t.body.None? ==> !ok
    ensures t.BindNew? && t.name.None? ==> !ok
    ensures t.BindNew? && t.name.Some? && Plain(t.name.value) ==>
      var p := old(env.Lookup(t.fromname));
      var o := env.Lookup(t.name.value);
      && ok && o != null && fresh(o) && o.fn == None
      && o.members == (if p == null then map[] else old(p.members))
    decreases bound, 0
  {
    assert [t][0] == t;
    if t.CrawlBody? {
      if t.body.None? {
        // iterating over a missing body raises
        ok := false;
        return;
      }
      ok := CrawlWithThis(env, t.obj, t.body.value);
    } else {
      var parent := env.Get(t.fromname);
      var o := env.NewObject(None, parent);
      if t.name.None? {
        ok := false;
        return;
      }
      ok := SetChecked(env, t.name.value, o);
    }
  }

  /** One statement of the pass (lines 172-297); returns the work it queues. */
  method CrawlStatement(env: JSEnvironment, node: Node) returns (ok: bool, tasks: seq<Task>)
    requires env.Valid() && WellShaped(node)
    modifies env, env.objs
    ensures env.Valid() && fresh(env.objs - old(env.objs))
    ensures Kept(env, old(env.objs), old(env.thisStack), |old(env.scopes)|, ok)
    ensures ok ==> TasksOk(env, tasks, Size(node))
    ensures node.kind == FUNCTION ==> FunctionBound(env, node.name, node, tasks, ok)
    ensures node.kind == PROPERTY_INIT ==> tasks == []
    ensures node.kind !in {FUNCTION, VAR, SEMICOLON, PROPERTY_INIT} ==> ok && tasks == [] && unchanged(env) && unchanged(env.objs)
    ensures node.kind == SEMICOLON && (node.expression.None? || node.expression.value.kind != ASSIGN) ==>
      ok && tasks == [] && unchanged(env) && unchanged(env.objs)
    decreases Size(node), 5
  {
    tasks := [];
    if node.kind == FUNCTION {
      ok, tasks := FunctionTask(env, node.name, node);
    } else if node.kind == VAR {
      ok, tasks := VarStatement(env, node);
    } else if node.kind == SEMICOLON && node.expression.Some? && node.expression.value.kind == ASSIGN {
      ok, tasks := AssignStatement(env, node);
    } else if node.kind == PROPERTY_INIT && node.kids[0].kind in {IDENTIFIER, STRING, NUMBER}
      && node.kids[1].kind in {FUNCTION, OBJECT_INIT, ARRAY_INIT}
    {
      ok := PropertyInit(env, node);
    } else {
      ok := true;
    }
  }

  /** `var x = …` (lines 186-225): only the first declaration is looked at. */
  method VarStatement(env: JSEnvironment, node: Node) returns (ok: bool, tasks: seq<Task>)
    requires env.Valid() && WellShaped(node) && node.kind == VAR
    modifies env, env.objs
    ensures env.Valid() && fresh(env.objs - old(env.objs))
    ensures Kept(env, old(env.objs), old(env.thisStack), |old(env.scopes)|, ok)
    ensures ok ==> TasksOk(env, tasks, Size(node))
    ensures node.kids[0].initializer.None? ==> !ok
    ensures node.kids[0].initializer.Some? ==>
      var name, init := node.kids[0].value, node.kids[0].initializer.value;
      && (init.kind == FUNCTION ==> FunctionBound(env, name, init, tasks, ok))
      && (init.kind == IDENTIFIER ==>
            && tasks == [] && ok == old(env.CanSet(name))
            && (ok && Plain(name) ==> env.Lookup(name) == old(env.Lookup(init.value))))
      && (init.kind !in {FUNCTION, OBJECT_INIT, ARRAY_INIT, IDENTIFIER} ==>
            ok && tasks == [] && unchanged(env) && unchanged(env.objs))
    decreases Size(node), 4
  {
    var decl := node.kids[0];
    if decl.initializer.None? {
      ok, tasks := false, [];
      return;
    }
    SizeInitializerOfKid(node, 0);
    ok, tasks := VarInit(env, decl.value, decl.name, decl.initializer.value);
  }

  /** The first declaration `name = init` of a `var`; `declName` is the name an object literal is looked up under. */
  method VarInit(env: JSEnvironment, name: string, declName: string, init: Node) returns (ok: bool, tasks: seq<Task>)
    requires env.Valid() && WellShaped(init)
    modifies env, env.objs
    ensures env.Valid() && fresh(env.objs - old(env.objs))
    ensures Kept(env, old(env.objs), old(env.thisStack), |old(env.scopes)|, ok)
    ensures ok ==> TasksOk(env, tasks, Size(init) + 1)
    ensures init.kind == FUNCTION ==> FunctionBound(env, name, init, tasks, ok)
    ensures init.kind == IDENTIFIER ==>
      && tasks == [] && ok == old(env.CanSet(name))
      && (ok && Plain(name) ==> env.Lookup(name) == old(env.Lookup(init.value)))
    ensures init.kind !in {FUNCTION, OBJECT_INIT, ARRAY_INIT, IDENTIFIER} ==>
      ok && tasks == [] && unchanged(env) && unchanged(env.objs)
    decreases Size(init), 4
  {
    tasks := [];
    if init.kind == FUNCTION {
      ok, tasks := FunctionTask(env, name, init);
    } else if init.kind == OBJECT_INIT {
      ok := BindObject(env, name, declName, init);
    } else if init.kind == ARRAY_INIT {
      ok := BindArray(env, name, init);
    } else if init.kind == IDENTIFIER {
      ok := BindAlias(env, name, init.value);
    } else {
      ok := true;
    }
  }

  /** `target = …;` (lines 226-271). */
  method AssignStatement(env: JSEnvironment, node: Node) returns (ok: bool, tasks: seq<Task>)
    requires env.Valid() && WellShaped(node) && node.expression.Some? && node.expression.value.kind == ASSIGN
    modifies env, env.objs
    ensures env.Valid() && fresh(env.objs - old(env.objs))
    ensures Kept(env, old(env.objs), old(env.thisStack), |old(env.scopes)|, ok)
    ensures ok ==> TasksOk(env, tasks, Size(node))
    ensures var e := node.expression.value;
            WellShaped(e) && |e.kids| > 0 && WellShaped(e.kids[0]) && CrawlIdentifier(e.kids[0]).Raised? ==> !ok
    decreases Size(node), 4
  {
    var e := node.expression.value;
    assert Size(e) < Size(node) && WellShaped(e);
    var target := CrawlIdentifier(e.kids[0]);
    if target.Raised? {
      ok, tasks := false, [];
      return;
    }
    SizeKid(e, 1);
    ok, tasks := AssignValue(env, target.value, e.kids[1]);
  }

  /** Binds the assignment target `name` (None: not a path) according to the assigned value. */
  method AssignValue(env: JSEnvironment, name: Option<string>, rhs: Node) returns (ok: bool, tasks: seq<Task>)
    requires env.Valid() && WellShaped(rhs)
    modifies env, env.objs
    ensures env.Valid() && fresh(env.objs - old(env.objs))
    ensures Kept(env, old(env.objs), old(env.thisStack), |old(env.scopes)|, ok)
    ensures ok ==> TasksOk(env, tasks, Size(rhs) + 1)
    ensures name.None? && rhs.kind in {FUNCTION, IDENTIFIER, OBJECT_INIT, ARRAY_INIT} ==> !ok
    ensures name.Some? && rhs.kind == FUNCTION ==> FunctionBound(env, name.value, rhs, tasks, ok)
    ensures name.Some? && rhs.kind == IDENTIFIER ==>
      && tasks == [] && ok == old(env.CanSet(name.value))
      && (ok && Plain(name.value) ==> env.Lookup(name.value) == old(env.Lookup(rhs.value)))
    ensures rhs.kind in {NEW, NEW_WITH_ARGS} ==>
      var from := CrawlIdentifier(rhs.kids[0]);
      && unchanged(env) && unchanged(env.objs)
      && (ok <==> from.Done? && from.value.Some?)
      && (ok ==> tasks == [BindNew(name, from.value.value + ".prototype")])
    ensures rhs.kind !in {FUNCTION, IDENTIFIER, OBJECT_INIT, ARRAY_INIT, NEW, NEW_WITH_ARGS} ==>
      ok && tasks == [] && unchanged(env) && unchanged(env.objs)
    decreases Size(rhs), 4
  {
    tasks := [];
    if rhs.kind == FUNCTION {
      if name.None? {
        ok := false;
        return;
      }
      ok, tasks := FunctionTask(env, name.value, rhs);
    } else if rhs.kind == IDENTIFIER {
      if name.None? {
        // the alias is looked up, then binding it to no name raises
        ok := false;
        return;
      }
      ok := BindAlias(env, name.value, rhs.value);
    } else if rhs.kind == OBJECT_INIT {
      if name.None? {
        ok := false;
        return;
      }
      ok := BindObject(env, name.value, name.value, rhs);
    } else if rhs.kind == ARRAY_INIT {
      if name.None? {
        ok := false;
        return;
      }
      ok := BindArray(env, name.value, rhs);
    } else if rhs.kind in {NEW, NEW_WITH_ARGS} {
      var from := CrawlIdentifier(rhs.kids[0]);
      if from.Raised? || from.value.None? {
        ok := false;
        return;
      }
      tasks := [BindNew(name, from.value.value + ".prototype")];
      ok := true;
    } else {
      ok := true;
    }
  }

  /** `key: value` inside an object literal (lines 273-297), relative to `this`. */
  method PropertyInit(env: JSEnvironment, node: Node) returns (ok: bool)
    requires env.Valid() && WellShaped(node) && node.kind == PROPERTY_INIT
    modifies env, env.objs
    ensures env.Valid() && fresh(env.objs - old(env.objs))
    ensures Kept(env, old(env.objs), old(env.thisStack), |old(env.scopes)|, ok)
    ensures node.kids[1].kind in {OBJECT_INIT, ARRAY_INIT} && node.kids[0].kind == NUMBER ==> !ok
    ensures node.kids[1].kind !in {FUNCTION, OBJECT_INIT, ARRAY_INIT} ==>
      ok && unchanged(env) && unchanged(env.objs)
    decreases Size(node), 4
  {
    var key, v := node.kids[0], node.kids[1];
    SizeKid(node, 1);
    if v.kind == FUNCTION {
      var o;
      ok, o := BindMethod(env, key, v);
    } else if v.kind in {OBJECT_INIT, ARRAY_INIT} && key.kind == NUMBER {
      // "this." + a number raises a TypeError
      ok := false;
    } else if v.kind == OBJECT_INIT {
      ok := BindObject(env, "this." + key.value, "this." + key.value, v);
    } else if v.kind == ARRAY_INIT {
      ok := BindArray(env, "this." + key.value, v);
    } else {
      ok := true;
    }
  }

  /**
   * `key: function …`: a new object of the function node bound as a member
   * of `this`.  For a key without a dot that is one new member of the
   * current `this`, and it fails exactly when there is no current `this`.
   */
  method BindMethod(env: JSEnvironment, key: Node, v: Node) returns (ok: bool, o: JSObject)
    requires env.Valid() && WellShaped(v)
    modifies env, env.objs
    ensures env.Valid() && fresh(env.objs - old(env.objs))
    ensures Kept(env, old(env.objs), old(env.thisStack), |old(env.scopes)|, ok)
    ensures fresh(o) && o.fn == Some(v)
    ensures '.' !in ValueText(key) ==>
      var t := old(env.GetThis());
      && (ok <==> t != null)
      && (ok ==> t.members == old(t.members)[ValueText(key) := o] && o.members == map[])
  {
    var k := ValueText(key);
    ghost var t := env.GetThis();
    o := env.NewObject(Some(v), null);
    if '.' !in k {
      MemberPath(env, k);
      assert env.GetThis() == t;
    }
    ok := SetChecked(env, "this." + k, o);
  }

  /** `this.k` for a dot-free `k` is the member `k` of the current `this`. */
  lemma MemberPath(env: JSEnvironment, k: string)
    requires env.Valid() && '.' !in k
    ensures !Plain("this." + k)
    ensures env.Target("this." + k) == env.GetThis()
    ensures env.LastSegment("this." + k) == k
  {
    assert "this." + k == "this" + "." + k;
    env.PrefixTarget("this", k);
    SplitNoSeparator(k, '.');
    SplitNoSeparator("this", '.');
    assert "this." + k == "this" + ['.'] + k;
    SplitAround("this", k, '.');
  }

  /** Crawls `code` with `obj` as `this`, restoring the previous `this` afterwards. */
  method CrawlWithThis(env: JSEnvironment, obj: JSObject, code: Node) returns (ok: bool)
    requires env.Valid() && obj in env.objs && WellShaped(code)
    modifies env, env.objs
    ensures env.Valid() && fresh(env.objs - old(env.objs))
    ensures Kept(env, old(env.objs), old(env.thisStack), |old(env.scopes)|, ok)
    decreases Size(code), 2
  {
    env.PushThis(obj);
    ok := CrawlFunctions(env, code);
    if ok {
      var _ := env.PopThis();
    }
  }

  /**
   * An object literal: `getName`'s object (or a new one) is bound under
   * `setName` and the literal's properties are crawled with it as `this`.
   */
  method BindObject(env: JSEnvironment, getName: string, setName: string, init: Node) returns (ok: bool)
    requires env.Valid() && WellShaped(init)
    modifies env, env.objs
    ensures env.Valid() && fresh(env.objs - old(env.objs))
    ensures Kept(env, old(env.objs), old(env.thisStack), |old(env.scopes)|, ok)
    decreases Size(init), 3
  {
    var o := GetOrNew(env, getName, None);
    ok := SetChecked(env, setName, o);
    if ok {
      ok := CrawlWithThis(env, o, init);
    }
  }

  /** An array literal: `name`'s object (or a new one) is bound, and its elements are bound on it. */
  method BindArray(env: JSEnvironment, name: string, init: Node) returns (ok: bool)
    requires env.Valid() && WellShaped(init)
    modifies env, env.objs
    ensures env.Valid() && fresh(env.objs - old(env.objs))
    ensures Kept(env, old(env.objs), old(env.thisStack), |old(env.scopes)|, ok)
    decreases Size(init), 3
  {
    var arr := GetOrNew(env, name, None);
    ok := SetChecked(env, name, arr);
    if ok {
      ok := CrawlElements(env, arr, init);
    }
  }

  /** With `arr` as `this`, binds every element of the array literal, in order. */
  method CrawlElements(env: JSEnvironment, arr: JSObject, init: Node) returns (ok: bool)
    requires env.Valid() && arr in env.objs && WellShaped(init)
    modifies env, env.objs
    ensures env.Valid() && fresh(env.objs - old(env.objs))
    ensures Kept(env, old(env.objs), old(env.thisStack), |old(env.scopes)|, ok)
    decreases Size(init), 2
  {
    env.PushThis(arr);
    ghost var stack := env.thisStack;
    var index := 0;
    while index < |init.kids|
      invariant 0 <= index <= |init.kids|
      invariant env.Valid() && fresh(env.objs - old(env.objs))
      invariant Kept(env, old(env.objs), stack, |old(env.scopes)|, true)
    {
      SizeKid(init, index);
      ok := BindElement(env, init.kids[index], index);
      if !ok {
        return;
      }
      index := index + 1;
    }
    var _ := env.PopThis();
    ok := true;
  }

  /**
   * Element `index` of an array literal: a function object of the element
   * under `this.<index>`, a blank prototype under `this.<index>.prototype`, and
   * the element crawled with that prototype as `this`.
   */
  method BindElement(env: JSEnvironment, element: Node, index: nat) returns (ok: bool)
    requires env.Valid() && WellShaped(element)
    modifies env, env.objs
    ensures env.Valid() && fresh(env.objs - old(env.objs))
    ensures Kept(env, old(env.objs), old(env.thisStack), |old(env.scopes)|, ok)
    decreases Size(element), 3
  {
    var proto;
    ok, proto := ElementObjects(env, element, "this." + IntToString(index));
    if ok {
      ok := CrawlWithThis(env, proto, element);
    }
  }

  /** The function object of an array element under `key`, and a new prototype under `key.prototype`. */
  method ElementObjects(env: JSEnvironment, element: Node, key: string) returns (ok: bool, proto: JSObject)
    requires env.Valid() && WellShaped(element)
    modifies env, env.objs
    ensures env.Valid() && proto in env.objs && fresh(env.objs - old(env.objs))
    ensures Kept(env, old(env.objs), old(env.thisStack), |old(env.scopes)|, true)
  {
    var f := env.NewObject(Some(element), null);
    proto := f;
    ok := SetChecked(env, key, f);
    if ok {
      proto := env.NewObject(None, null);
      ok := SetChecked(env, key + ".prototype", proto);
    }
  }
}
