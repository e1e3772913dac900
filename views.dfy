/**
 * A value-level picture of the environment while a snippet is rewritten.
 * The rewrite never changes an object the library crawl built; it only pushes
 * `this` objects and scopes, and binds typed parameters to new objects that
 * copy a prototype's members.  A `Ref` names either an existing object or
 * such a copy (by the prototype it copied), so name resolution can be stated
 * as a function of the library's objects.
 */
module Views {
  import opened Common
  import opened PyText
  import opened JsAst
  import opened Environment

  /** An existing object (or None), or a new function-less copy of a prototype's members. */
  datatype Ref = Obj(o: JSObject?) | Snap(proto: JSObject?)

  /** The `this` stack and the scope stack, over references. */
  datatype View = View(thisStack: seq<Ref>, scopes: seq<map<string, Ref>>)

  /** The members of every object the library crawl built, as they stand during the rewrite. */
  type Mem = map<JSObject, map<string, JSObject?>>

  predicate RefIn(r: Ref, mem: Mem)
  {
    match r
    case Obj(o) => o == null || o in mem
    case Snap(p) => p == null || p in mem
  }

  predicate ViewIn(v: View, mem: Mem)
  {
    && |v.thisStack| >= 1 && |v.scopes| >= 1
    && (forall i :: 0 <= i < |v.thisStack| ==> RefIn(v.thisStack[i], mem))
    && (forall i, k :: 0 <= i < |v.scopes| && k in v.scopes[i] ==> RefIn(v.scopes[i][k], mem))
  }

  /** Every member of a known object is a known object (or None). */
  predicate ClosedSet(mem: Mem)
  {
    forall o, k :: o in mem && k in mem[o] ==> mem[o][k] == null || mem[o][k] in mem
  }

  predicate IsNull(r: Ref)
  {
    r == Obj(null)
  }

  function Members(mem: Mem, r: Ref): map<string, JSObject?>
    requires RefIn(r, mem)
  {
    match r
    case Obj(o) => if o == null then map[] else mem[o]
    case Snap(p) => if p == null then map[] else mem[p]
  }

  /** `getFunction()`: a copy never has one. */
  function Fn(r: Ref): Option<Node>
  {
    match r
    case Obj(o) => if o == null then None else o.fn
    case Snap(_) => None
  }

  /** `obj[x]` on a reference that is not None. */
  function Step(mem: Mem, r: Ref, x: string): (t: Ref)
    requires RefIn(r, mem) && ClosedSet(mem)
    ensures RefIn(t, mem) && t.Obj?
  {
    var m := Members(mem, r);
    Obj(if x in m then m[x] else null)
  }

  function Top(v: View): map<string, Ref>
    requires |v.scopes| >= 1
  {
    v.scopes[|v.scopes| - 1]
  }

  function This(v: View): Ref
    requires |v.thisStack| >= 1
  {
    v.thisStack[|v.thisStack| - 1]
  }

  /** `root[x]`. */
  function RootItem(mem: Mem, root: JSObject, x: string): (r: Ref)
    requires root in mem && ClosedSet(mem)
    ensures RefIn(r, mem)
  {
    Step(mem, Obj(root), x)
  }

  function Head(mem: Mem, root: JSObject, v: View, first: string): (r: Ref)
    requires ViewIn(v, mem) && root in mem && ClosedSet(mem)
    ensures RefIn(r, mem)
  {
    if first == "this" then This(v)
    else if first in Top(v) then Top(v)[first]
    else RootItem(mem, root, first)
  }

  function Walk(mem: Mem, r: Ref, path: seq<string>): (t: Ref)
    requires RefIn(r, mem) && ClosedSet(mem)
    ensures RefIn(t, mem)
    decreases |path|
  {
    if IsNull(r) || path == [] then r else Walk(mem, Step(mem, r, path[0]), path[1..])
  }

  /** `env.get(name)` over the view. */
  function Lookup(mem: Mem, root: JSObject, v: View, name: string): (r: Ref)
    requires ViewIn(v, mem) && root in mem && ClosedSet(mem)
    ensures RefIn(r, mem)
  {
    if Plain(name) then
      if name in Top(v) then Top(v)[name] else RootItem(mem, root, name)
    else
      var parts := Split(name, '.');
      var t := Walk(mem, Head(mem, root, v, parts[0]), parts[1..|parts| - 1]);
      if IsNull(t) then Obj(null) else Step(mem, t, parts[|parts| - 1])
  }

  /** A dotted name always resolves to an existing object (or None): copies live only in scopes and on the `this` stack. */
  lemma DottedIsObj(mem: Mem, root: JSObject, v: View, name: string)
    requires ViewIn(v, mem) && root in mem && ClosedSet(mem) && !Plain(name)
    ensures Lookup(mem, root, v, name).Obj?
  {
  }

  // ---------------------------------------------------------------------------
  // The view of an environment.

  /** The snapshot is what the environment's objects hold. */
  ghost predicate MemOf(env: JSEnvironment, mem: Mem)
    reads env, env.objs
  {
    forall o :: o in mem ==> o in env.objs && o.members == mem[o]
  }

  /** A real object stands for a reference: the same object, or a copy of the prototype's members. */
  ghost predicate Corr(mem: Mem, o: JSObject?, r: Ref)
    reads if o == null then {} else {o}
    requires RefIn(r, mem)
  {
    match r
    case Obj(p) => o == p
    case Snap(p) => o != null && o.fn.None? && o.members == (if p == null then map[] else mem[p])
  }

  /** Stacks of real objects, entry by entry, stand for the view's stacks. */
  ghost predicate StacksCorr(objs: set<JSObject>, ts: seq<JSObject?>, sc: seq<map<string, JSObject?>>, mem: Mem, v: View)
    reads objs
    requires StacksHeld(objs, ts, sc)
    requires ViewIn(v, mem)
  {
    && |ts| == |v.thisStack| && |sc| == |v.scopes|
    && (forall i :: 0 <= i < |v.thisStack| ==> Corr(mem, ts[i], v.thisStack[i]))
    && (forall i :: 0 <= i < |v.scopes| ==> sc[i].Keys == v.scopes[i].Keys)
    && (forall i, k :: 0 <= i < |v.scopes| && k in v.scopes[i] ==> Corr(mem, sc[i][k], v.scopes[i][k]))
  }

  /** The environment's stacks stand for the view's. */
  ghost predicate EnvCorr(env: JSEnvironment, mem: Mem, v: View)
    reads env, env.objs
    requires env.Valid() && ViewIn(v, mem)
  {
    StacksCorr(env.objs, env.thisStack, env.scopes, mem, v)
  }

  /** The view in which every entry is the environment's own object. */
  function ViewOf(env: JSEnvironment): View
    reads env
  {
    View(seq(|env.thisStack|, i requires 0 <= i < |env.thisStack| reads env => Obj(env.thisStack[i])),
         seq(|env.scopes|, i requires 0 <= i < |env.scopes| reads env => map k | k in env.scopes[i] :: Obj(env.scopes[i][k])))
  }

  /** The snapshot of every object the environment holds. */
  ghost function Snapshot(env: JSEnvironment): (mem: Mem)
    reads env, env.objs
    ensures mem.Keys == env.objs
  {
    map o | o in env.objs :: o.members
  }

  lemma ViewOfCorr(env: JSEnvironment)
    requires env.Valid()
    ensures MemOf(env, Snapshot(env)) && ClosedSet(Snapshot(env))
    ensures ViewIn(ViewOf(env), Snapshot(env))
    ensures EnvCorr(env, Snapshot(env), ViewOf(env))
  {
  }

  /** The environment is what the view says: what a reference stands for has the same members and function. */
  lemma CorrFacts(mem: Mem, o: JSObject?, r: Ref)
    requires RefIn(r, mem) && Corr(mem, o, r)
    ensures (o == null) == IsNull(r)
    ensures o != null && r.Obj? ==> o in mem
    ensures o != null ==> o.fn == Fn(r)
  {
  }

  /** What a reference stands for has the members the view gives it. */
  lemma CorrMembers(env: JSEnvironment, mem: Mem, o: JSObject?, r: Ref)
    requires env.Valid() && MemOf(env, mem) && RefIn(r, mem) && Corr(mem, o, r) && o != null
    ensures o.members == Members(mem, r)
  {
  }

  lemma {:induction false} WalkCorr(env: JSEnvironment, mem: Mem, o: JSObject?, r: Ref, path: seq<string>)
    requires env.Valid() && MemOf(env, mem) && ClosedSet(mem) && env.Held(o) && RefIn(r, mem)
    requires Corr(mem, o, r)
    ensures Corr(mem, env.WalkTo(o, path), Walk(mem, r, path))
    decreases |path|
  {
    if o != null && path != [] {
      CorrMembers(env, mem, o, r);
      WalkCorr(env, mem, o.GetItem(path[0]), Step(mem, r, path[0]), path[1..]);
    }
  }

  /** Looking a name up in the environment finds what looking it up in the view finds. */
  lemma LookupCorr(env: JSEnvironment, mem: Mem, v: View, name: string)
    requires env.Valid() && MemOf(env, mem) && ClosedSet(mem) && env.root in mem
    requires ViewIn(v, mem) && EnvCorr(env, mem, v)
    ensures Corr(mem, env.Lookup(name), Lookup(mem, env.root, v, name))
  {
    if !Plain(name) {
      var parts := Split(name, '.');
      var first := parts[0];
      var h := env.Head(first);
      env.HeadHeld(first);
      var vh := Head(mem, env.root, v, first);
      assert Corr(mem, h, vh) by {
        if first != "this" && first in env.Top() {
          assert first in Top(v);
        }
      }
      WalkCorr(env, mem, h, vh, parts[1..|parts| - 1]);
      var t := env.WalkTo(h, parts[1..|parts| - 1]);
      if t != null {
        CorrMembers(env, mem, t, Walk(mem, vh, parts[1..|parts| - 1]));
      }
    } else if name in env.Top() {
      assert name in Top(v);
    }
  }

  // ---------------------------------------------------------------------------
  // How the rewrite changes the view.

  function PushThis(v: View, r: Ref): View
  {
    v.(thisStack := v.thisStack + [r])
  }

  function PushScope(v: View): View
  {
    v.(scopes := v.scopes + [map[]])
  }

  /** Binds a name in the top scope. */
  function Bind(v: View, name: string, r: Ref): View
    requires |v.scopes| >= 1
  {
    v.(scopes := v.scopes[|v.scopes| - 1 := Top(v)[name := r]])
  }

  /** `JSObject(None, parent)` for a parent the view resolved: a copy of its members. */
  function SnapOf(r: Ref): Ref
  {
    match r
    case Obj(o) => Snap(o)
    case Snap(p) => Snap(p)
  }

  lemma ViewInPush(v: View, r: Ref, mem: Mem)
    requires ViewIn(v, mem) && RefIn(r, mem)
    ensures ViewIn(PushScope(PushThis(v, r)), mem)
  {
    var v1 := PushScope(PushThis(v, r));
    assert forall i :: 0 <= i < |v.scopes| ==> v1.scopes[i] == v.scopes[i];
  }

  lemma ViewInBind(v: View, name: string, r: Ref, mem: Mem)
    requires ViewIn(v, mem) && RefIn(r, mem)
    ensures ViewIn(Bind(v, name, r), mem)
  {
  }

  // ---------------------------------------------------------------------------
  // How the environment's stacks follow the view.

  /** Pushing corresponding entries keeps the correspondence. */
  lemma StacksPush(objs: set<JSObject>, ts: seq<JSObject?>, sc: seq<map<string, JSObject?>>, mem: Mem, v: View, x: JSObject?, r: Ref)
    requires StacksHeld(objs, ts, sc)
    requires ViewIn(v, mem) && RefIn(r, mem) && (x == null || x in objs)
    requires StacksCorr(objs, ts, sc, mem, v) && Corr(mem, x, r)
    ensures ViewIn(PushScope(PushThis(v, r)), mem)
    ensures StacksCorr(objs, ts + [x], sc + [map[]], mem, PushScope(PushThis(v, r)))
  {
    ViewInPush(v, r, mem);
    var v1 := PushScope(PushThis(v, r));
    assert forall i :: 0 <= i < |v.scopes| ==> (sc + [map[]])[i] == sc[i] && v1.scopes[i] == v.scopes[i];
    assert forall i :: 0 <= i < |v.thisStack| ==> (ts + [x])[i] == ts[i] && v1.thisStack[i] == v.thisStack[i];
  }

  /** Binding a name in the top scope to corresponding entries keeps the correspondence. */
  lemma StacksBind(objs: set<JSObject>, ts: seq<JSObject?>, sc: seq<map<string, JSObject?>>, mem: Mem, v: View, name: string, x: JSObject?, r: Ref)
    requires StacksHeld(objs, ts, sc)
    requires ViewIn(v, mem) && RefIn(r, mem) && (x == null || x in objs)
    requires StacksCorr(objs, ts, sc, mem, v) && Corr(mem, x, r)
    ensures ViewIn(Bind(v, name, r), mem)
    ensures StacksCorr(objs, ts, sc[|sc| - 1 := sc[|sc| - 1][name := x]], mem, Bind(v, name, r))
  {
  }

  /** Popping the entries a push added gives back the correspondence of the shorter stacks. */
  lemma StacksPop(objs: set<JSObject>, ts: seq<JSObject?>, sc: seq<map<string, JSObject?>>, mem: Mem, v: View, w: View)
    requires StacksHeld(objs, ts, sc)
    requires ViewIn(v, mem) && ViewIn(w, mem)
    requires |w.thisStack| == |v.thisStack| + 1 && |w.scopes| == |v.scopes| + 1
    requires v.thisStack == w.thisStack[..|v.thisStack|] && v.scopes == w.scopes[..|v.scopes|]
    requires StacksCorr(objs, ts, sc, mem, w)
    ensures StacksCorr(objs, ts[..|ts| - 1], sc[..|sc| - 1], mem, v)
  {
  }

  /** The correspondence does not depend on which known set holds the objects. */
  lemma StacksGrow(objs: set<JSObject>, objs': set<JSObject>, ts: seq<JSObject?>, sc: seq<map<string, JSObject?>>, mem: Mem, v: View)
    requires objs <= objs'
    requires StacksHeld(objs, ts, sc)
    requires ViewIn(v, mem)
    requires StacksCorr(objs, ts, sc, mem, v)
    ensures StacksCorr(objs', ts, sc, mem, v)
  {
  }
}
