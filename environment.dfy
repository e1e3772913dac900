/**
 * The inliner's static picture of the library's JavaScript objects: `JSObject`
 * (a member dictionary plus the function node it was made from, if any) and
 * `JSEnvironment` (a root object, a stack of `this` objects and a stack of
 * local scopes), with name resolution along dotted paths.
 */
module Environment {
  import opened Common
  import opened PyText
  import opened JsAst

  /** A JavaScript object as the inliner sees it. */
  class JSObject {
    var members: map<string, JSObject?>
    const fn: Option<Node>

    /**
     * A new object.  With a parent (a prototype), it starts with a snapshot of
     * the parent's members, overlaid with the extra members; the parent itself
     * is not touched, now or by later updates of the new object.
     */
    constructor (fn: Option<Node>, parent: JSObject?, extra: map<string, JSObject?>)
      ensures members == (if parent == null then extra else parent.members + extra)
      ensures this.fn == fn
    {
      this.fn := fn;
      if parent == null {
        members := extra;
      } else {
        members := parent.members + extra;
      }
    }

    /** `obj[name] = v`: adds or replaces one member and nothing else. */
    method SetItem(name: string, v: JSObject?)
      modifies this
      ensures members == old(members)[name := v]
    {
      members := members[name := v];
    }

    /** `obj[name]`: the member, or None when there is none. */
    function GetItem(name: string): (r: JSObject?)
      reads this
      ensures name in members ==> r == members[name]
      ensures name !in members ==> r == null
    {
      if name in members then members[name] else null
    }

    /** `name in obj`. */
    predicate Contains(name: string)
      reads this
    {
      name in members
    }
  }

  /** A name without a `.`: resolved in the top scope or on the root. */
  predicate Plain(name: string)
  {
    |Split(name, '.')| == 1
  }

  lemma PlainIff(name: string)
    ensures Plain(name) <==> '.' !in name
  {
    if '.' in name {
      var k :| 0 <= k < |name| && name[k] == '.';
      assert name == name[..k] + [name[k]] + name[k + 1..];
      SplitAround(name[..k], name[k + 1..], '.');
    } else {
      SplitNoSeparator(name, '.');
    }
  }

  /** Every entry of a `this` stack and of a stack of scopes is one of `objs`, or None. */
  ghost predicate StacksHeld(objs: set<JSObject>, ts: seq<JSObject?>, sc: seq<map<string, JSObject?>>)
  {
    && (forall i :: 0 <= i < |ts| ==> ts[i] == null || ts[i] in objs)
    && (forall i, k :: 0 <= i < |sc| && k in sc[i] ==> sc[i][k] == null || sc[i][k] in objs)
  }

  class JSEnvironment {
    const root: JSObject
    var thisStack: seq<JSObject?>
    var scopes: seq<map<string, JSObject?>>
    /** Every object the environment can reach. */
    ghost var objs: set<JSObject>

    ghost predicate Held(o: JSObject?)
      reads this
    {
      o == null || o in objs
    }

    /** Every member of every known object is a known object (or None). */
    ghost predicate Closed()
      reads this, objs
    {
      forall o, k :: o in objs && k in o.members ==> Held(o.members[k])
    }

    ghost predicate Valid()
      reads this, objs
    {
      && root in objs
      && |thisStack| >= 1 && |scopes| >= 1
      && StacksHeld(objs, thisStack, scopes)
      && Closed()
      && FnsShaped()
    }

    /** Every function node an object was made from is a well-shaped subtree. */
    ghost predicate FnsShaped()
      reads this
    {
      forall o :: o in objs && o.fn.Some? ==> WellShaped(o.fn.value)
    }

    /** A blank environment over the given root and `this`, with one empty scope. */
    constructor (root: JSObject, this0: JSObject?, ghost world: set<JSObject>)
      requires root in world && (this0 == null || this0 in world)
      requires forall o :: o in world && o.fn.Some? ==> WellShaped(o.fn.value)
      requires forall o, k :: o in world && k in o.members ==> o.members[k] == null || o.members[k] in world
      ensures Valid()
      ensures this.root == root && thisStack == [this0] && scopes == [map[]] && objs == world
    {
      this.root := root;
      thisStack := [this0];
      scopes := [map[]];
      objs := world;
    }

    /** A new object, now known to the environment. */
    method NewObject(fn: Option<Node>, parent: JSObject?) returns (o: JSObject)
      requires Valid() && Held(parent) && OptShaped(fn)
      modifies this
      ensures Valid() && fresh(o)
      ensures o.members == (if parent == null then map[] else parent.members) && o.fn == fn
      ensures objs == old(objs) + {o}
      ensures thisStack == old(thisStack) && scopes == old(scopes)
    {
      o := new JSObject(fn, parent, map[]);
      assert parent != null ==> parent.members + map[] == parent.members;
      objs := objs + {o};
    }

    /** The current `this`. */
    function GetThis(): JSObject?
      reads this
      requires |thisStack| >= 1
    {
      thisStack[|thisStack| - 1]
    }

    method PushThis(x: JSObject?)
      requires Valid() && Held(x)
      modifies this
      ensures Valid()
      ensures thisStack == old(thisStack) + [x] && GetThis() == x
      ensures scopes == old(scopes) && objs == old(objs)
    {
      thisStack := thisStack + [x];
    }

    /** Removes the current `this`, returning it; the previous one is current again. */
    method PopThis() returns (r: JSObject?)
      requires Valid() && |thisStack| >= 2
      modifies this
      ensures Valid()
      ensures r == old(GetThis()) && thisStack == old(thisStack[..|thisStack| - 1])
      ensures scopes == old(scopes) && objs == old(objs)
    {
      r := thisStack[|thisStack| - 1];
      thisStack := thisStack[..|thisStack| - 1];
    }

    /** A push of `this` undone by a pop: the pushed object comes back and the previous `this` is current again. */
    method PushPopThis(x: JSObject?) returns (r: JSObject?)
      requires Valid() && Held(x)
      modifies this
      ensures Valid() && r == x
      ensures thisStack == old(thisStack) && GetThis() == old(GetThis())
      ensures scopes == old(scopes) && objs == old(objs)
    {
      PushThis(x);
      r := PopThis();
    }

    /** The current local scope. */
    function Top(): map<string, JSObject?>
      reads this
      requires |scopes| >= 1
    {
      scopes[|scopes| - 1]
    }

    method PushScope()
      requires Valid()
      modifies this
      ensures Valid()
      ensures scopes == old(scopes) + [map[]] && thisStack == old(thisStack) && objs == old(objs)
    {
      scopes := scopes + [map[]];
    }

    method PopScope()
      requires Valid() && |scopes| >= 2
      modifies this
      ensures Valid()
      ensures scopes == old(scopes[..|scopes| - 1]) && thisStack == old(thisStack) && objs == old(objs)
    {
      scopes := scopes[..|scopes| - 1];
    }

    /** Declares `name` in the current scope, bound to None. */
    method CreateLocal(name: string)
      requires Valid()
      modifies this
      ensures Valid()
      ensures scopes == old(scopes)[|old(scopes)| - 1 := old(Top())[name := null]]
      ensures thisStack == old(thisStack) && objs == old(objs) && Below(scopes) == Below(old(scopes))
    {
      scopes := scopes[|scopes| - 1 := Top()[name := null]];
    }

    /** Where the first segment of a dotted path starts: `this`, a local, or a root member. */
    function Head(first: string): (h: JSObject?)
      reads this, root
      requires |thisStack| >= 1 && |scopes| >= 1
    {
      if first == "this" then GetThis()
      else if first in Top() then Top()[first]
      else root.GetItem(first)
    }

    lemma HeadHeld(first: string)
      requires Valid()
      ensures Held(Head(first))
    {
    }

    /** Follows members along `path`; None as soon as a step finds nothing. */
    function WalkTo(o: JSObject?, path: seq<string>): (t: JSObject?)
      reads this, objs
      requires Closed() && Held(o)
      ensures Held(t)
      ensures o == null ==> t == null
      decreases |path|
    {
      if o == null || path == [] then o else WalkTo(o.GetItem(path[0]), path[1..])
    }

    /** The object a dotted name's last segment is looked up on (None if the path breaks). */
    function Target(name: string): (t: JSObject?)
      reads this, objs
      requires Valid() && !Plain(name)
      ensures Held(t)
    {
      var parts := Split(name, '.');
      HeadHeld(parts[0]);
      WalkTo(Head(parts[0]), parts[1..|parts| - 1])
    }

    function LastSegment(name: string): string
    {
      var parts := Split(name, '.');
      parts[|parts| - 1]
    }

    /**
     * `get(name)`: a plain name is looked up in the top scope, else on the root;
     * a dotted name is followed from its head, and it resolves to None when the
     * head, an intermediate object or the final member is missing.
     */
    function Lookup(name: string): (r: JSObject?)
      reads this, objs
      requires Valid()
      ensures Held(r)
    {
      if Plain(name) then
        if name in Top() then Top()[name] else root.GetItem(name)
      else
        var t := Target(name);
        if t == null then null else t.GetItem(LastSegment(name))
    }

    /** One more step along a path looks the next member up on where the path ended. */
    lemma {:induction false} WalkToSnoc(o: JSObject?, path: seq<string>, x: string)
      requires Closed() && Held(o)
      ensures WalkTo(o, path + [x]) == (var t := WalkTo(o, path); if t == null then null else t.GetItem(x))
      decreases |path|
    {
      if o != null && path != [] {
        assert (path + [x])[1..] == path[1..] + [x];
        WalkToSnoc(o.GetItem(path[0]), path[1..], x);
      } else if o != null {
        assert ([] + [x])[1..] == [];
      }
    }

    /**
     * `set(p + "." + m, v)` updates the object `get(p)` finds (the current
     * `this` when p is `this`): the crawler relies on this to hang a prototype
     * on the function object it has just bound.
     */
    lemma PrefixTarget(p: string, m: string)
      requires Valid() && '.' !in m
      ensures !Plain(p + "." + m)
      ensures Target(p + "." + m) == (if p == "this" then GetThis() else Lookup(p))
    {
      var parts := Split(p + "." + m, '.');
      var ps := Split(p, '.');
      SplitAround(p, m, '.');
      SplitNoSeparator(m, '.');
      assert parts == ps + [m];
      assert parts[0] == ps[0];
      assert parts[1..|parts| - 1] == ps[1..];
      if |ps| == 1 {
        JoinSplit(p, '.');
        assert p == ps[0];
      } else {
        assert ps[1..] == ps[1..|ps| - 1] + [ps[|ps| - 1]];
        HeadHeld(ps[0]);
        WalkToSnoc(Head(ps[0]), ps[1..|ps| - 1], ps[|ps| - 1]);
        assert !Plain(p);
        assert p != "this" by {
          if p == "this" {
            SplitNoSeparator("this", '.');
          }
        }
        assert Target(p) == WalkTo(Head(ps[0]), ps[1..|ps| - 1]);
        assert LastSegment(p) == ps[|ps| - 1];
      }
    }

    /** A dotted `set` needs every object on the path up to the last segment. */
    function CanSet(name: string): bool
      reads this, objs
      requires Valid()
    {
      Plain(name) || Target(name) != null
    }

    method Get(name: string) returns (r: JSObject?)
      requires Valid()
      ensures r == Lookup(name)
    {
      var parts := Split(name, '.');
      if |parts| > 1 {
        var cur := Head(parts[0]);
        HeadHeld(parts[0]);
        if cur == null {
          return null;
        }
        var mids := parts[1..|parts| - 1];
        var i := 0;
        while i < |mids|
          invariant 0 <= i <= |mids|
          invariant cur != null && Held(cur)
          invariant WalkTo(cur, mids[i..]) == Target(name)
        {
          assert mids[i..][1..] == mids[i + 1..];
          cur := cur.GetItem(mids[i]);
          if cur == null {
            return null;
          }
          i := i + 1;
        }
        assert mids[i..] == [];
        var last := parts[|parts| - 1];
        if last in cur.members {
          r := cur.members[last];
        } else {
          r := null;
        }
      } else {
        if name in Top() {
          r := Top()[name];
        } else if name in root.members {
          r := root.members[name];
        } else {
          r := null;
        }
      }
    }

    /** Rebinding a plain name the top scope declares: only that binding changes. */
    method SetInTop(name: string, value: JSObject?)
      requires Valid() && Held(value) && name in Top()
      modifies this
      ensures Valid()
      ensures scopes == old(scopes)[|old(scopes)| - 1 := old(Top())[name := value]]
      ensures thisStack == old(thisStack) && objs == old(objs) && Below(scopes) == Below(old(scopes))
    {
      scopes := scopes[|scopes| - 1 := Top()[name := value]];
    }

    /**
     * `set(name, value)`.  A plain name is rebound in the top scope when it is
     * declared there, otherwise on the root, and afterwards `get(name)` is
     * `value` while every other plain name keeps its binding.  A dotted name
     * replaces one member of its target object and changes nothing else.
     */
    method Set(name: string, value: JSObject?)
      requires Valid() && Held(value) && CanSet(name)
      modifies this, objs
      ensures Valid()
      ensures objs == old(objs) && thisStack == old(thisStack)
      ensures Plain(name) && name in old(Top()) ==>
        && scopes == old(scopes)[|old(scopes)| - 1 := old(Top())[name := value]]
        && unchanged(objs)
      ensures Plain(name) && name !in old(Top()) ==>
        && scopes == old(scopes)
        && root.members == old(root.members)[name := value]
        && forall o :: o in objs && o != root ==> o.members == old(o.members)
      ensures Plain(name) ==> Lookup(name) == value
      ensures Plain(name) ==> forall n :: Plain(n) && n != name ==> Lookup(n) == old(Lookup(n))
      ensures !Plain(name) ==>
        var t := old(Target(name));
        && scopes == old(scopes)
        && t.members == old(t.members)[LastSegment(name) := value]
        && forall o :: o in objs && o != t ==> o.members == old(o.members)
    {
      var parts := Split(name, '.');
      if |parts| > 1 {
        ghost var t := Target(name);
        var cur := Head(parts[0]);
        HeadHeld(parts[0]);
        var mids := parts[1..|parts| - 1];
        var i := 0;
        while i < |mids|
          invariant 0 <= i <= |mids|
          invariant Held(cur)
          invariant WalkTo(cur, mids[i..]) == t
        {
          assert mids[i..][1..] == mids[i + 1..];
          cur := cur.GetItem(mids[i]);
          i := i + 1;
        }
        assert mids[i..] == [];
        cur.SetItem(parts[|parts| - 1], value);
      } else if name in Top() {
        SetInTop(name, value);
      } else {
        root.SetItem(name, value);
      }
    }
  }
}
