/**
 * The loop analysis of `unloopFor`: recognising a counting `for` loop (its
 * start value, its step and its stop test) and counting how many times it
 * runs, up to the unrolling limit.
 */
module Loops {
  import opened Common
  import opened JsAst

  /** At most this many copies of a loop body are emitted. */
  const MaxIterations: nat := 60

  datatype Cmp = Lt | Le | Gt | Ge

  /**
   * The right operand of the loop condition: a number, or anything else.
   * Python 2 orders every number below every string, so comparing the counter
   * with a non-numeric operand has a fixed answer.
   */
  datatype Limit = Num(n: int) | NonNumeric

  /** A recognised counting loop: the counter runs start, start+step, ... until the stop test holds. */
  datatype Loop = Loop(start: int, step: int, cmp: Cmp, limit: Limit)

  /** A node naming the loop variable (`node.value == variable`; no variable matches nothing). */
  predicate IsVar(n: Node, variable: Option<string>)
  {
    variable.Some? && ValueIs(n, variable.value)
  }

  /**
   * The set-up clause `var i = <number>`: the variable and its start value.
   * A declaration whose first declarator has no initializer raises.
   */
  function ParseSetup(setup: Node): Outcome<Option<(string, int)>>
    requires WellShaped(setup)
  {
    if setup.kind == VAR && setup.kids[0].kind == IDENTIFIER then
      var init := setup.kids[0].initializer;
      if init.None? then Raised
      else if init.value.kind == NUMBER then Done(Some((setup.kids[0].value, init.value.num)))
      else Done(None)
    else Done(None)
  }

  /**
   * The update clause: `i++` (or `++i`) steps by 1 and `i--` by -1, whatever
   * variable they name; `i += n`, `i -= n`, `i = i + n`, `i = n + i` and
   * `i = i - n` with a number `n` step by `n` or `-n`.  The Python tests are
   * applied one after another, a later one overriding an earlier one.
   */
  function ParseStep(u: Node, variable: Option<string>): Option<int>
    requires WellShaped(u)
  {
    if u.kind == INCREMENT then Some(1)
    else if u.kind == DECREMENT then Some(-1)
    else if u.kind == ASSIGN then
      var lhs, rhs := u.kids[0], u.kids[1];
      assert WellShaped(rhs);
      var onVar := lhs.kind == IDENTIFIER && IsVar(lhs, variable);
      var s1 :=
        if onVar && rhs.kind == NUMBER then
          if u.value == "+" then Some(rhs.num) else if u.value == "-" then Some(-rhs.num) else None
        else None;
      var s2 :=
        if onVar && rhs.kind == PLUS then
          var s2a := if IsVar(rhs.kids[0], variable) && rhs.kids[1].kind == NUMBER then Some(rhs.kids[1].num) else s1;
          if IsVar(rhs.kids[1], variable) && rhs.kids[0].kind == NUMBER then Some(rhs.kids[0].num) else s2a
        else s1;
      if onVar && rhs.kind == MINUS && IsVar(rhs.kids[0], variable) && rhs.kids[1].kind == NUMBER
      then Some(-rhs.kids[1].num)
      else s2
    else None
  }

  /**
   * The condition `i < n`, `i <= n`, `i > n` or `i >= n`, accepted only when
   * the step moves towards the bound.  That test is made with Python 2 rules,
   * in which a missing step is below every number.
   */
  function ParseStop(c: Node, variable: Option<string>, step: Option<int>): Option<(Cmp, Limit)>
    requires WellShaped(c)
  {
    if c.kind in {LT, LE, GT, GE} && c.kids[0].kind == IDENTIFIER && IsVar(c.kids[0], variable) then
      var limit := if c.kids[1].kind == NUMBER then Num(c.kids[1].num) else NonNumeric;
      var up := step.Some? && step.value > 0;
      var down := step.None? || step.value < 0;
      if c.kind == LT && up then Some((Lt, limit))
      else if c.kind == LE && up then Some((Le, limit))
      else if c.kind == GT && down then Some((Gt, limit))
      else if c.kind == GE && down then Some((Ge, limit))
      else None
    else None
  }

  /**
   * The loop `unloopFor` recognises, `Done(None)` when it does not recognise
   * it, or the exception of reading a clause the loop does not have.  As
   * written (`asWritten`), a non-numeric bound is accepted and compared by
   * Python 2's mixed-type ordering; otherwise it is not recognised.
   */
  function ParseLoop(loop: Node, asWritten: bool): Outcome<Option<Loop>>
    requires WellShaped(loop)
  {
    if loop.setup.None? then Raised
    else
      match ParseSetup(loop.setup.value)
      case Raised => Raised
      case Done(sv) =>
        var variable := if sv.Some? then Some(sv.value.0) else None;
        if loop.update.None? then Raised
        else
          var step := ParseStep(loop.update.value, variable);
          if loop.condition.None? then Raised
          else
            var stop := ParseStop(loop.condition.value, variable, step);
            if sv.None? || step.None? || stop.None? then Done(None)
            else if !asWritten && stop.value.1.NonNumeric? then Done(None)
            else Done(Some(Loop(sv.value.1, step.value, stop.value.0, stop.value.1)))
  }

  /** A loop whose three clauses parse is recognised with them; corrected, only when its bound is a number. */
  lemma ParseLoopOf(loop: Node, asWritten: bool, x: string, start: int, step: int, cmp: Cmp, limit: Limit)
    requires WellShaped(loop) && loop.setup.Some? && loop.update.Some? && loop.condition.Some?
    requires ParseSetup(loop.setup.value) == Done(Some((x, start)))
    requires ParseStep(loop.update.value, Some(x)) == Some(step)
    requires ParseStop(loop.condition.value, Some(x), Some(step)) == Some((cmp, limit))
    ensures ParseLoop(loop, asWritten) == if !asWritten && limit.NonNumeric? then Done(None) else Done(Some(Loop(start, step, cmp, limit)))
  {
  }

  /** The stop test on a counter value. */
  predicate Stops(l: Loop, i: int)
  {
    match l.limit
    case Num(b) =>
      (match l.cmp
       case Lt => i >= b
       case Le => i > b
       case Gt => i <= b
       case Ge => i < b)
    case NonNumeric => l.cmp == Gt || l.cmp == Ge
  }

  /** The counter's value after k steps. */
  function Value(l: Loop, k: nat): int
    decreases k
  {
    if k == 0 then l.start else Value(l, k - 1) + l.step
  }

  /** After k steps the counter is start + k * step. */
  lemma {:induction false} ValueFormula(l: Loop, k: nat)
    ensures Value(l, k) == l.start + k * l.step
    decreases k
  {
    if k > 0 {
      ValueFormula(l, k - 1);
      assert (k - 1) * l.step + l.step == k * l.step;
    }
  }

  /** n is the number of runs: the stop test fails for the first n values and holds for the next. */
  predicate RunsExactly(l: Loop, n: nat)
  {
    Stops(l, Value(l, n)) && forall k :: 0 <= k < n ==> !Stops(l, Value(l, k))
  }

  /** The number of runs, capped at the limit: the first k whose value stops the loop, or the limit. */
  function Runs(l: Loop): (n: nat)
    ensures n <= MaxIterations
    ensures forall k :: 0 <= k < n ==> !Stops(l, Value(l, k))
    ensures n < MaxIterations ==> Stops(l, Value(l, n))
  {
    RunsFrom(l, 0)
  }

  function RunsFrom(l: Loop, k: nat): (n: nat)
    requires k <= MaxIterations && forall j :: 0 <= j < k ==> !Stops(l, Value(l, j))
    ensures k <= n <= MaxIterations
    ensures forall j :: 0 <= j < n ==> !Stops(l, Value(l, j))
    ensures n < MaxIterations ==> Stops(l, Value(l, n))
    decreases MaxIterations - k
  {
    if k == MaxIterations || Stops(l, Value(l, k)) then k else RunsFrom(l, k + 1)
  }

  /** The three facts pin the count down. */
  lemma RunsCharacterised(l: Loop, n: nat)
    requires n <= MaxIterations
    requires forall k :: 0 <= k < n ==> !Stops(l, Value(l, k))
    requires n < MaxIterations ==> Stops(l, Value(l, n))
    ensures n == Runs(l)
  {
  }

  /**
   * The counting loop of `unloopFor`.  It returns the number of runs when the
   * loop stops within the limit, and the limit itself otherwise.
   */
  method CountIterations(l: Loop) returns (n: nat)
    ensures n <= MaxIterations
    ensures forall k :: 0 <= k < n ==> !Stops(l, Value(l, k))
    ensures n < MaxIterations ==> Stops(l, Value(l, n))
    ensures n == Runs(l)
  {
    n := 0;
    var cur := l.start;
    while n < MaxIterations && !Stops(l, cur)
      invariant n <= MaxIterations && cur == Value(l, n)
      invariant forall k :: 0 <= k < n ==> !Stops(l, Value(l, k))
    {
      n := n + 1;
      cur := cur + l.step;
    }
    RunsCharacterised(l, n);
  }

  /** The number of runs is unique. */
  lemma RunsUnique(l: Loop, n: nat, m: nat)
    requires RunsExactly(l, n) && RunsExactly(l, m)
    ensures n == m
  {
  }

  /**
   * `i < b` counting up by `step` runs once for every value below `b`:
   * the number of runs is the least n with start + n * step >= b.
   */
  lemma CountUp(l: Loop, b: int, n: nat)
    requires l.cmp == Lt && l.limit == Num(b) && l.step > 0
    requires n * l.step >= b - l.start && (n == 0 || (n - 1) * l.step < b - l.start)
    ensures RunsExactly(l, n)
  {
    forall k: nat | k < n
      ensures !Stops(l, Value(l, k))
    {
      MulMono(k, n - 1, l.step);
      ValueFormula(l, k);
    }
    ValueFormula(l, n);
  }

  lemma MulMono(a: nat, b: nat, c: int)
    requires a <= b && c > 0
    ensures a * c <= b * c
  {
  }

  /** `for (var i=0; i<2; i+=1)` runs twice, for 0 and 1. */
  lemma TwoRuns()
    ensures RunsExactly(Loop(0, 1, Lt, Num(2)), 2)
    ensures Value(Loop(0, 1, Lt, Num(2)), 0) == 0 && Value(Loop(0, 1, Lt, Num(2)), 1) == 1
  {
  }

  /** `for (var i=5; i>0; i=i-3)` runs for 5 and 2. */
  lemma DownByThree()
    ensures RunsExactly(Loop(5, -3, Gt, Num(0)), 2)
  {
    var l := Loop(5, -3, Gt, Num(0));
    assert Value(l, 0) == 5 && Value(l, 1) == 2 && Value(l, 2) == -1;
  }

  /**
   * As written, a downward loop with a non-numeric bound (`i > n`) stops
   * before its first run: it is recognised and unrolled zero times.  An upward
   * one (`i < n`) never stops and hits the limit.
   */
  lemma NonNumericBound(l: Loop)
    requires l.limit == NonNumeric
    ensures (l.cmp == Gt || l.cmp == Ge) ==> RunsExactly(l, 0)
    ensures (l.cmp == Lt || l.cmp == Le) ==> forall k :: !Stops(l, Value(l, k))
  {
  }

  /** Corrected, a loop is recognised only with a numeric bound. */
  lemma RecognisedIsNumeric(loop: Node)
    requires WellShaped(loop) && ParseLoop(loop, false).Done? && ParseLoop(loop, false).value.Some?
    ensures ParseLoop(loop, false).value.value.limit.Num?
    ensures ParseLoop(loop, true) == ParseLoop(loop, false)
  {
  }
}
