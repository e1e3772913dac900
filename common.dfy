/** Small value wrappers shared by every module of the model. */
module Common {

  /** Python's `x or None`: a value that may be absent. */
  datatype Option<+T> = None | Some(value: T)

  /**
   * The result of a Python computation that may raise.  Every exception the
   * inliner can raise (AttributeError, TypeError, IndexError, NameError)
   * propagates out of `inlineSingle`, so the model only records THAT it raised.
   */
  datatype Outcome<+T> = Done(value: T) | Raised

  /**
   * A left-to-right list computation that has produced `done` so far and will
   * produce `rest` from here on: the whole fails when the rest fails, and is
   * otherwise `done` followed by the rest.
   */
  predicate Continues<T(==)>(whole: Outcome<seq<T>>, done: seq<T>, rest: Outcome<seq<T>>)
  {
    (rest.Raised? ==> whole.Raised?) && (rest.Done? ==> whole == Done(done + rest.value))
  }

  /** `b` is the stack `a` with one more entry pushed on top. */
  predicate Pushed<T(==)>(a: seq<T>, b: seq<T>)
  {
    |b| == |a| + 1 && b[..|a|] == a
  }

  /** The stack `s` without its top entry. */
  function Below<T>(s: seq<T>): seq<T>
    requires |s| > 0
  {
    s[..|s| - 1]
  }
}
