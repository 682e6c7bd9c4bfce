/** Optional values and pass/fail outcomes, standing in for JavaScript's
    `undefined`/`null` and for the early `return` of a rejected form. */
module Wrappers {

  datatype Option<+T> = None | Some(value: T) {

    /** The value when present, `default` otherwise. */
    function GetOr(default: T): T {
      match this
      case Some(v) => v
      case None => default
    }
  }

  /** The outcome of a check or of a form submission: `Pass`, or `Fail` with a reason. */
  datatype Outcome<+E> = Pass | Fail(error: E)
}
