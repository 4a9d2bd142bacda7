/** Failure-carrying return values, used in place of the Java exceptions. */
module Wrappers {

  /** A nullable Java reference: `None` is `null`. */
  datatype Option<+T> = None | Some(value: T) {
    function GetOr(default: T): T {
      if Some? then value else default
    }
  }

  /** The value a method returns, or the exception it throws. */
  datatype Result<+T, +E> = Success(value: T) | Failure(error: E)

  /** A `void` method's normal completion, or the exception it throws. */
  datatype Outcome<+E> = Pass | Fail(error: E)
}
