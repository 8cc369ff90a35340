/**
 Optional values and success/failure results.

 `Option` stands for a JavaScript value that may be `undefined` (an absent
 field of a parsed document, a pattern that found nothing, a number that
 parsed to `NaN`); `Result` stands for an operation that either returns a
 value or throws one of a fixed set of errors.
 */
module Wrappers {

  datatype Option<+T> = None | Some(value: T) {

    /** The value if present, otherwise `default`. */
    function GetOr(default: T): T {
      match this
      case Some(v) => v
      case None => default
    }
  }

  datatype Result<+R, +E> = Success(value: R) | Failure(error: E)

  /** The first present value of `a` and `b` (JavaScript's `a || b` on values that are either truthy or absent). */
  function OrElse<T>(a: Option<T>, b: Option<T>): Option<T> {
    if a.Some? then a else b
  }
}
