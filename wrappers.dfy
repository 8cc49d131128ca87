/** Option, Result and Outcome: the model's stand-ins for Ruby's `nil`,
    dry-monads' Success/Failure, and a raised exception. */
module Wrappers {

  datatype Option<+T> = None | Some(value: T) {
    function GetOr(default: T): T {
      match this
      case Some(v) => v
      case None => default
    }
  }

  /** dry-monads' `Success(value)` / `Failure(error)`. */
  datatype Result<+T, +E> = Success(value: T) | Failure(error: E)

  /** The result of a Ruby call made for its effect: it returns, or it raises `error`. */
  datatype Outcome<+E> = Pass | Fail(error: E)
}
