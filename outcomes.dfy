/** Ruby's `nil`-or-value and raise-or-return, as datatypes. */
module Outcomes {

  /** A value that may be Ruby's `nil`. */
  datatype Option<+T> = None | Some(value: T) {
    function GetOr(default: T): T {
      match this
      case Some(v) => v
      case None => default
    }
  }

  /** The outcome of a call that either returns a value or raises an exception. */
  datatype Result<+R, +E> = Success(value: R) | Failure(error: E)
}
