/** Failure-carrying result types used where the Python code returns None or raises. */
module Wrappers {

  /** Python's optional value: `None` or a present value. */
  datatype Option<+T> = None | Some(value: T) {

    /** The value, or `default` when absent. */
    function GetOr(default: T): T {
      match this
      case Some(v) => v
      case None => default
    }
  }

  /** The outcome of a step that may raise: a value or the exception it raises. */
  datatype Result<+R, +E> = Ok(value: R) | Err(error: E)
}
