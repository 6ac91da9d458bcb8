/** Failure-carrying datatypes shared by the whole model. */
module Wrappers {

  /** A value that may be missing, such as a member the debugger does not show. */
  datatype Option<+T> = None | Some(value: T) {

    /** The value, or `default` when it is missing. */
    function GetOr(default: T): T {
      match this
      case Some(v) => v
      case None => default
    }
  }

  /** The outcome of an operation that the Python code can abort with an exception. */
  datatype Result<+R, +E> = Success(value: R) | Failure(error: E)
}
