/** Failure-carrying datatypes shared by every module of the model. */
module Wrappers {

  /** A value that may be absent: a missing table cell, an absent DOM element. */
  datatype Option<+T> = None | Some(value: T) {

    /** The value, or `default` when absent (Python's `x or default` for objects). */
    function GetOr(default: T): T {
      match this
      case Some(v) => v
      case None => default
    }
  }

  /** The outcome of an operation that the program can abort with an exception. */
  datatype Result<+R, +E> = Success(value: R) | Failure(error: E)
}
