/** Failure-compatible wrappers used across the model: a value that may be absent
    and the outcome of an operation that may fail with an error value. */
module Wrappers {

  datatype Option<+T> = None | Some(value: T) {
    /** The wrapped value, or the given default when there is none (JavaScript's `??`). */
    function GetOr(default: T): T {
      match this
      case Some(v) => v
      case None => default
    }
  }

  /** The outcome of an operation that returns nothing but may fail. */
  datatype Outcome<+E> = Pass | Fail(error: E)
}
