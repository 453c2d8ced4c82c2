/** Failure-compatible wrappers used throughout the model: an optional value
    (Python's `None` versus a value) and a success/failure result (a normal
    return versus a raised exception). */
module Wrappers {

  /** A value that may be absent; `None` models Python's `None`. */
  datatype Option<+T> = None | Some(value: T)

  /** Either a normal return `Success(value)` or an exception `Failure(error)`. */
  datatype Result<+R, +E> = Success(value: R) | Failure(error: E) {

    predicate IsFailure() {
      Failure?
    }

    function PropagateFailure<U>(): Result<U, E>
      requires Failure?
    {
      Failure(error)
    }

    function Extract(): R
      requires Success?
    {
      value
    }
  }
}
