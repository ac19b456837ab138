/** Option and Result, the failure-compatible wrappers the rest of the model uses. */
module Wrappers {

  datatype Option<+T> = None | Some(value: T)

  /** The outcome of a step that may raise: the value, or the reason it raised. */
  datatype Result<+T, +E> = Success(value: T) | Failure(error: E) {
    predicate IsFailure() {
      Failure?
    }

    function PropagateFailure<U>(): Result<U, E>
      requires Failure?
    {
      Failure(error)
    }

    function Extract(): T
      requires Success?
    {
      value
    }
  }
}
