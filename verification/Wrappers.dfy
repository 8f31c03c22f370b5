/** Optional values and outcomes that may carry an error. */
module Wrappers {

  datatype Option<+T> = None | Some(value: T)

  /** An instruction or parser outcome; `:-` propagates a failure. */
  datatype Result<+T, +E> = Success(value: T) | Failure(error: E) {

    predicate IsFailure() {
      Failure?
    }

    function PropagateFailure<U>(): Result<U, E>
      requires Failure?
    {
      Failure(error)
    }

    function Extract(): T
      requires Success?
    {
      value
    }
  }

  /** Succeeds with no payload exactly when the condition holds. */
  function Require<E>(condition: bool, error: E): Result<(), E> {
    if condition then Success(()) else Failure(error)
  }
}
