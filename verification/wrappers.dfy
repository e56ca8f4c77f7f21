/** Failure-compatible wrappers shared by every module of the model. */
module Wrappers {

  /** An optional value: the model's stand-in for `null` / `undefined`. */
  datatype Option<+T> = None | Some(value: T)

  /** Either a value or the error a thrown exception would have carried. */
  datatype Result<+R, +E> = Success(value: R) | Failure(error: E) {

    predicate IsFailure() {
      Failure?
    }

    function PropagateFailure<U>(): Result<U, E>
      requires Failure?
    {
      Failure(error)
    }

    function Extract(): R
      requires Success?
    {
      value
    }
  }
}
