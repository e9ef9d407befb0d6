/** Failure-compatible wrappers shared by the other modules. */
module Wrappers {

  /** The optional value of the source's `None`-able variables. */
  datatype Option<+T> = None | Some(value: T)

  /** A computation that either succeeds or stops with an error. */
  datatype Result<+R, +E> = Success(value: R) | Failure(error: E) {

    predicate IsFailure() {
      Failure?
    }

    function PropagateFailure<U>(): Result<U, E>
      requires Failure?
    {
      Failure(error)
    }

    function Extract(): R
      requires Success?
    {
      value
    }
  }
}
