/** Option and Result, used for Python's None and for the error exits of the script. */
module Wrappers {

  datatype Option<+T> = None | Some(value: T)

  /** Success or the error that ends the operation; failure-compatible, so `:-` propagates the error. */
  datatype Result<+R, +E> = Success(value: R) | Failure(error: E) {

    predicate IsFailure() {
      Failure?
    }

    function PropagateFailure<U>(): Result<U, E>
      requires Failure?
    {
      Failure(error)
    }

    function Extract(): R
      requires Success?
    {
      value
    }
  }
}
