/** Option and Result, used for the converter's absent values and its failures. */
module Wrappers {

  datatype Option<+T> = None | Some(value: T)

  /** A result that is either a value or the error that aborted the computation. */
  datatype Result<+R, +E> = Success(value: R) | Failure(error: E) {

    predicate IsFailure() {
      Failure?
    }

    function PropagateFailure<U>(): Result<U, E>
      requires Failure?
    {
      Failure(error)
    }

    function Extract(): R
      requires Success?
    {
      value
    }
  }
}
