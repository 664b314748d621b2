/** Results and options shared by every module. */
module Wrappers {

  datatype Option<+T> = None | Some(value: T)

  /** A completed computation, or the exception it raised. */
  datatype Result<+R, +E> = Success(value: R) | Failure(error: E) {

    predicate IsFailure() {
      Failure?
    }

    function PropagateFailure<U>(): Result<U, E>
      requires Failure?
    {
      Failure(error)
    }

    function Extract(): R
      requires Success?
    {
      value
    }
  }
}
