/** Option and Result, the two failure-compatible wrappers the SenML model is written with.
    Both can be used with `:-`. */
module Wrappers {

  /** A value that may be absent: every SenML field is one of these (Python's `None`). */
  datatype Option<+T> = None | Some(value: T) {

    /** The wrapped value, or `default` when absent */
    function GetOr(default: T): T {
      match this
      case Some(v) => v
      case None => default
    }
  }

  /** The outcome of a decoder: a value, or the error that stopped it */
  datatype Result<+R, +E> = Success(value: R) | Failure(error: E) {

    predicate IsFailure() {
      Failure?
    }

    function PropagateFailure<U>(): Result<U, E>
      requires Failure?
    {
      Failure(error)
    }

    function Extract(): R
      requires Success?
    {
      value
    }
  }
}
