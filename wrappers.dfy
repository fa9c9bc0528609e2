/** Option and Result, the usual failure-compatible wrappers. */
module Wrappers {

  /** `Some(v)` for a present value, `None` for JavaScript's `null` / `undefined`. */
  datatype Option<+T> = None | Some(value: T)

  /** The outcome of an operation that can throw: `Failure` carries the error message. */
  datatype Result<+R, +E> = Success(value: R) | Failure(error: E)
}
