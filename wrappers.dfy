/** Option and Result values that stand for JavaScript's `undefined`/`null`
    results and thrown errors. */
module Wrappers {

  /** `None` is a value the JavaScript code sees as `undefined` or `null`. */
  datatype Option<+T> = None | Some(value: T)

  /** `Failure` carries the message of an `Error` the JavaScript code throws. */
  datatype Result<+R, +E> = Success(value: R) | Failure(error: E)
}
