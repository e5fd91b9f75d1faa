/** Failure-compatible wrapper types shared by the model's modules. */
module Wrappers {

  /** An optional value. */
  datatype Option<+T> = None | Some(value: T)

  /** Either a value or the error that the JavaScript code would have thrown. */
  datatype Result<+R, +E> = Success(value: R) | Failure(error: E)
}
