/** The optional value and the success-or-error result used across the model. */
module Wrappers {
  /** `None` stands for JavaScript's `null`, `undefined` or `NaN`. */
  datatype Option<+T> = None | Some(value: T)

  /** A value, or the error that a JavaScript `throw` would raise. */
  datatype Result<+T, +E> = Success(value: T) | Failure(error: E)
}
