/** The option and result datatypes used throughout the model: a nullable
    value and the outcome of an operation that can throw. */
module Wrappers {

  /** A value that may be absent (a C# `null` reference or a failed `TryParse`). */
  datatype Option<+T> = None | Some(value: T)

  /** The outcome of an operation that either returns a value or throws. */
  datatype Result<+R, +E> = Success(value: R) | Failure(error: E)
}
