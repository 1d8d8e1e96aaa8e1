/** The optional and failure-carrying values used throughout the model:
    `None` stands for a C# `null`, `Failure` for an exception or an error string. */
module Wrappers {

  datatype Option<+T> = None | Some(value: T)

  datatype Result<+T, +E> = Success(value: T) | Failure(error: E)
}
