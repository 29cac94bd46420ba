/** Option and Result datatypes for the source's nullable results and its thrown exceptions. */
module Wrappers {

  /** A value that may be absent: the model of a C# `null`. */
  datatype Option<+T> = None | Some(value: T)

  /** Either a value or the error the source would throw instead of returning it. */
  datatype Result<+T, +E> = Success(value: T) | Failure(error: E)
}
