/** The optional-value and success-or-error datatypes used across the model. */
module Wrappers {

  /** A value that may be absent: the model of a C# nullable member. */
  datatype Option<+T> = None | Some(value: T)

  /** The outcome of an operation that can fail (in C#, by throwing). */
  datatype Result<+R, +E> = Success(value: R) | Failure(error: E)
}
