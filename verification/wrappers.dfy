/** Option and Result, the two failure-carrying datatypes the model uses in
    place of C#'s null references and thrown exceptions. */
module Wrappers {

  /** A value that may be absent (a C# `null`). */
  datatype Option<+T> = None | Some(value: T)

  /** Either a value or the fault that stopped the computation (a thrown
      exception in the source). */
  datatype Result<+R, +E> = Success(value: R) | Failure(error: E)
}
