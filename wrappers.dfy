/** Small failure-carrying datatypes shared by the other modules. */
module Wrappers {

  /** A value that may be absent (a C# null reference or a missing match). */
  datatype Option<T> = None | Some(value: T)

  /** Either a value or the error that stopped the computation (a thrown exception). */
  datatype Result<T, E> = Ok(value: T) | Err(error: E)
}
