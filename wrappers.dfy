/** Nullable values and thrown exceptions of the source, as values. */
module Wrappers {

  /** A Kotlin nullable value or a Java reference that may be null. */
  datatype Option<+T> = None | Some(value: T)

  /** The value an operation returns, or the exception it throws. */
  datatype Result<+T, +E> = Ok(value: T) | Err(error: E)
}
