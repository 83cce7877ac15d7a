/** Option and Result values standing in for Java's null and thrown exceptions. */
module Wrappers {

  /** A value that may be absent; `None` plays the part of a Java `null`. */
  datatype Option<+T> = None | Some(value: T)

  /** The outcome of an operation that may fail instead of producing a value. */
  datatype Result<+R, +E> = Success(value: R) | Failure(error: E)
}
