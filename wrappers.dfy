/** Java's nullable references and thrown exceptions, as values. */
module Wrappers {

  /** `None` stands for a Java `null`. */
  datatype Option<+T> = None | Some(value: T)

  /** `Failure` stands for an exception that ends the call. */
  datatype Result<+R, +E> = Success(value: R) | Failure(error: E)
}
