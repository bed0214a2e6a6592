/** Option and Result: Java's nullable references and thrown exceptions, as values. */
module Wrappers {

  /** `None` stands for Java's `null`. */
  datatype Option<+T> = None | Some(value: T)

  /** `Err` stands for an exception that leaves the Java method. */
  datatype Result<+T, +E> = Ok(value: T) | Err(error: E)
}
