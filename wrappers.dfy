/** Optional values and error-carrying results, standing for Java's null and thrown exceptions. */
module Wrappers {

  /** A Java reference that may be null. */
  datatype Option<+T> = None | Some(value: T)

  /** The value a Java method returns, or the exception it throws. */
  datatype Result<+T, +E> = Ok(value: T) | Err(error: E)

  /** The outcome of a Java method returning void: it returns normally, or throws. */
  datatype Outcome<+E> = Pass | Fail(error: E)
}
