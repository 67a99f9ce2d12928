/** Plain result types standing in for Java's null and exceptions. */
module Wrappers {

  /** A Java reference that may be null. */
  datatype Option<+T> = None | Some(value: T)

  /** A computation that either yields a value or throws. */
  datatype Result<+R, +E> = Ok(value: R) | Err(error: E)

  /** A void computation that either returns normally or throws. */
  datatype Outcome<+E> = Pass | Fail(error: E)
}
