/** Failure-carrying values used in place of the source's `log.Fatalln` and discarded errors. */
module Wrappers {

  datatype Option<+T> = None | Some(value: T)

  /** The value of a call that may fail with an error of type E. */
  datatype Result<+T, +E> = Ok(value: T) | Err(error: E)

  /** The result of a call that only succeeds or fails. */
  datatype Outcome<+E> = Pass | Fail(error: E)
}
