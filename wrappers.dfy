/** Failure-compatible result types shared by every stage of the migration. */
module Wrappers {

  /** A value that may be absent. */
  datatype Option<+T> = None | Some(value: T)

  /** The outcome of an operation that either yields a value or stops the run. */
  datatype Result<+T, +E> = Ok(value: T) | Err(error: E)
}
