/** The `Option` and `Result` types used across the pack format modules. */
module Wrappers {

  datatype Option<+T> = None | Some(value: T)

  /** An operation that either yields a value or fails with a message
      (a thrown `Error` in the original code). */
  datatype Result<+T> = Success(value: T) | Failure(error: string)
}
