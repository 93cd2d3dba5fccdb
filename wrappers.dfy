/** Failure-carrying values: an absent Java reference and a thrown exception. */
module Wrappers {

  /** A value that may be missing, where the source returns or stores `null`. */
  datatype Option<+T> = None | Some(value: T)

  /** A value, or the exception that the source would throw instead of producing it. */
  datatype Result<+T, +E> = Ok(value: T) | Err(error: E)
}
