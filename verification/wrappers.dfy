/** Failure-carrying results shared by the engine and the decoders. */
module Wrappers {

  /** An optional value: `None` where the source returns Python `None`. */
  datatype Option<+T> = None | Some(value: T)

  /** A value or the reason the source stops with an exception or an error exit. */
  datatype Result<+T, +E> = Ok(value: T) | Err(error: E)
}
