/** Failure-carrying result types used by the decoder. */
module Wrappers {

  /** A value that may be missing, as a dictionary lookup that may find no key. */
  datatype Option<+T> = None | Some(value: T)

  /** Either a value or the fault that stopped the computation. */
  datatype Result<+T, +E> = Ok(value: T) | Err(error: E)
}
