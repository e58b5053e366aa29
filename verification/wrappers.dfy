/** Optional values and Python call outcomes, shared by every module of the
    model. */
module Wrappers {

  /** A value that may be absent: a failed parse, a regex without a match. */
  datatype Option<+T> = None | Some(value: T)

  /** The outcome of a Python call that may raise. */
  datatype Result<+R, +E> = Ok(value: R) | Err(error: E)
}
