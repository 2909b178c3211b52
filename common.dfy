/** Option and Result, the failure-carrying values used throughout the model. */
module Wrappers {

  datatype Option<+T> = None | Some(value: T)

  datatype Result<+T, +E> = Success(value: T) | Failure(error: E)
}

/** Octets, as Python's `bytes` holds them. */
module Bytes {

  type byte = x: int | 0 <= x < 256
}
