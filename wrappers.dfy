/** Optional values and results with an error, as used by the URL and user services. */
module Wrappers {

  /** A value that may be absent (a nullable column, an optional request field). */
  datatype Option<+T> = None | Some(value: T)

  /** The outcome of a service call: a value, or the exception it throws. */
  datatype Result<+T, +E> = Ok(value: T) | Err(error: E)

  /** Abstract clock reading, supplied by the caller of each operation. */
  type Timestamp = nat
}
