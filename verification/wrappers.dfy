/** Option and Result types shared by the decoding and translation modules. */
module Wrappers {

  /** A value that may be absent, used for a Python local that may still be unbound. */
  datatype Option<+T> = None | Some(value: T)

  /** The outcome of an operation that can raise: a value, or the error it raised. */
  datatype Result<+R, +E> = Success(value: R) | Failure(error: E)
}
