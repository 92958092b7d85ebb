/** Option and Result values shared by the modules of this model. */
module Common {

  /** A value that may be absent (a missing key, a `None`). */
  datatype Option<+T> = None | Some(value: T)

  /** The outcome of an operation that either returns a value or raises an error. */
  datatype Result<+R, +E> = Success(value: R) | Failure(error: E)
}
