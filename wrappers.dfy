/** Option and Result, used for Python's `None` and for the exceptions that abort a run. */
module Wrappers {

  /** A value that may be absent, as `dict.get(key, None)` returns it. */
  datatype Option<+T> = None | Some(value: T)

  /** Either a value or the error that stopped the computation. */
  datatype Result<+T, +E> = Success(value: T) | Failure(error: E)
}
