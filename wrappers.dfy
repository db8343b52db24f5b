/** Option and Result values standing in for Python's `None` and raised exceptions. */
module Wrappers {

  datatype Option<+T> = None | Some(value: T)

  /** `Fail` carries the exception the Python code would raise at that point. */
  datatype Result<+T, +E> = Ok(value: T) | Fail(error: E)
}
