/** Small failure-carrying datatypes used across the model. */
module Wrappers {

  /** A value that may be absent: Python's `None` for optional arguments and failed lookups. */
  datatype Option<+T> = None | Some(value: T)

  /** The outcome of an operation where the Python code raises on bad input. */
  datatype Result<+R, +E> = Success(value: R) | Failure(error: E)
}
