/** Values that stand for Python's `None` and for an operation that either
    returns or raises. */
module Outcomes {

  /** A value that may be absent, as Python's `None`. */
  datatype Option<+T> = None | Some(value: T)

  /** The result of an operation that returns `value` or raises `error`. */
  datatype Result<+T, +E> = Ok(value: T) | Err(error: E)
}
