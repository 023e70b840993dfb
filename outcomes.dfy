/** Optional values and results with an error branch, shared by every module. */
module Outcomes {

  /** A value that may be absent: `None` plays the part of Python's `None` or NaN marker. */
  datatype Option<+T> = None | Some(value: T)

  /** The outcome of an operation whose source raises an exception on some inputs. */
  datatype Result<+T, +E> = Ok(value: T) | Err(error: E)

  /** The outcome of an operation that only changes state, or raises. */
  datatype Outcome<+E> = Pass | Fail(error: E)
}
