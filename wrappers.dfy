/** Result shapes shared by the modules: Python's raised exceptions become values. */
module Wrappers {

  /** A value that may be absent. */
  datatype Option<+T> = None | Some(value: T)

  /** The outcome of a check that either returns nothing or raises `E`. */
  datatype Outcome<+E> = Pass | Fail(error: E)

  /** A value of type `T`, or an error of type `E`. */
  datatype Result<+T, +E> = Ok(value: T) | Err(error: E)

  /** Python's built-in `ValueError`, with its message. */
  datatype ValueError = ValueError(message: string)
}
