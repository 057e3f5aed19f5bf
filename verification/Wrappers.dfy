/** The two result types that every module shares. */
module Wrappers {

  /** Python's `T | None`. */
  datatype Option<+T> = None | Some(value: T)

  /** A call that returns normally or raises. */
  datatype Result<+T, +E> = Ok(value: T) | Raised(error: E)
}
