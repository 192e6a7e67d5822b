/** Option and Result datatypes shared by the other modules. */
module Wrappers {

  datatype Option<+T> = None | Some(value: T)

  /** The outcome of an operation that the source may abort by throwing an Error. */
  datatype Result<+T, +E> = Ok(value: T) | Err(error: E)
}
