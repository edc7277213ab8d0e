/** Option and Result values used for Python's `None` and for raised exceptions. */
module Wrappers {

  /** `None` stands for Python's `None`. */
  datatype Option<T> = None | Some(value: T)

  /** `Err` stands for an exception that the source does not catch. */
  datatype Result<T, E> = Ok(value: T) | Err(error: E)
}
