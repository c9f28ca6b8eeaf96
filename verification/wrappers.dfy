/** Option and result datatypes shared by the whole model. */
module Wrappers {

  /** A value that may be missing, standing for Python's `None`. */
  datatype Option<+T> = None | Some(value: T)

  /** The outcome of a step that can raise: `Err` stands for an uncaught exception. */
  datatype Result<+T, +E> = Ok(value: T) | Err(error: E)
}
