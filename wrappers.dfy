/** Option and Result, shared by the whole model. */
module Wrappers {

  datatype Option<+T> = None | Some(value: T)

  /** The outcome of a step that may raise an exception the script does not catch. */
  datatype Result<+R, +E> = Success(value: R) | Failure(error: E)
}
