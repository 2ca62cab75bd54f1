/** Option and Result datatypes used throughout the model. */
module Wrappers {

  /** Python's `None` or a present value. */
  datatype Option<T> = None | Some(value: T)

  /** Either the value an operation returns or the exception it raises. */
  datatype Result<T, E> = Success(value: T) | Failure(error: E)
}
