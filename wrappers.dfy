/** Small failure-carrying datatypes shared by the rest of the model. */
module Wrappers {

  /** Python's `None` or a present value. */
  datatype Option<+T> = None | Some(value: T)

  /** The outcome of a client operation: a returned value, or an exception
      that the operation lets escape to its caller. */
  datatype Result<+T, +E> = Ok(value: T) | Raised(error: E)
}
