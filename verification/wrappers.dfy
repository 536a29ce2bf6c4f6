/** Python's `Optional` and the outcome of a request handler, shared by the registry model. */
module Wrappers {

  /** Python's `Optional[...]`: either `None` or a present value. */
  datatype Option<+T> = None | Some(value: T)

  /** What a handler hands back: the value it returns, or the error it raises. */
  datatype Result<+R, +E> = Success(value: R) | Failure(error: E)
}
