/** The two sum types the rest of the model returns: Python's
    `None`-or-value and the value-or-`HTTPException` shape of the endpoints. */
module Wrappers {

  /** A value that may be absent (Python's `Optional[T]`). */
  datatype Option<+T> = None | Some(value: T)

  /** Either a computed value or the error that was raised instead. */
  datatype Result<+R, +E> = Success(value: R) | Failure(error: E)
}
