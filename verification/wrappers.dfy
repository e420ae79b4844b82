/** Failure-carrying result types shared by the other modules. */
module Wrappers {

  /** A value that may be absent; `None` also stands for JavaScript's NaN from parseInt. */
  datatype Option<+T> = None | Some(value: T)

  /** Either a value or the reason none could be produced. */
  datatype Result<+R, +E> = Success(value: R) | Failure(error: E)
}
