/** Option and result types used to model the exceptions the source raises. */
module Wrappers {

  /** An optional value, used where the source returns `None` or raises on a missing entry. */
  datatype Option<+T> = None | Some(value: T)

  /** Either a value or the error the source would raise instead of returning. */
  datatype Result<+R, +E> = Success(value: R) | Failure(error: E)
}
