/** Failure-carrying datatypes shared by the parsers. */
module Wrappers {

  /** A value that may be absent. */
  datatype Option<+T> = None | Some(value: T)

  /** Either a successfully built value or the reason it could not be built. */
  datatype Result<+R, +E> = Success(value: R) | Failure(error: E)
}
