// Optional values and results shared by every module of the model.
module Wrappers {

  datatype Option<T> = None | Some(value: T)

  /** The outcome of an operation that the program can abort by raising. */
  datatype Result<T, E> = Success(value: T) | Failure(error: E)

}
