/** Option and Result, the two failure-carrying shapes the model needs. */
module Wrappers {

  datatype Option<+T> = None | Some(value: T)

  /** The outcome of a computation that JavaScript would abort with a thrown error. */
  datatype Result<+T> = Success(value: T) | Failure(error: string)
}
