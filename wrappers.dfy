/** Option and Result, the two failure-carrying shapes the model uses for Swift's
    optionals and thrown errors. */
module Wrappers {

  datatype Option<+T> = None | Some(value: T)

  datatype Result<+T, +E> = Success(value: T) | Failure(error: E)
}
