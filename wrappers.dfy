/** Option and Result, the two failure-carrying shapes the model uses for
    JavaScript's `undefined` results and for thrown errors. */
module Wrappers {

  datatype Option<+T> = None | Some(value: T)

  datatype Result<+R, +E> = Success(value: R) | Failure(error: E)
}
