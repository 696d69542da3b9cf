/** Option and Result, the two failure-carrying types the generated code and the
    macro itself return. */
module Wrappers {

  datatype Option<+T> = None | Some(value: T)

  datatype Result<+R, +E> = Success(value: R) | Failure(error: E)
}
