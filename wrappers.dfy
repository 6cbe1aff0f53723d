/** Option and Result, the failure-carrying values the decoder returns in
    place of the C code's `false` returns and `exit(1)` and the C++ code's
    exceptions. */
module Wrappers {

  datatype Option<T> = None | Some(value: T)

  datatype Result<T, E> = Success(value: T) | Failure(error: E)
}
