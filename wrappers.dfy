/** Option and Result, used for the values the environment hands back
    (a fetch that may fail) and for the loader's two error conditions. */
module Wrappers {

  datatype Option<+T> = None | Some(value: T)

  datatype Result<+R, +E> = Success(value: R) | Failure(error: E)
}
