/** Option and Result, the two failure-carrying shapes the model needs:
    Rust's `Option<T>` and the crate's `GGRResult<T>`. */
module Wrappers {

  datatype Option<+T> = None | Some(value: T)

  datatype Result<+R, +E> = Success(value: R) | Failure(error: E)
}
