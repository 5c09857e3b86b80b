/** Failure-compatible wrappers: `std::optional` and an exception-or-value result. */
module Wrappers {

  /** `std::optional<T>`: empty (`nullopt`) or holding a value. */
  datatype Option<+T> = None | Some(value: T)

  /** A value, or the exception the C++ code would have thrown instead. */
  datatype Result<+R, +E> = Success(value: R) | Failure(error: E)
}
