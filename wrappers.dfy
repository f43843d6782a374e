/** Optional values and error-carrying results, shared by every module. */
module Wrappers {

  /** A value that may be absent: Python's `None` or a nullable database column. */
  datatype Option<+T> = None | Some(value: T)

  /** The outcome of an operation that the source ends with an error response or an exception. */
  datatype Result<+T, +E> = Ok(value: T) | Err(error: E)

  /** Python truthiness of an optional number: `None` and `0` are both falsy. */
  predicate TruthyInt(x: Option<int>)
  {
    x.Some? && x.value != 0
  }
}
