/** Optional values and fallible results, used where the source returns null or throws. */
module Wrappers {

  /** A value that may be absent (a C# `null` or `int?` without a value). */
  datatype Option<+T> = None | Some(value: T)

  /** The outcome of an operation that may fail with an error of type E. */
  datatype Result<+T, +E> = Ok(value: T) | Err(error: E)
}
