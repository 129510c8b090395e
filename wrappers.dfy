/** Result, used for the input adapter's structural errors. */
module Wrappers {
  datatype Result<+T, +E> = Ok(value: T) | Err(error: E)
}
