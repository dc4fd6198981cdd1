/** What every module shares: an optional value, a value or a refusal, and a byte. */
module Wrappers {
  datatype Option<+T> = None | Some(value: T)

  datatype Result<+T, +E> = Ok(value: T) | Err(error: E)

  type Byte = x: int | 0 <= x < 256 witness 0
}
