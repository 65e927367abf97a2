/** Types that every part of the model uses. */
module Basics {
  type byte = x: int | 0 <= x < 256

  /** A file name. */
  type Name = seq<byte>

  datatype Option<+T> = None | Some(value: T)

  datatype Result<+T, +E> = Ok(value: T) | Err(error: E)
}
