/** Small value wrappers shared by the modules of this project. */
module Wrappers {

  /** An optional value: Rust's `Option`, or Python's "value or None". */
  datatype Option<+T> = None | Some(value: T)

  /** A value or an error: Rust's `Result`, or a Python call that returns or raises. */
  datatype Result<+T, +E> = Ok(value: T) | Err(error: E)

  /** Unsigned bytes, as carried in packets and `bytes` objects. */
  newtype byte = x: int | 0 <= x < 256
}
