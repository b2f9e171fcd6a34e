/** Shared result types and machine-integer bounds. */
module Wrappers {
  datatype Option<+T> = None | Some(value: T)

  datatype Result<+T> = Ok(value: T) | Err(message: string)

  /** One past the largest 64-bit unsigned value. */
  const U64: nat := 0x1_0000_0000_0000_0000
}
