/** Fixed-width machine integers and Rust's Result, as the counter program uses them. */
module Primitives {

  /** An unsigned byte (Rust `u8`). */
  newtype u8 = x: int | 0 <= x < 0x100

  /** An unsigned 32-bit integer (Rust `u32`). */
  newtype u32 = x: int | 0 <= x < 0x1_0000_0000

  const U32_MAX: u32 := 0xFFFF_FFFF

  /** Rust's `Result<T, E>`. */
  datatype Result<+T, +E> = Ok(value: T) | Err(error: E)
}
