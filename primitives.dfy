/** Fixed-width integer types of the Rust source, as subsets of `int`. */
module Primitives {
  const U32_LIMIT: nat := 0x1_0000_0000

  /** Rust `u32`. */
  type u32 = x: int | 0 <= x < U32_LIMIT

  /** Rust `i32`. */
  type i32 = x: int | -0x8000_0000 <= x < 0x8000_0000

  /** Rust `u8`, one byte of a texture buffer. */
  newtype byte = x: int | 0 <= x < 256
}
