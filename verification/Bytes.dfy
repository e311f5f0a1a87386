/** Octets, and the constants of the machine that the code relies on. */
module Bytes {
  type Byte = x: int | 0 <= x < 256

  /** The terminator of C strings. */
  const NUL: char := 0 as char

  /** One more than the largest 32-bit unsigned integer. */
  const UNSIGNED_LIMIT: nat := 0x1_0000_0000
}
