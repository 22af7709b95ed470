/** Bytes, and the wrap-around of 64-bit signed arithmetic. */
module Bytes {
  type Byte = b: int | 0 <= b < 256

  const TWO_63 := 0x8000_0000_0000_0000
  const TWO_64 := 0x1_0000_0000_0000_0000
  const MAX_INT64 := TWO_63 - 1

  /** The two's-complement reading of 64 bits. */
  function Signed(u: nat): (x: int) {
    if u >= TWO_63 then u - TWO_64 else u
  }

  /** The int64 result of an operation whose exact result is `x`. */
  function Wrap64(x: int): (y: int) {
    Signed(x % TWO_64)
  }
}
