/** Fixed-width integers of the C source and the failure wrappers that
    replace its null returns. */
module Common {

  /** A C `uint8_t`. */
  type u8 = x: int | 0 <= x < 0x100
  /** A C `uint32_t`. */
  type u32 = x: int | 0 <= x < 0x1_0000_0000
  /** A C `int32_t`. */
  type i32 = x: int | -0x8000_0000 <= x < 0x8000_0000
  /** A C `uint64_t`. */
  type u64 = x: int | 0 <= x < 0x1_0000_0000_0000_0000

  const TWO_32: int := 0x1_0000_0000

  predicate IsI32(x: int) { -0x8000_0000 <= x < 0x8000_0000 }

  /** Conversion of a 32-bit word to `int32_t` (two's complement, as every
      target compiler does it). */
  function U32ToI32(w: u32): (r: i32)
    ensures r % TWO_32 == w
  {
    if w < 0x8000_0000 then w else w - TWO_32
  }

  /** Conversion of an `int32_t` to `uint32_t` (reduction modulo 2^32). */
  function I32ToU32(x: i32): (r: u32)
    ensures U32ToI32(r) == x
  {
    x % TWO_32
  }

  datatype Option<T> = None | Some(value: T)
}
