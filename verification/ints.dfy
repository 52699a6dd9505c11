/** Fixed-width machine integers of the source, as ranges of `int`, together
    with the explicit conversions Rust's `as` casts perform. */
module Ints {

  const TWO_8: int := 0x100
  const TWO_16: int := 0x1_0000
  const TWO_31: int := 0x8000_0000
  const TWO_32: int := 0x1_0000_0000
  const TWO_64: int := 0x1_0000_0000_0000_0000

  type byte = x: int | 0 <= x < TWO_8
  type u16 = x: int | 0 <= x < TWO_16
  type u32 = x: int | 0 <= x < TWO_32
  type u64 = x: int | 0 <= x < TWO_64
  type i8 = x: int | -0x80 <= x < 0x80
  type i32 = x: int | -TWO_31 <= x < TWO_31

  /** `n as u32` for a wider integer: keeps the low 32 bits. */
  function AsU32(n: int): (r: u32)
    ensures 0 <= n < TWO_32 ==> r == n
    ensures (r - n) % TWO_32 == 0
  {
    n % TWO_32
  }

  /** `n as u8` for a signed or wider value: keeps the low 8 bits. */
  function AsU8(n: int): (r: byte)
    ensures 0 <= n < TWO_8 ==> r == n
    ensures (r - n) % TWO_8 == 0
  {
    n % TWO_8
  }

  /** `n as i8`: the low 8 bits read as a two's-complement number. */
  function AsI8(n: int): (r: i8)
    ensures (r - n) % TWO_8 == 0
    ensures -0x80 <= n < 0x80 ==> r == n
  {
    var low := n % TWO_8;
    if low >= 0x80 then low - TWO_8 else low
  }

  /** `n as i32` for a u32: the same 32 bits read as two's complement. */
  function AsI32(n: u32): (r: i32)
    ensures (r - n) % TWO_32 == 0
    ensures n < TWO_31 ==> r == n
  {
    if n >= TWO_31 then n - TWO_32 else n
  }
}
