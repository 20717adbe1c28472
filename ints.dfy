/** Machine integer widths used by the firmware, as bounded subsets of `int`. */
module Ints {
  const U128_MODULUS: int := 0x1_0000_0000_0000_0000_0000_0000_0000_0000

  newtype u8 = x: int | 0 <= x < 0x100
  newtype u16 = x: int | 0 <= x < 0x1_0000
  newtype u128 = x: int | 0 <= x < 0x1_0000_0000_0000_0000_0000_0000_0000_0000

  /** `a - b` on `u128` with two's-complement wrap-around (a release build; a debug build panics). */
  function WrappingSub(a: u128, b: u128): (r: u128)
    ensures b <= a ==> r as int == a as int - b as int
    ensures a < b ==> r as int == U128_MODULUS + a as int - b as int
  {
    ((a as int - b as int) % U128_MODULUS) as u128
  }
}
