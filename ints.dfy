/** Fixed-width unsigned integers of the firmware, and the wrap-around of
    its increments. */
module Ints {

  /** `uint8_t` */
  type u8 = x: int | 0 <= x < 0x100

  /** `uint16_t` */
  type u16 = x: int | 0 <= x < 0x1_0000

  /** `x++` on a `uint8_t`: 255 wraps to 0. */
  function Inc8(x: u8): (r: u8)
    ensures x < 0xFF ==> r == x + 1
    ensures x == 0xFF ==> r == 0
  {
    (x + 1) % 0x100
  }

  /** `x++` on a `uint16_t`: 65535 wraps to 0. */
  function Inc16(x: u16): (r: u16)
    ensures x < 0xFFFF ==> r == x + 1
    ensures x == 0xFFFF ==> r == 0
  {
    (x + 1) % 0x1_0000
  }

  /** Assignment of a `uint16_t` to a `uint8_t`: the upper byte is dropped. */
  function Truncate8(x: u16): (r: u8)
    ensures x < 0x100 ==> r == x
    ensures (x - r) % 0x100 == 0
  {
    x % 0x100
  }
}
