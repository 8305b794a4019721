/** The fixed-width unsigned integer types of the AVR C source and the
    conversion that C applies when an `int` result is stored in a `uint16_t`. */
module CTypes {
  type uint8 = x: int | 0 <= x < 0x100
  type uint16 = x: int | 0 <= x < 0x1_0000

  /** Storing an arithmetic result into a `uint16_t`: reduction modulo 2^16. */
  function Wrap16(x: int): (r: uint16)
    ensures 0 <= x < 0x1_0000 ==> r == x
    ensures (x - r) % 0x1_0000 == 0
  {
    x % 0x1_0000
  }
}
