/** The machine integers the firmware computes with, as ranges of `int` with the
    C conversions written out. */
module Bytes {

  type byte = x: int | 0 <= x < 0x100
  type uint16 = x: int | 0 <= x < 0x1_0000
  type uint32 = x: int | 0 <= x < 0x1_0000_0000
  type int16 = x: int | -0x8000 <= x < 0x8000

  function ToU8(x: int): byte { x % 0x100 }

  function ToU16(x: int): uint16 { x % 0x1_0000 }

  function ToU32(x: int): uint32 { x % 0x1_0000_0000 }

  /** Conversion to a signed 16-bit integer. */
  function ToI16(x: int): (r: int16)
    ensures -0x8000 <= x < 0x8000 ==> r == x
  {
    (x + 0x8000) % 0x1_0000 - 0x8000
  }

  function Min(a: int, b: int): int { if a <= b then a else b }

  function Max(a: int, b: int): int { if a <= b then b else a }

  function Abs(a: int): int { if a > 0 then a else -a }
}
