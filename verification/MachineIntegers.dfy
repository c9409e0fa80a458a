/** The program's fixed-width integers, with their wrap-around written out, and the smaller of two numbers. */
module MachineIntegers {
  type u8 = x: int | 0 <= x < 0x100
  type u16 = x: int | 0 <= x < 0x1_0000
  type s16 = x: int | -0x8000 <= x < 0x8000

  function Min(a: nat, b: nat): nat {
    if a <= b then a else b
  }

  /** Conversion to a signed 16-bit integer. */
  function ToS16(x: int): (r: s16)
    ensures -0x8000 <= x < 0x8000 ==> r == x
  {
    (x + 0x8000) % 0x1_0000 - 0x8000
  }

  /** Conversion to an unsigned 16-bit integer. */
  function ToU16(x: int): (r: u16)
    ensures 0 <= x < 0x1_0000 ==> r == x
  {
    x % 0x1_0000
  }

  /** Conversion to an unsigned 32-bit integer. */
  function ToU32(x: int): (r: nat)
    ensures 0 <= x < 0x1_0000_0000 ==> r == x
  {
    x % 0x1_0000_0000
  }
}
