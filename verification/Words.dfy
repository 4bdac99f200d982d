/** The machine integers the sources use, as subset types of `int`: storing a value outside the
    range is a verification error, so every conversion and every subtraction below is checked. */
module Words {
  type Byte = x: int | 0 <= x < 0x100
  type U16 = x: int | 0 <= x < 0x1_0000
  type U32 = x: int | 0 <= x < 0x1_0000_0000
  type U64 = x: int | 0 <= x < 0x1_0000_0000_0000_0000

  const U16_MAX: U16 := 0xFFFF
  const U64_MAX: U64 := 0xFFFF_FFFF_FFFF_FFFF

  datatype Option<+T> = None | Some(value: T)

  datatype Result<+T, +E> = Ok(value: T) | Err(error: E)

  function Min(a: int, b: int): int {
    if a <= b then a else b
  }

  function Max(a: int, b: int): int {
    if a <= b then b else a
  }

  /** `u16::saturating_add`. */
  function SatAdd(a: U16, b: U16): (r: U16)
    ensures r == Min(a + b, U16_MAX)
  {
    if a + b > U16_MAX then U16_MAX else a + b
  }

  /** `u16::saturating_sub`. */
  function SatSub(a: U16, b: U16): (r: U16)
    ensures r == Max(a - b, 0)
  {
    if a < b then 0 else a - b
  }
}
