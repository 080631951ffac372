/** Machine-word types, bytes and the optional value shared by every component. */
module Basics {

  /** An optional value, as `std::optional` in the C++ stack. */
  datatype Option<+T> = None | Some(value: T)

  /** One octet of a payload. */
  type byte = x: int | 0 <= x < 0x100

  /** Unsigned machine words, modelled as bounded mathematical integers. */
  type u16 = x: int | 0 <= x < 0x1_0000
  type u32 = x: int | 0 <= x < 0x1_0000_0000
  type u64 = x: int | 0 <= x < 0x1_0000_0000_0000_0000

  const UINT16_MAX: u16 := 0xFFFF
  const TWO_TO_64: int := 0x1_0000_0000_0000_0000

  function Min(a: int, b: int): (m: int)
    ensures m <= a && m <= b
    ensures m == a || m == b
  {
    if a <= b then a else b
  }
}
