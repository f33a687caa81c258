/** Small shared vocabulary: optional values, machine-integer ranges and bytes. */
module Basics {

  datatype Option<+T> = None | Some(value: T)

  /** 2^16 and 2^32: the C code's u16 and u32 arithmetic is written as `%` these. */
  const TWO_16: nat := 0x1_0000
  const TWO_32: nat := 0x1_0000_0000

  /** The range of C's `int`. */
  const INT_MAX: int := 0x7FFF_FFFF

  predicate IsInt(x: int) { -INT_MAX - 1 <= x <= INT_MAX }

  type byte = x: int | 0 <= x < 256

  type Word = x: int | 0 <= x < TWO_32

  /** An RGB565 pixel. */
  type Pixel = x: int | 0 <= x < TWO_16

  function Min(a: int, b: int): (m: int)
    ensures m <= a && m <= b && (m == a || m == b)
  {
    if a <= b then a else b
  }

  function Max(a: int, b: int): (m: int)
    ensures a <= m && b <= m && (m == a || m == b)
  {
    if a <= b then b else a
  }

  function Abs(x: int): (r: nat)
    ensures r == x || r == -x
  {
    if x < 0 then -x else x
  }
}
