/** Value types shared by the models of the individual packages. */
module Common {

  datatype Option<+T> = None | Some(value: T)

  type Byte = b: int | 0 <= b < 0x100

  type Bytes = seq<Byte>

  const MAX_INT32 := 0x7fff_ffff
  const MIN_INT32 := -0x8000_0000

  predicate InInt32(x: int) {
    MIN_INT32 <= x <= MAX_INT32
  }

  type Int32 = x: int | -0x8000_0000 <= x <= 0x7fff_ffff

  /** Two's complement wrap-around of a sum or difference of two 32-bit values. */
  function Wrap32(x: int): (r: Int32)
    requires -0x1_0000_0000 <= x < 0x1_0000_0000
    ensures InInt32(x) ==> r == x
    ensures r == x || r == x - 0x1_0000_0000 || r == x + 0x1_0000_0000
  {
    if x > MAX_INT32 then x - 0x1_0000_0000
    else if x < MIN_INT32 then x + 0x1_0000_0000
    else x
  }

  function Min(a: int, b: int): (m: int)
    ensures m <= a && m <= b && (m == a || m == b)
  {
    if a < b then a else b
  }

  function Joined(parts: seq<Bytes>): (r: Bytes) {
    if parts == [] then [] else parts[0] + Joined(parts[1..])
  }
}
