/** Fixed-width integers with the wrap-around of the host language. */
module MachineInt {
  const TWO_31: int := 0x8000_0000
  const TWO_32: int := 0x1_0000_0000
  const TWO_63: int := 0x8000_0000_0000_0000
  const TWO_64: int := 0x1_0000_0000_0000_0000

  type int32 = x: int | -TWO_31 <= x < TWO_31
  type uint32 = x: int | 0 <= x < TWO_32
  type uint64 = x: int | 0 <= x < TWO_64
  type int64 = x: int | -TWO_63 <= x < TWO_63

  function Wrap32(x: int): uint32 {
    x % TWO_32
  }

  function Wrap64(x: int): (r: uint64)
    ensures 0 <= x < TWO_64 ==> r == x
  {
    x % TWO_64
  }

  function ToInt64(x: uint64): int64 {
    if x < TWO_63 then x else x - TWO_64
  }
}
