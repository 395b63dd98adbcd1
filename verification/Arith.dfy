/** Small arithmetic shared by several components. */
module Arith {

  const INT_MAX := 0x7fff_ffff

  function Min(a: int, b: int): int {
    if a < b then a else b
  }

  function Max(a: int, b: int): int {
    if a > b then a else b
  }
}
