/** Minimum and power. */
module Arithmetic {

  function Min(a: int, b: int): int {
    if a < b then a else b
  }

  function Pow(base: nat, k: nat): nat {
    if k == 0 then 1 else base * Pow(base, k - 1)
  }
}
