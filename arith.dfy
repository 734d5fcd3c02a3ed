/** The two integer helpers the scanner uses for its bounds. */
module Arith {

  /** `imax`: the larger of two ints. */
  function IMax(a: int, b: int): (r: int)
    ensures r >= a && r >= b
    ensures r == a || r == b
  {
    if a > b then a else b
  }

  /** `imin`: the smaller of two ints. */
  function IMin(a: int, b: int): (r: int)
    ensures r <= a && r <= b
    ensures r == a || r == b
  {
    if a < b then a else b
  }
}
