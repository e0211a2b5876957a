/**
  Rounding of real numbers.
*/
module Rounding {

  /** The least integer that is not smaller. */
  function Ceil(x: real): (r: int)
    ensures r as real - 1.0 < x <= r as real
  {
    -((-x).Floor)
  }

  /** Rounding to the nearest integer, ties to the even one. */
  function RoundHalfEven(x: real): (r: int)
    ensures -0.5 <= r as real - x <= 0.5
  {
    var f := x.Floor;
    var d := x - f as real;
    if d < 0.5 then f
    else if d > 0.5 then f + 1
    else if f % 2 == 0 then f else f + 1
  }

  /** Halfway between two integers, the even one is taken. */
  lemma TiesToEven(x: real, r: int)
    requires r == RoundHalfEven(x) && (x == r as real + 0.5 || x == r as real - 0.5)
    ensures r % 2 == 0
  {
    assert x.Floor == if x == r as real + 0.5 then r else r - 1;
  }

  /** Rounding to four decimals. */
  function Round4(x: real): (r: real)
    ensures -0.00005 <= r - x <= 0.00005
  {
    RoundHalfEven(x * 10000.0) as real / 10000.0
  }
}
