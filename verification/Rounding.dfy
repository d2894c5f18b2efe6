/** Python's `round` to a number of decimals, on reals: to nearest, ties to even. */
module Rounding {
  function HalfEven(y: real): (n: int)
    ensures -0.5 <= n as real - y <= 0.5
  {
    var f := y.Floor;
    var rest := y - f as real;
    if rest < 0.5 || (rest == 0.5 && f % 2 == 0) then f else f + 1
  }

  function Round3(x: real): (r: real)
    ensures -0.0005 <= r - x <= 0.0005
  {
    HalfEven(x * 1000.0) as real / 1000.0
  }

  function Round4(x: real): (r: real)
    ensures -0.00005 <= r - x <= 0.00005
  {
    HalfEven(x * 10000.0) as real / 10000.0
  }

  function Round6(x: real): (r: real)
    ensures -0.0000005 <= r - x <= 0.0000005
  {
    HalfEven(x * 1000000.0) as real / 1000000.0
  }
}
