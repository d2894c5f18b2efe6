/** Bounds and powers, shared by the other modules. */
module Numbers {
  function MinInt(x: int, y: int): int { if y < x then y else x }
  function MaxInt(x: int, y: int): int { if y > x then y else x }
  function MinReal(x: real, y: real): real { if y < x then y else x }
  function MaxReal(x: real, y: real): real { if y > x then y else x }

  function Pow2(k: nat): (p: nat)
    ensures p >= 1
  {
    if k == 0 then 1 else 2 * Pow2(k - 1)
  }
}
