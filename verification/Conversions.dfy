/** Numeric conversions as Go makes them. */
module Conversions {
  /** The integer part, toward zero. */
  function Truncated(x: real): (n: int)
    ensures 0.0 <= x ==> n as real <= x < n as real + 1.0
    ensures x <= 0.0 ==> n as real - 1.0 < x <= n as real
  {
    if x < 0.0 then -((-x).Floor) else x.Floor
  }
}
