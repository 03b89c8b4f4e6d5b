/** Python's float-to-int truncation and float modulo by one. */
module PyNum {

  /** `int(r)` on a float: truncation toward zero. */
  function Trunc(r: real): (i: int)
    ensures r >= 0.0 ==> i >= 0 && i as real <= r < i as real + 1.0
    ensures r < 0.0 ==> i <= 0 && i as real - 1.0 < r <= i as real
  {
    if r >= 0.0 then r.Floor else -((-r).Floor)
  }

  /** `r % 1` on a float: the result takes the sign of the divisor, so it lies in [0, 1). */
  function Mod1(r: real): (f: real)
    ensures 0.0 <= f < 1.0
    ensures (r - f).Floor as real == r - f
    ensures r >= 0.0 ==> f == r - Trunc(r) as real
  {
    r - r.Floor as real
  }
}
