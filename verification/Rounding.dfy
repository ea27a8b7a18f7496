/** Rounding to the nearest integer, ties to even (roundTiesToEven, section 4.3.1 of
  * IEEE 754-2019), over the reals.
  */
module Rounding {

  function Round(x: real): int {
    var floor := x.Floor;
    var part := x - floor as real;
    if part < 0.5 then floor
    else if part > 0.5 then floor + 1
    else if floor % 2 == 0 then floor
    else floor + 1
  }

  function Abs(x: real): real {
    if x < 0.0 then -x else x
  }

  /** `n` is nearest to `x`, and even if another integer is as near. */
  predicate NearestEven(x: real, n: int) {
    Abs(n as real - x) < 0.5 || (Abs(n as real - x) == 0.5 && n % 2 == 0)
  }

  /** The rounding is the one integer the standard's rule allows. */
  lemma RoundIsNearestEven(x: real, n: int)
    ensures NearestEven(x, n) <==> n == Round(x)
    ensures Abs(Round(x) as real - x) <= 0.5
  {
  }

  /** No integer is nearer. */
  lemma RoundIsOptimal(x: real, n: int)
    ensures Abs(Round(x) as real - x) <= Abs(n as real - x)
  {
    RoundIsNearestEven(x, n);
  }

  lemma RoundOfInteger(n: int)
    ensures Round(n as real) == n
  {
    RoundIsNearestEven(n as real, n);
  }

  lemma RoundIsMonotone(x: real, y: real)
    requires x <= y
    ensures Round(x) <= Round(y)
  {
  }

  /** Ties to even treats both signs alike. */
  lemma RoundIsOdd(x: real)
    ensures Round(-x) == -Round(x)
  {
    RoundIsNearestEven(x, Round(x));
    RoundIsNearestEven(-x, -Round(x));
  }

  function Clamp(n: int, lo: int, hi: int): int {
    if n < lo then lo else if n > hi then hi else n
  }
}
