/** Per-row symmetric int8 quantise-then-widen, over the reals. */
module Int8RoundTrip {
  import opened Arithmetic
  import opened Rounding
  import opened Common

  /** The largest magnitude in a row. */
  function AbsMax(row: seq<real>): (m: real)
    requires row != []
    ensures m >= 0.0
  {
    if |row| == 1 then Abs(row[0])
    else if AbsMax(Front(row)) > Abs(Last(row)) then AbsMax(Front(row)) else Abs(Last(row))
  }

  function ScaleOf(amax: real): (s: real)
    requires amax >= 0.0
    ensures s > 0.0
  {
    if amax / 127.0 > 0.0 then amax / 127.0 else 1.0
  }

  function Scale(row: seq<real>): real
    requires row != []
  {
    ScaleOf(AbsMax(row))
  }

  function Quantise(x: real, scale: real): int
    requires scale > 0.0
  {
    Clamp(Round(x / scale), -127, 127)
  }

  /** The value `n` steps of `scale` stand for. */
  function Widen(n: int, scale: real): real {
    n as real * scale
  }

  /** One element, there and back. */
  function Restore(x: real, scale: real): real
    requires scale > 0.0
  {
    Widen(Quantise(x, scale), scale)
  }

  function RoundTrip(row: seq<real>): seq<real>
    requires row != []
  {
    var scale := Scale(row);
    seq(|row|, i requires 0 <= i < |row| => Restore(row[i], scale))
  }

  lemma {:induction false} AbsMaxBounds(row: seq<real>, i: nat)
    requires i < |row|
    ensures Abs(row[i]) <= AbsMax(row)
  {
    if |row| > 1 && i < |row| - 1 {
      AbsMaxBounds(Front(row), i);
    }
  }

  lemma {:induction false} AbsMaxIsAttained(row: seq<real>) returns (i: nat)
    requires row != []
    ensures i < |row| && Abs(row[i]) == AbsMax(row)
  {
    if |row| == 1 || AbsMax(Front(row)) <= Abs(Last(row)) {
      i := |row| - 1;
    } else {
      i := AbsMaxIsAttained(Front(row));
    }
  }

  lemma AbsMaxIs(row: seq<real>, m: real, i: nat)
    requires i < |row| && Abs(row[i]) == m && forall j :: 0 <= j < |row| ==> Abs(row[j]) <= m
    ensures AbsMax(row) == m
  {
    AbsMaxBounds(row, i);
    var j := AbsMaxIsAttained(row);
  }

  // ---------------------------------------------------------------------
  // One element
  // ---------------------------------------------------------------------

  lemma ScaleCoversRange(amax: real)
    requires amax >= 0.0
    ensures amax <= 127.0 * ScaleOf(amax)
    ensures amax > 0.0 ==> amax == 127.0 * ScaleOf(amax)
  {
  }

  lemma QuotientBounds(x: real, scale: real, q: real)
    requires scale > 0.0 && Abs(x) <= 127.0 * scale && q == x / scale
    ensures -127.0 <= q <= 127.0 && q * scale == x
  {
    assert q * scale == x;
    if q > 127.0 {
      ProductOrder(127.0, q, scale);
    }
    if q < -127.0 {
      ProductOrder(q, -127.0, scale);
    }
  }

  lemma ProductOrder(x: real, y: real, c: real)
    requires x < y && c > 0.0
    ensures x * c < y * c
  {
    assert (y - x) * c > 0.0;
  }

  /** In range, the rounded quotient never reaches past the clamp. */
  lemma ClampIsIdle(x: real, scale: real)
    requires scale > 0.0 && Abs(x) <= 127.0 * scale
    ensures -127 <= Round(x / scale) <= 127 && Quantise(x, scale) == Round(x / scale)
  {
    var q := x / scale;
    QuotientBounds(x, scale, q);
    RoundIsMonotone(q, 127.0);
    RoundIsMonotone(-127.0, q);
    RoundOfInteger(127);
    RoundOfInteger(-127);
    assert 127 as real == 127.0 && -127 as real == -127.0;
  }

  lemma AbsScales(x: real, c: real)
    requires c > 0.0
    ensures Abs(x * c) == Abs(x) * c
  {
    if x >= 0.0 {
      assert x * c >= 0.0;
    } else {
      ProductOrder(x, 0.0, c);
      assert (-x) * c == -(x * c);
    }
  }

  lemma ProductOrderWeak(x: real, y: real, c: real)
    requires x <= y && c > 0.0
    ensures x * c <= y * c
  {
    if x < y {
      ProductOrder(x, y, c);
    }
  }

  /** The widened value is a nearest multiple of the scale: within half a step, and no
    * other multiple is nearer. */
  lemma ElementIsNearestStep(x: real, scale: real, k: int)
    requires scale > 0.0 && Abs(x) <= 127.0 * scale
    ensures Abs(Restore(x, scale) - x) <= 0.5 * scale
    ensures Abs(Restore(x, scale) - x) <= Abs(Widen(k, scale) - x)
  {
    var q := x / scale;
    ClampIsIdle(x, scale);
    QuotientBounds(x, scale, q);
    NearestStep(x, scale, q, k);
  }

  lemma NearestStep(x: real, scale: real, q: real, k: int)
    requires scale > 0.0 && q * scale == x
    ensures Abs(Widen(Round(q), scale) - x) <= 0.5 * scale
    ensures Abs(Widen(Round(q), scale) - x) <= Abs(Widen(k, scale) - x)
  {
    RoundIsNearestEven(q, Round(q));
    RoundIsOptimal(q, k);
    NearerSteps(x, scale, q, Round(q), k);
  }

  lemma NearerSteps(x: real, scale: real, q: real, n: int, k: int)
    requires scale > 0.0 && q * scale == x
    requires Abs(n as real - q) <= 0.5 && Abs(n as real - q) <= Abs(k as real - q)
    ensures Abs(Widen(n, scale) - x) <= 0.5 * scale
    ensures Abs(Widen(n, scale) - x) <= Abs(Widen(k, scale) - x)
  {
    StepDistance(x, scale, q, n);
    StepDistance(x, scale, q, k);
    ProductOrderWeak(Abs(n as real - q), 0.5, scale);
    ProductOrderWeak(Abs(n as real - q), Abs(k as real - q), scale);
  }

  lemma StepDistance(x: real, scale: real, q: real, n: int)
    requires scale > 0.0 && q * scale == x
    ensures Abs(Widen(n, scale) - x) == Abs(n as real - q) * scale
  {
    ProductDifference(n as real, q, scale, Widen(n, scale), x);
    AbsScales(n as real - q, scale);
  }

  // ---------------------------------------------------------------------
  // A row
  // ---------------------------------------------------------------------

  lemma RowIsInRange(row: seq<real>, i: nat)
    requires i < |row|
    ensures Scale(row) > 0.0 && Abs(row[i]) <= 127.0 * Scale(row)
  {
    AbsMaxBounds(row, i);
    ScaleCoversRange(AbsMax(row));
  }

  /** Every element comes back within half a step of its row, amax / 254 on a row that
    * is not all zero; the clamp never fires. */
  lemma RowErrorIsHalfAStep(row: seq<real>, i: nat)
    requires i < |row|
    ensures Quantise(row[i], Scale(row)) == Round(row[i] / Scale(row))
    ensures Abs(RoundTrip(row)[i] - row[i]) <= 0.5 * Scale(row)
    ensures AbsMax(row) > 0.0 ==> Abs(RoundTrip(row)[i] - row[i]) <= AbsMax(row) / 254.0
  {
    RowIsInRange(row, i);
    ClampIsIdle(row[i], Scale(row));
    ElementIsNearestStep(row[i], Scale(row), 0);
    ScaleCoversRange(AbsMax(row));
  }

  lemma ZeroQuantises(scale: real)
    requires scale > 0.0
    ensures Quantise(0.0, scale) == 0
  {
    RoundOfInteger(0);
    assert 0 as real == 0.0;
  }

  /** A zero row stays zero: its scale is one, not a division by zero. */
  lemma ZeroRowStaysZero(row: seq<real>)
    requires row != [] && forall i :: 0 <= i < |row| ==> row[i] == 0.0
    ensures Scale(row) == 1.0 && RoundTrip(row) == row
  {
    AbsMaxIs(row, 0.0, 0);
    ZeroQuantises(1.0);
  }

  /** The row's largest magnitude survives exactly. */
  lemma MaximumSurvives(row: seq<real>, i: nat)
    requires i < |row| && Abs(row[i]) == AbsMax(row) > 0.0
    ensures RoundTrip(row)[i] == row[i]
  {
    var scale := Scale(row);
    ScaleCoversRange(AbsMax(row));
    RowIsInRange(row, i);
    ClampIsIdle(row[i], scale);
    var n := if row[i] > 0.0 then 127 else -127;
    assert row[i] == Widen(n, scale);
    MultipleQuantises(n, scale);
  }

  /** A multiple of the scale quantises to its multiplier. */
  lemma MultipleQuantises(n: int, scale: real)
    requires scale > 0.0 && -127 <= n <= 127
    ensures Quantise(Widen(n, scale), scale) == n
  {
    var q := Widen(n, scale) / scale;
    QuotientOfProduct(n as real, scale, q);
    RoundOfInteger(n);
  }

  lemma QuotientOfProduct(n: real, scale: real, q: real)
    requires scale != 0.0 && q == n * scale / scale
    ensures q == n
  {
  }

  lemma ScaledBound(x: real, bound: real, c: real)
    requires Abs(x) <= bound && c > 0.0
    ensures Abs(x * c) <= bound * c
  {
    AbsScales(x, c);
    ProductOrderWeak(Abs(x), bound, c);
  }

  lemma WidenIsBounded(n: int, scale: real)
    requires scale > 0.0 && -127 <= n <= 127
    ensures Abs(Widen(n, scale)) <= 127.0 * scale
  {
    ScaledBound(n as real, 127.0, scale);
  }

  lemma RoundTripKeepsAbsMax(row: seq<real>)
    requires row != []
    ensures AbsMax(RoundTrip(row)) == AbsMax(row)
  {
    var scale, out := Scale(row), RoundTrip(row);
    if AbsMax(row) == 0.0 {
      forall i | 0 <= i < |row| ensures row[i] == 0.0 {
        AbsMaxBounds(row, i);
      }
      ZeroRowStaysZero(row);
    } else {
      var top := AbsMaxIsAttained(row);
      MaximumSurvives(row, top);
      ScaleCoversRange(AbsMax(row));
      forall j | 0 <= j < |out| ensures Abs(out[j]) <= AbsMax(row) {
        var n := Quantise(row[j], scale);
        WidenIsBounded(n, scale);
      }
      AbsMaxIs(out, AbsMax(row), top);
    }
  }

  /** What has been round-tripped once comes back unchanged. */
  lemma RoundTripIsIdempotent(row: seq<real>)
    requires row != []
    ensures RoundTrip(RoundTrip(row)) == RoundTrip(row)
  {
    var scale, out := Scale(row), RoundTrip(row);
    RoundTripKeepsAbsMax(row);
    forall i | 0 <= i < |row| ensures Quantise(out[i], scale) == Quantise(row[i], scale) {
      MultipleQuantises(Quantise(row[i], scale), scale);
    }
  }

  /** Larger inputs of one row never come back smaller. */
  lemma RoundTripIsMonotone(row: seq<real>, i: nat, j: nat)
    requires i < |row| && j < |row| && row[i] <= row[j]
    ensures RoundTrip(row)[i] <= RoundTrip(row)[j]
  {
    var scale := Scale(row);
    QuotientOrder(row[i], row[j], scale);
    RoundIsMonotone(row[i] / scale, row[j] / scale);
    WidenIsMonotone(Quantise(row[i], scale), Quantise(row[j], scale), scale);
  }

  lemma WidenIsMonotone(n: int, k: int, scale: real)
    requires n <= k && scale > 0.0
    ensures Widen(n, scale) <= Widen(k, scale)
  {
    ProductOrderWeak(n as real, k as real, scale);
  }

  lemma QuotientOrder(x: real, y: real, c: real)
    requires x <= y && c > 0.0
    ensures x / c <= y / c
  {
    var p, q := x / c, y / c;
    assert p * c == x && q * c == y;
    if p > q {
      ProductOrder(q, p, c);
    }
  }
}
