/** Python's `round(x, n)` on exact reals: to the nearest multiple of 10^-n, ties to even. */
module Rounding {

  function RoundHalfEven(x: real): int {
    var f := x.Floor;
    var frac := x - f as real;
    if frac < 0.5 then f
    else if frac > 0.5 then f + 1
    else if f % 2 == 0 then f
    else f + 1
  }

  const SCALE_2: real := 100.0
  const SCALE_4: real := 10_000.0
  const SCALE_6: real := 1_000_000.0

  /** `round(x, n)` where `scale` is 10^n. */
  function RoundTo(x: real, scale: real): real
    requires scale > 0.0
  {
    RoundHalfEven(x * scale) as real / scale
  }

  /** The nearest whole number, and of two that are equally near the even one. */
  lemma {:induction false} RoundHalfEvenIff(x: real, n: int)
    ensures RoundHalfEven(x) == n <==>
      -0.5 < x - n as real < 0.5 || ((x - n as real == 0.5 || x - n as real == -0.5) && n % 2 == 0)
  {}

  lemma {:induction false} RoundHalfEvenMonotone(x: real, y: real)
    requires x <= y
    ensures RoundHalfEven(x) <= RoundHalfEven(y)
  {
    assert x.Floor <= y.Floor;
  }

  lemma {:induction false} MulMonotone(x: real, y: real, c: real)
    requires x <= y && c >= 0.0
    ensures x * c <= y * c
  {}

  lemma {:induction false} DivTimes(x: real, c: real)
    requires c != 0.0
    ensures x / c * c == x
  {}

  lemma {:induction false} MulCancel(x: real, y: real, c: real)
    requires c != 0.0 && x * c == y * c
    ensures x == y
  {
    assert (x - y) * c == 0.0;
  }

  lemma {:induction false} DivMonotone(x: real, y: real, c: real)
    requires x <= y && c > 0.0
    ensures x / c <= y / c
  {
    DivTimes(x, c);
    DivTimes(y, c);
  }

  lemma {:induction false} RoundToMonotone(x: real, y: real, scale: real)
    requires scale > 0.0 && x <= y
    ensures RoundTo(x, scale) <= RoundTo(y, scale)
  {
    MulMonotone(x, y, scale);
    RoundHalfEvenMonotone(x * scale, y * scale);
    DivMonotone(RoundHalfEven(x * scale) as real, RoundHalfEven(y * scale) as real, scale);
  }

  /** Whole multiples of the last digit are fixed points. */
  lemma {:induction false} RoundToFixed(x: real, scale: real, m: int)
    requires scale > 0.0 && x * scale == m as real
    ensures RoundTo(x, scale) == x
  {
    assert RoundHalfEven(x * scale) == m;
    DivTimes(RoundHalfEven(x * scale) as real, scale);
    MulCancel(RoundTo(x, scale), x, scale);
  }

  /** The error is at most half of the last digit. */
  lemma {:induction false} RoundToError(x: real, scale: real)
    requires scale > 0.0
    ensures -0.5 <= (RoundTo(x, scale) - x) * scale <= 0.5
  {
    DivTimes(RoundHalfEven(x * scale) as real, scale);
    assert (RoundTo(x, scale) - x) * scale == RoundTo(x, scale) * scale - x * scale;
  }

  /** A rounded value is negative exactly when the value is below minus half of the last digit. */
  lemma {:induction false} RoundToNegative(x: real, scale: real)
    requires scale > 0.0
    ensures RoundTo(x, scale) < 0.0 <==> x * scale < -0.5
  {
    var k := RoundHalfEven(x * scale);
    assert k < 0 <==> x * scale < -0.5;
    if k < 0 {
      DivMonotone(k as real, -1.0, scale);
    } else {
      DivMonotone(0.0, k as real, scale);
    }
  }

  /** Two, four and six places leave errors of at most half a hundredth, half a ten-thousandth and half a millionth. */
  lemma {:induction false} RoundedClose(x: real)
    ensures -0.005 <= RoundTo(x, SCALE_2) - x <= 0.005
    ensures -0.00005 <= RoundTo(x, SCALE_4) - x <= 0.00005
    ensures -0.0000005 <= RoundTo(x, SCALE_6) - x <= 0.0000005
  {
    RoundToError(x, SCALE_2);
    RoundToError(x, SCALE_4);
    RoundToError(x, SCALE_6);
  }
}
