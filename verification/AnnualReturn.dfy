/** The annualisation in engine/calculators/twr_calculator.py: `cumulative ** (365 / elapsed_days)`. */
module AnnualReturn {
  import opened Products
  import opened Wrappers

  const DAYS_PER_YEAR: nat := 365

  /** A negative base under a broken exponent is a complex number, which `round` refuses. */
  datatype PowerError = ComplexPower

  /** `h(x, d)` stands for the power of x >= 0 with the exponent 365 / d. */
  ghost predicate IsYearlyPower(h: (real, nat) -> real) {
    forall x: real, d: nat :: x >= 0.0 && d > 0 ==> h(x, d) >= 0.0 && Pow(h(x, d), d) == Pow(x, DAYS_PER_YEAR)
  }

  function YearlyFactor(h: (real, nat) -> real, growth: real, days: nat): Result<real, PowerError>
    requires days > 0
  {
    if growth >= 0.0 then Success(h(growth, days))
    else if DAYS_PER_YEAR % days == 0 then Success(Pow(growth, DAYS_PER_YEAR / days))
    else Failure(ComplexPower)
  }

  lemma {:induction false} PowOfPow(x: real, a: nat, b: nat)
    ensures Pow(Pow(x, a), b) == Pow(x, a * b)
  {
    if b > 0 {
      PowOfPow(x, a, b - 1);
      PowAdd(x, a, a * (b - 1));
      assert a + a * (b - 1) == a * b;
    }
  }

  lemma {:induction false} PowOfZero(n: nat)
    requires n > 0
    ensures Pow(0.0, n) == 0.0
  {}

  /** Powers of numbers that are not negative are in the order of the numbers. */
  lemma {:induction false} PowOrder(x: real, y: real, n: nat)
    requires x >= 0.0 && y >= 0.0 && n > 0
    ensures x < y <==> Pow(x, n) < Pow(y, n)
    ensures x == y <==> Pow(x, n) == Pow(y, n)
  {
    PowOfZero(n);
    if 0.0 < x < y {
      PowMonotone(x, y, n);
    } else if 0.0 < y < x {
      PowMonotone(y, x, n);
    }
  }

  /** The yearly factor, compounded over the elapsed days, is the growth compounded over a year; it exists unless
      the growth is negative and the elapsed days do not divide a year. */
  lemma {:induction false} YearlyFactorMeaning(h: (real, nat) -> real, growth: real, days: nat)
    requires IsYearlyPower(h) && days > 0
    ensures YearlyFactor(h, growth, days).Failure? <==> growth < 0.0 && 365 % days != 0
    ensures YearlyFactor(h, growth, days).Success? && growth >= 0.0 ==> YearlyFactor(h, growth, days).value >= 0.0
    ensures YearlyFactor(h, growth, days).Success? ==>
      Pow(YearlyFactor(h, growth, days).value, days) == Pow(growth, 365)
  {
    if growth < 0.0 && DAYS_PER_YEAR % days == 0 {
      PowOfPow(growth, DAYS_PER_YEAR / days, days);
      assert DAYS_PER_YEAR / days * days == DAYS_PER_YEAR;
    }
  }

  /** Over exactly a year it is the growth itself. */
  lemma {:induction false} OneYearIsItself(h: (real, nat) -> real, growth: real)
    requires IsYearlyPower(h)
    ensures YearlyFactor(h, growth, 365) == Success(growth)
  {
    if growth >= 0.0 {
      PowOrder(h(growth, DAYS_PER_YEAR), growth, DAYS_PER_YEAR);
    } else {
      TimesOne(growth);
      assert Pow(growth, 1) == Times(growth, Pow(growth, 0));
    }
  }

  /** More growth over the same days is a higher yearly factor, and a gain stays a gain. */
  lemma {:induction false} YearlyFactorOrder(h: (real, nat) -> real, a: real, b: real, days: nat)
    requires IsYearlyPower(h) && days > 0 && a >= 0.0 && b >= 0.0
    ensures YearlyFactor(h, a, days).value < YearlyFactor(h, b, days).value <==> a < b
    ensures YearlyFactor(h, a, days).value > 1.0 <==> a > 1.0
  {
    PowOrder(a, b, DAYS_PER_YEAR);
    PowOrder(h(a, days), h(b, days), days);
    PowOfOne(days);
    PowOfOne(DAYS_PER_YEAR);
    PowOrder(1.0, a, DAYS_PER_YEAR);
    PowOrder(1.0, h(a, days), days);
  }

  lemma {:induction false} PowOfOne(n: nat)
    ensures Pow(1.0, n) == 1.0
  {
    if n > 0 {
      PowOfOne(n - 1);
    }
  }
}
