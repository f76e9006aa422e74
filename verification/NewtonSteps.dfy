/** The slope that `_npv_derivative` computes is the slope of the net present value, and what follows for
    Newton's method on an ordinary investment. */
module NewtonSteps {
  import opened Npv
  import opened Products
  import opened Rounding
  import opened Sequences
  import opened Xirr

  // ---------- an inequality of powers ----------

  /** 1 + u + ... + u^(n-1) */
  function Geometric(u: real, n: nat): real {
    if n == 0 then 0.0 else Geometric(u, n - 1) + Pow(u, n - 1)
  }

  lemma {:induction false} TimesSuccessor(m: real, p: real)
    ensures Times(m + 1.0, p) == Times(m, p) + p
  {}

  lemma {:induction false} TimesDifference(x: real, y: real, z: real)
    ensures Times(x - y, z) == Times(x, z) - Times(y, z)
  {}

  lemma {:induction false} TimesZero(x: real, y: real)
    requires y == 0.0
    ensures Times(x, y) == 0.0
  {}

  lemma {:induction false} TimesNegatives(x: real, y: real)
    requires x < 0.0 && y < 0.0
    ensures Times(x, y) > 0.0
  {}

  lemma {:induction false} GeometricSum(u: real, n: nat)
    ensures Times(u - 1.0, Geometric(u, n)) == Pow(u, n) - 1.0
  {
    if n > 0 {
      GeometricSum(u, n - 1);
      TimesDistributes(u - 1.0, Geometric(u, n - 1), Pow(u, n - 1));
      TimesDifference(u, 1.0, Pow(u, n - 1));
      TimesOne(Pow(u, n - 1));
    }
  }

  lemma {:induction false} PowSteps(u: real, n: nat)
    requires u > 0.0
    ensures u >= 1.0 ==> Pow(u, n) <= Pow(u, n + 1)
    ensures u <= 1.0 ==> Pow(u, n + 1) <= Pow(u, n)
  {
    assert Pow(u, n + 1) == Times(u, Pow(u, n));
    TimesOne(Pow(u, n));
    if u >= 1.0 {
      TimesMonotone(1.0, u, Pow(u, n), Pow(u, n));
    } else {
      TimesMonotone(u, 1.0, Pow(u, n), Pow(u, n));
    }
  }

  lemma {:induction false} PowAgainstOne(u: real, n: nat)
    requires u > 0.0
    ensures u >= 1.0 ==> 1.0 <= Pow(u, n)
    ensures u <= 1.0 ==> Pow(u, n) <= 1.0
  {
    if n > 0 {
      PowAgainstOne(u, n - 1);
      PowSteps(u, n - 1);
    }
  }

  lemma {:induction false} StepAbove(m: real, p: real, q: real, s: real)
    requires m >= 0.0 && 1.0 <= p <= q && m <= s <= Times(m, p)
    ensures m + 1.0 <= s + p <= Times(m + 1.0, q)
  {
    MulMonotone(p, q, m + 1.0);
    assert p * (m + 1.0) == m * p + p;
  }

  lemma {:induction false} StepBelow(m: real, p: real, q: real, s: real)
    requires m >= 0.0 && 0.0 <= q <= p <= 1.0 && Times(m, p) <= s <= m
    ensures Times(m + 1.0, q) <= s + p <= m + 1.0
  {
    TimesSign(m + 1.0, p - q);
    TimesDistributes(m + 1.0, p - q, q);
    TimesSuccessor(m, p);
  }

  /** The sum of n powers lies between n and n times the next power. */
  lemma {:induction false} GeometricBounds(u: real, n: nat)
    requires u > 0.0
    ensures u >= 1.0 ==> n as real <= Geometric(u, n) <= Times(n as real, Pow(u, n))
    ensures u <= 1.0 ==> Times(n as real, Pow(u, n)) <= Geometric(u, n) <= n as real
  {
    if n > 0 {
      GeometricBounds(u, n - 1);
      PowAgainstOne(u, n - 1);
      PowSteps(u, n - 1);
      if u >= 1.0 {
        StepAbove((n - 1) as real, Pow(u, n - 1), Pow(u, n), Geometric(u, n - 1));
      }
      if u <= 1.0 {
        StepBelow((n - 1) as real, Pow(u, n - 1), Pow(u, n), Geometric(u, n - 1));
      }
    }
  }

  /** m (p - 1) <= d p (q - 1) */
  predicate PowersOrdered(m: real, p: real, d: real, q: real) {
    m * (p - 1.0) <= d * p * (q - 1.0)
  }

  lemma {:induction false} ProductsOrdered(v: real, c: real, m: real, sm: real, sd: real)
    requires c >= 0.0 && m >= 0.0
    requires (v >= 0.0 && sm >= m && sd <= c) || (v <= 0.0 && sm <= m && sd >= c)
    ensures m * (v * sd) <= c * (v * sm)
  {
    TimesSign(v, sm - m);
    TimesSign(v, c - sd);
    TimesSign(c, Times(v, sm - m));
    TimesSign(m, Times(v, c - sd));
    assert c * (v * sm) - m * (v * sd) == c * (v * (sm - m)) + m * (v * (c - sd));
  }

  lemma {:induction false} Combine(v: real, d: real, m: real, p: real, q: real, sm: real, sd: real)
    requires d >= 0.0 && m >= 0.0 && p > 0.0 && Times(v, sd) == p - 1.0 && Times(v, sm) == q - 1.0
    requires (v >= 0.0 && sm >= m && sd <= Times(d, p)) || (v <= 0.0 && sm <= m && sd >= Times(d, p))
    ensures PowersOrdered(m, p, d, q)
  {
    TimesSign(d, p);
    ProductsOrdered(v, Times(d, p), m, sm, sd);
    assert m * (v * sd) == m * (p - 1.0);
    assert Times(d, p) * (v * sm) == d * p * (q - 1.0);
  }

  /** m (u^d - 1) <= d u^d (u^m - 1) for every positive u. */
  lemma {:induction false} PowerInequality(u: real, m: nat, d: nat)
    requires u > 0.0
    ensures PowersOrdered(m as real, Pow(u, d), d as real, Pow(u, m))
  {
    GeometricSum(u, d);
    GeometricSum(u, m);
    GeometricBounds(u, m);
    GeometricBounds(u, d);
    Combine(u - 1.0, d as real, m as real, Pow(u, d), Pow(u, m), Geometric(u, m), Geometric(u, d));
  }

  // ---------- the tangent of one flow ----------

  lemma {:induction false} PowOfProduct(y: real, u: real, x: real, n: nat)
    requires y == Times(u, x)
    ensures Pow(y, n) == Times(Pow(u, n), Pow(x, n))
  {
    if n > 0 {
      PowOfProduct(y, u, x, n - 1);
      Interchange(y, u, x, Pow(u, n - 1), Pow(x, n - 1), Pow(y, n - 1));
    }
  }

  lemma {:induction false} Interchange(y: real, a: real, b: real, c: real, d: real, z: real)
    requires y == Times(a, b) && z == Times(c, d)
    ensures y * z == Times(a * c, b * d)
  {}

  lemma {:induction false} Ratio(x: real, y: real) returns (u: real)
    requires x > 0.0 && y > 0.0
    ensures u > 0.0 && x == Times(u, y)
  {
    u := x / y;
    DivTimes(x, y);
  }

  lemma {:induction false} RelativeChange(y: real, x: real, w: real)
    requires y == Times(w, x)
    ensures y - x == Times(x, w - 1.0)
  {}

  /** The factor by which daily growth differs, and what it does to the yearly rate and to a discount. */
  lemma {:induction false} GrowthRatio(g: real -> real, r: real, s: real, d: nat) returns (u: real)
    requires IsDailyGrowth(g) && r > -1.0 && s > -1.0
    ensures u > 0.0
    ensures s - r == Times(1.0 + r, Pow(u, 365) - 1.0)
    ensures Pow(g(s), d) == Times(Pow(u, d), Pow(g(r), d))
  {
    u := Ratio(g(s), g(r));
    PowOfProduct(g(s), u, g(r), 365);
    PowOfProduct(g(s), u, g(r), d);
    RelativeChange(1.0 + s, 1.0 + r, Pow(u, 365));
  }

  /** What one unit of value loses along the slope when the yearly factor changes by w. */
  lemma {:induction false} AlongSlope(k: real, a: real, x: Positive, R: Positive, w: real, q: real, h: real)
    requires a == Times(q, x) && h == Times(R, w - 1.0)
    ensures Times(h, SlopeTerm(k, a, x, R)) == -(k * q * (w - 1.0))
  {
    var t := SlopeTerm(k, a, x, R);
    DivTimes(-k * a, Times(x, R));
    assert t * Times(x, R) == -k * a;
    assert (t * R + k * q) * x == t * (x * R) + k * (q * x);
    MulCancel(t * R + k * q, 0.0, x);
    assert Times(h, t) == (t * R) * (w - 1.0);
    assert t * R == -(k * q);
  }

  /** q / p >= q - k q (w - 1): the inequality of powers divided by 365 p. */
  lemma {:induction false} DividedInequality(p: Positive, w: real, d: real, k: real, q: real)
    requires PowersOrdered(365.0, p, d, w) && k == d / 365.0 && q >= 0.0
    ensures q / p >= q - k * q * (w - 1.0)
  {
    var z := q / p;
    DivTimes(q, p);
    DivMonotone(0.0, q, p);
    assert d * p * (w - 1.0) == 365.0 * (k * p * (w - 1.0));
    TimesSign(z, k * p * (w - 1.0) - (p - 1.0));
    assert z * (k * p * (w - 1.0) - (p - 1.0)) == k * (z * p) * (w - 1.0) - z * p + z;
  }

  lemma {:induction false} ReducedQuotient(a: real, q: real, p: Positive, y: Positive, z: Positive)
    requires a == Times(q, y) && z == Times(p, y)
    ensures a / z == q / p
  {
    DivTimes(a, z);
    DivTimes(q, p);
    assert (q / p) * z == ((q / p) * p) * y;
    MulCancel(a / z, q / p, z);
  }

  lemma {:induction false} QuotientIs(a: real, y: Positive)
    ensures a == Times(a / y, y)
  {
    DivTimes(a, y);
  }

  /** The tangent that the slope at `r` stands for, evaluated at `s`. */
  function Tangent(g: real -> real, r: real, s: real): CashFlow -> real
    requires r > -1.0 && g(r) > 0.0
  {
    (c: CashFlow) => Discounted(g(r))(c) + Times(s - r, DiscountedSlope(g(r), r)(c))
  }

  /** A payment out is never worth less than the tangent says, at whatever other rate. */
  lemma {:induction false} AboveTangent(g: real -> real, r: real, s: real, c: CashFlow)
    requires IsDailyGrowth(g) && r > -1.0 && s > -1.0 && c.amount >= 0.0
    ensures Discounted(g(s))(c) >= Tangent(g, r, s)(c)
  {
    var d := c.days;
    var u := GrowthRatio(g, r, s, d);
    var q := Discounted(g(r))(c);
    PowerInequality(u, 365, d);
    QuotientIs(c.amount, Pow(g(r), d));
    DivMonotone(0.0, c.amount, Pow(g(r), d));
    DividedInequality(Pow(u, d), Pow(u, 365), d as real, d as real / 365.0, q);
    ReducedQuotient(c.amount, q, Pow(u, d), Pow(g(r), d), Pow(g(s), d));
    AlongSlope(d as real / 365.0, c.amount, Pow(g(r), d), 1.0 + r, Pow(u, 365), q, s - r);
  }

  /** On the first day there is nothing to discount, so the tangent is exact. */
  lemma {:induction false} TangentOnFirstDay(g: real -> real, r: real, s: real, c: CashFlow)
    requires IsDailyGrowth(g) && r > -1.0 && s > -1.0 && c.days == 0
    ensures Discounted(g(s))(c) == Tangent(g, r, s)(c)
    ensures DiscountedSlope(g(r), r)(c) == 0.0
  {
    TimesZero(s - r, DiscountedSlope(g(r), r)(c));
  }

  // ---------- Newton's method on an ordinary investment ----------

  /** Everything is paid in on the first day, and something is paid out later. */
  predicate OrdinaryInvestment(flows: seq<CashFlow>) {
    && (forall c :: c in flows && c.amount < 0.0 ==> c.days == 0)
    && exists c :: c in flows && c.amount > 0.0 && c.days > 0
  }

  /** The net present value lies on or above each of its tangents; the slope computed is therefore the slope of the
      curve. */
  lemma {:induction false} CurveAboveTangent(g: real -> real, flows: seq<CashFlow>, r: real, s: real)
    requires IsDailyGrowth(g) && OrdinaryInvestment(flows) && r > -1.0 && s > -1.0
    ensures NetPresentValue(g, s, flows) >=
      NetPresentValue(g, r, flows) + Times(s - r, NetPresentValueSlope(g, r, flows))
  {
    forall c | c in flows ensures Tangent(g, r, s)(c) <= Discounted(g(s))(c) {
      if c.days == 0 {
        TangentOnFirstDay(g, r, s, c);
      } else {
        AboveTangent(g, r, s, c);
      }
    }
    SumByMonotone(Tangent(g, r, s), Discounted(g(s)), flows);
    TangentTotal(g, flows, r, s);
  }

  function SlopeTimes(g: real -> real, r: real, h: real): CashFlow -> real
    requires r > -1.0 && g(r) > 0.0
  {
    (c: CashFlow) => Times(h, DiscountedSlope(g(r), r)(c))
  }

  lemma {:induction false} TangentTotal(g: real -> real, flows: seq<CashFlow>, r: real, s: real)
    requires r > -1.0 && g(r) > 0.0
    ensures SumBy(Tangent(g, r, s), flows) ==
      NetPresentValue(g, r, flows) + Times(s - r, NetPresentValueSlope(g, r, flows))
  {
    SumByPlus(Tangent(g, r, s), Discounted(g(r)), SlopeTimes(g, r, s - r), flows);
    SumByScale(s - r, DiscountedSlope(g(r), r), SlopeTimes(g, r, s - r), flows);
  }

  lemma {:induction false} SlopeTermSign(k: real, a: real, x: Positive, R: Positive)
    requires k >= 0.0 && a >= 0.0
    ensures SlopeTerm(k, a, x, R) <= 0.0
    ensures k > 0.0 && a > 0.0 ==> SlopeTerm(k, a, x, R) < 0.0
  {
    TimesSign(k, a);
    assert k > 0.0 && a > 0.0 ==> k * a > 0.0;
    assert Times(x, R) > 0.0;
    DivTimes(-k * a, Times(x, R));
  }

  /** The curve falls everywhere, so the slope is never zero. */
  lemma {:induction false} SlopeIsNegative(g: real -> real, flows: seq<CashFlow>, r: real)
    requires IsDailyGrowth(g) && OrdinaryInvestment(flows) && r > -1.0
    ensures NetPresentValueSlope(g, r, flows) < 0.0
  {
    forall c | c in flows
      ensures DiscountedSlope(g(r), r)(c) <= 0.0
      ensures c.amount > 0.0 && c.days > 0 ==> DiscountedSlope(g(r), r)(c) < 0.0
    {
      if c.days == 0 {
        TangentOnFirstDay(g, r, r, c);
      } else {
        SlopeTermSign(c.days as real / 365.0, c.amount, Pow(g(r), c.days), 1.0 + r);
      }
    }
    var p :| p in flows && p.amount > 0.0 && p.days > 0;
    assert DiscountedSlope(g(r), r)(p) < Nothing()(p);
    SumByMonotone(DiscountedSlope(g(r), r), Nothing(), flows);
    SumByZero(Nothing(), flows);
  }

  function Nothing(): CashFlow -> real { (c: CashFlow) => 0.0 }

  lemma {:induction false} StepToZero(f: real, slope: real, h: real)
    requires slope != 0.0 && h == -(f / slope)
    ensures f + Times(h, slope) == 0.0
  {
    DivTimes(f, slope);
  }

  lemma {:induction false} StepDirection(f: real, slope: real)
    requires slope < 0.0
    ensures f > 0.0 ==> -(f / slope) > 0.0
  {
    DivTimes(f, slope);
  }

  lemma {:induction false} TimesNegative(h: real, slope: real, d: real)
    requires slope < 0.0 && Times(h, slope) <= Times(d, slope)
    ensures h >= d
  {
    if h < d {
      TimesNegatives(h - d, slope);
      TimesDifference(h, d, slope);
    }
  }

  /** From anywhere, one Newton step lands at or before the root: at a rate where the value is not negative and
      which no solution lies below. From a rate with a positive value it moves forward. */
  lemma {:induction false} NewtonNeverOvershoots(g: real -> real, flows: seq<CashFlow>, r: real, next: real)
    requires IsDailyGrowth(g) && OrdinaryInvestment(flows) && r > -1.0
    requires NewtonStep(g, flows, r) == Continue(next)
    ensures NetPresentValue(g, next, flows) >= 0.0
    ensures NetPresentValue(g, r, flows) > 0.0 ==> r < next
    ensures forall root :: root > -1.0 && g(root) > 0.0 && NetPresentValue(g, root, flows) == 0.0 ==> next <= root
  {
    var f, slope := NetPresentValue(g, r, flows), NetPresentValueSlope(g, r, flows);
    SlopeIsNegative(g, flows, r);
    StepToZero(f, slope, next - r);
    StepDirection(f, slope);
    CurveAboveTangent(g, flows, r, next);
    forall root | root > -1.0 && g(root) > 0.0 && NetPresentValue(g, root, flows) == 0.0
      ensures next <= root
    {
      CurveAboveTangent(g, flows, r, root);
      TimesNegative(root - r, slope, next - r);
    }
  }

  /** Hence, after its first step, Newton climbs towards the root and never gives up on a flat slope or by leaving
      the range: it gives up at once or not before the iteration limit. */
  lemma {:induction false} NewtonClimbs(g: real -> real, flows: seq<CashFlow>, rates: seq<real>, i: nat)
    requires IsDailyGrowth(g) && OrdinaryInvestment(flows) && NewtonPath(g, flows, rates)
    requires 1 <= i < |rates|
    ensures NetPresentValue(g, rates[i], flows) >= 0.0
    ensures !NewtonStep(g, flows, rates[i]).GaveUp?
    ensures i + 1 < |rates| ==> rates[i] < rates[i + 1]
  {
    var r := rates[i];
    assert NewtonStep(g, flows, rates[i - 1]) == Continue(r);
    NewtonNeverOvershoots(g, flows, rates[i - 1], r);
    SlopeIsNegative(g, flows, r);
    StepDirection(NetPresentValue(g, r, flows), NetPresentValueSlope(g, r, flows));
    if i + 1 < |rates| {
      assert NewtonStep(g, flows, r) == Continue(rates[i + 1]);
    }
  }
}
