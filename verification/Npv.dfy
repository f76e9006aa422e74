/** The net present value that engine/xirr.py solves for, and where its sign can change.

    The program discounts by `(1 + rate) ** (days / 365)`. Here `g(rate)` stands for the daily
    growth factor, the 365th root of `1 + rate`, so that the same discount is `Pow(g(rate), days)`. */
module Npv {
  import opened Products
  import opened Rounding
  import opened Sequences

  /** One cash flow, dated in whole days after the earliest one. */
  datatype CashFlow = CashFlow(days: nat, amount: real)

  type Positive = x: real | x > 0.0 witness 1.0

  ghost predicate IsDailyGrowth(g: real -> real) {
    forall r: real :: r > -1.0 ==> g(r) > 0.0 && Pow(g(r), 365) == 1.0 + r
  }

  lemma {:induction false} GrowthIncreases(g: real -> real, r: real, s: real)
    requires IsDailyGrowth(g) && -1.0 < r < s
    ensures 0.0 < g(r) < g(s)
  {
    if g(s) <= g(r) {
      if g(s) < g(r) {
        PowMonotone(g(s), g(r), 365);
      }
      assert false;
    }
  }

  function Discounted(x: Positive): CashFlow -> real {
    (c: CashFlow) => c.amount / Pow(x, c.days)
  }

  /** `_npv` */
  function NetPresentValue(g: real -> real, rate: real, flows: seq<CashFlow>): real
    requires rate > -1.0 && g(rate) > 0.0
  {
    SumBy(Discounted(g(rate)), flows)
  }

  /** -k a / (x R): the slope of a / x where x has the exponent k and R is one plus the rate. */
  function SlopeTerm(k: real, a: real, x: Positive, R: Positive): real {
    assert Times(x, R) > 0.0;
    -k * a / Times(x, R)
  }

  function DiscountedSlope(x: Positive, rate: real): CashFlow -> real
    requires rate > -1.0
  {
    (c: CashFlow) => SlopeTerm(c.days as real / 365.0, c.amount, Pow(x, c.days), 1.0 + rate)
  }

  /** `_npv_derivative` */
  function NetPresentValueSlope(g: real -> real, rate: real, flows: seq<CashFlow>): real
    requires rate > -1.0 && g(rate) > 0.0
  {
    SumBy(DiscountedSlope(g(rate), rate), flows)
  }

  /** Money is put in first and taken out later: nothing is paid in after something was paid out. */
  predicate Conventional(flows: seq<CashFlow>) {
    forall i, j :: 0 <= i < |flows| && 0 <= j < |flows| && flows[i].amount < 0.0 && flows[j].amount > 0.0
      ==> flows[i].days <= flows[j].days
  }

  /** Money moves on at least two different days. */
  predicate SeveralDays(flows: seq<CashFlow>) {
    exists i, j :: 0 <= i < |flows| && 0 <= j < |flows|
      && flows[i].amount != 0.0 && flows[j].amount != 0.0 && flows[i].days != flows[j].days
  }

  /** A day that no payment in follows and no payment out precedes. */
  predicate IsPivot(flows: seq<CashFlow>, pivot: nat) {
    forall c :: c in flows ==> (c.amount < 0.0 ==> c.days <= pivot) && (c.amount > 0.0 ==> pivot <= c.days)
  }

  lemma {:induction false} LatestPaymentIn(flows: seq<CashFlow>) returns (pivot: nat)
    ensures forall c :: c in flows && c.amount < 0.0 ==> c.days <= pivot
    ensures pivot == 0 || exists i :: 0 <= i < |flows| && flows[i].amount < 0.0 && flows[i].days == pivot
  {
    if flows == [] {
      pivot := 0;
    } else {
      var rest, last := flows[..|flows| - 1], flows[|flows| - 1];
      pivot := LatestPaymentIn(rest);
      assert forall i :: 0 <= i < |rest| ==> rest[i] == flows[i];
      if last.amount < 0.0 && last.days > pivot {
        pivot := last.days;
        assert flows[|flows| - 1].days == pivot;
      }
    }
  }

  lemma {:induction false} PivotExists(flows: seq<CashFlow>) returns (pivot: nat)
    requires Conventional(flows)
    ensures IsPivot(flows, pivot)
  {
    pivot := LatestPaymentIn(flows);
  }

  /** The value of a flow as of the pivot day rather than of the first day. */
  function ValueAtPivot(x: Positive, pivot: nat): CashFlow -> real {
    (c: CashFlow) => Times(Pow(x, pivot), c.amount / Pow(x, c.days))
  }

  lemma {:induction false} ScaledQuotient(p: real, a: real, q: real, m: real)
    requires q > 0.0 && m > 0.0 && p == Times(m, q)
    ensures Times(p, a / q) == Times(a, m)
  {
    DivTimes(a, q);
    assert p * (a / q) == m * (q * (a / q));
  }

  lemma {:induction false} CommonFactor(p: real, a: real, q: real, m: real)
    requires p > 0.0 && m > 0.0 && q > 0.0 && q == Times(m, p)
    ensures Times(p, a / q) == a / m
  {
    DivTimes(a, q);
    DivTimes(a, m);
    assert (p * (a / q)) * m == a;
    MulCancel(Times(p, a / q), a / m, m);
  }

  lemma {:induction false} PivotTerm(x: Positive, pivot: nat, c: CashFlow)
    ensures c.days <= pivot ==> ValueAtPivot(x, pivot)(c) == Times(c.amount, Pow(x, pivot - c.days))
    ensures pivot <= c.days ==> ValueAtPivot(x, pivot)(c) == c.amount / Pow(x, c.days - pivot)
  {
    if c.days <= pivot {
      PowAdd(x, pivot - c.days, c.days);
      ScaledQuotient(Pow(x, pivot), c.amount, Pow(x, c.days), Pow(x, pivot - c.days));
    }
    if pivot <= c.days {
      PowAdd(x, c.days - pivot, pivot);
      CommonFactor(Pow(x, pivot), c.amount, Pow(x, c.days), Pow(x, c.days - pivot));
    }
  }

  lemma {:induction false} NegativeTimes(a: real, p: real, q: real, v: real, w: real)
    requires a < 0.0 && p <= q && v == Times(a, p) && w == Times(a, q)
    ensures w <= v
    ensures p < q ==> w < v
  {}

  lemma {:induction false} PositiveOver(a: real, p: real, q: real)
    requires a >= 0.0 && 0.0 < p <= q
    ensures a / q <= a / p
    ensures a > 0.0 && p < q ==> a / q < a / p
  {
    DivTimes(a, p);
    DivTimes(a, q);
  }

  /** Seen from the pivot day, every flow is worth less at a higher rate. */
  lemma {:induction false} PivotTermFalls(x: Positive, y: Positive, pivot: nat, c: CashFlow)
    requires x < y && (c.amount < 0.0 ==> c.days <= pivot) && (c.amount > 0.0 ==> pivot <= c.days)
    ensures ValueAtPivot(y, pivot)(c) <= ValueAtPivot(x, pivot)(c)
    ensures c.amount != 0.0 && c.days != pivot ==> ValueAtPivot(y, pivot)(c) < ValueAtPivot(x, pivot)(c)
  {
    PivotTerm(x, pivot, c);
    PivotTerm(y, pivot, c);
    if c.amount < 0.0 {
      PowMonotone(x, y, pivot - c.days);
      NegativeTimes(c.amount, Pow(x, pivot - c.days), Pow(y, pivot - c.days),
                    ValueAtPivot(x, pivot)(c), ValueAtPivot(y, pivot)(c));
    } else if pivot <= c.days {
      PowMonotone(x, y, c.days - pivot);
      PositiveOver(c.amount, Pow(x, c.days - pivot), Pow(y, c.days - pivot));
    } else {
      assert c.amount == 0.0;
    }
  }

  lemma {:induction false} PivotTotal(x: Positive, pivot: nat, flows: seq<CashFlow>)
    ensures SumBy(ValueAtPivot(x, pivot), flows) == Times(Pow(x, pivot), SumBy(Discounted(x), flows))
  {
    SumByScale(Pow(x, pivot), Discounted(x), ValueAtPivot(x, pivot), flows);
  }

  lemma {:induction false} SignOfProduct(p: real, v: real)
    requires p > 0.0
    ensures Times(p, v) < 0.0 <==> v < 0.0
    ensures Times(p, v) > 0.0 <==> v > 0.0
  {}

  lemma {:induction false} PivotValueFalls(x: Positive, y: Positive, pivot: nat, flows: seq<CashFlow>)
    requires x < y && IsPivot(flows, pivot) && SeveralDays(flows)
    ensures SumBy(ValueAtPivot(y, pivot), flows) < SumBy(ValueAtPivot(x, pivot), flows)
  {
    forall c | c in flows
      ensures ValueAtPivot(y, pivot)(c) <= ValueAtPivot(x, pivot)(c)
      ensures c.amount != 0.0 && c.days != pivot ==> ValueAtPivot(y, pivot)(c) < ValueAtPivot(x, pivot)(c)
    {
      PivotTermFalls(x, y, pivot, c);
    }
    var i, j :| 0 <= i < |flows| && 0 <= j < |flows|
      && flows[i].amount != 0.0 && flows[j].amount != 0.0 && flows[i].days != flows[j].days;
    var moved := if flows[i].days != pivot then flows[i] else flows[j];
    assert moved in flows;
    SumByMonotone(ValueAtPivot(y, pivot), ValueAtPivot(x, pivot), flows);
  }

  /** For conventional flows the net present value crosses zero at most once, and downwards: once it
      is not positive, it is negative at every higher rate. */
  lemma {:induction false} SignChangesOnce(g: real -> real, flows: seq<CashFlow>, r: real, s: real)
    requires IsDailyGrowth(g) && Conventional(flows) && SeveralDays(flows)
    requires -1.0 < r < s
    ensures NetPresentValue(g, r, flows) <= 0.0 ==> NetPresentValue(g, s, flows) < 0.0
  {
    GrowthIncreases(g, r, s);
    var pivot := PivotExists(flows);
    PivotValueFalls(g(r), g(s), pivot, flows);
    PivotTotal(g(r), pivot, flows);
    PivotTotal(g(s), pivot, flows);
    SignOfProduct(Pow(g(r), pivot), NetPresentValue(g, r, flows));
    SignOfProduct(Pow(g(s), pivot), NetPresentValue(g, s, flows));
  }

  /** So there is at most one rate that solves it. */
  lemma {:induction false} RootUnique(g: real -> real, flows: seq<CashFlow>, r: real, s: real)
    requires IsDailyGrowth(g) && Conventional(flows) && SeveralDays(flows)
    requires r > -1.0 && s > -1.0
    requires NetPresentValue(g, r, flows) == 0.0 && NetPresentValue(g, s, flows) == 0.0
    ensures r == s
  {
    if r < s {
      SignChangesOnce(g, flows, r, s);
    } else if s < r {
      SignChangesOnce(g, flows, s, r);
    }
  }

  /** Without that hypothesis there can be two: pay in, draw out more, pay in again. Both 0% and 100% solve
      -1, +3, -2 over two years. */
  lemma {:induction false} UnconventionalTwoRoots(g: real -> real)
    requires IsDailyGrowth(g)
    ensures var flows := [CashFlow(0, -1.0), CashFlow(365, 3.0), CashFlow(730, -2.0)];
      && !Conventional(flows) && SeveralDays(flows)
      && NetPresentValue(g, 0.0, flows) == 0.0 && NetPresentValue(g, 1.0, flows) == 0.0
  {
    var a, b, c := CashFlow(0, -1.0), CashFlow(365, 3.0), CashFlow(730, -2.0);
    var flows := [a, b, c];
    assert flows[1].amount > 0.0 && flows[2].amount < 0.0;
    assert flows[0].days != flows[1].days;
    PowAdd(g(0.0), 365, 365);
    PowAdd(g(1.0), 365, 365);
    SumOfThree(Discounted(g(0.0)), a, b, c);
    SumOfThree(Discounted(g(1.0)), a, b, c);
  }

  lemma {:induction false} SumOfTwo(w: CashFlow -> real, a: CashFlow, b: CashFlow)
    ensures SumBy(w, [a, b]) == w(a) + w(b)
  {
    SumByConcat(w, [a], [b]);
    assert [a] + [b] == [a, b];
    SumOfOne(w, a);
    SumOfOne(w, b);
  }

  lemma {:induction false} SumOfThree(w: CashFlow -> real, a: CashFlow, b: CashFlow, c: CashFlow)
    ensures SumBy(w, [a, b, c]) == w(a) + w(b) + w(c)
  {
    SumByConcat(w, [a, b], [c]);
    assert [a, b] + [c] == [a, b, c];
    SumOfTwo(w, a, b);
    SumOfOne(w, c);
  }

  lemma {:induction false} SumOfOne(w: CashFlow -> real, a: CashFlow)
    ensures SumBy(w, [a]) == w(a)
  {
    assert [a][..0] == [];
  }
}
