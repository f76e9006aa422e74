/** How far from the rate that solves the flows an answer of engine/xirr.py can be. */
module Accuracy {
  import opened NewtonSteps
  import opened Npv
  import opened Products
  import opened Rounding
  import opened Sequences
  import opened Xirr

  // ---------- which side of the solution ----------

  /** For conventional flows the sign of the value tells on which side of the solution a rate lies. */
  lemma {:induction false} SideOfRoot(g: real -> real, flows: seq<CashFlow>, r: real, root: real)
    requires IsDailyGrowth(g) && Conventional(flows) && SeveralDays(flows)
    requires r > -1.0 && root > -1.0 && NetPresentValue(g, root, flows) == 0.0
    ensures NetPresentValue(g, r, flows) > 0.0 <==> r < root
    ensures NetPresentValue(g, r, flows) < 0.0 <==> root < r
  {
    if r < root {
      SignChangesOnce(g, flows, r, root);
    } else if root < r {
      SignChangesOnce(g, flows, root, r);
    }
  }

  /** Whether any rate, however found, is within `distance` of the solution can be read off two more values: one
      that far below it has to be positive, one that far above it negative. */
  lemma {:induction false} CloseIff(g: real -> real, flows: seq<CashFlow>, r: real, root: real, distance: real)
    requires IsDailyGrowth(g) && Conventional(flows) && SeveralDays(flows)
    requires r > -1.0 && root > -1.0 && NetPresentValue(g, root, flows) == 0.0 && distance > 0.0
    ensures Abs(r - root) < distance <==>
      && (r - distance > -1.0 ==> NetPresentValue(g, r - distance, flows) > 0.0)
      && NetPresentValue(g, r + distance, flows) < 0.0
  {
    if r - distance > -1.0 {
      SideOfRoot(g, flows, r - distance, root);
    }
    SideOfRoot(g, flows, r + distance, root);
  }

  /** When Newton has given up, no rate is returned exactly when the solution lies outside the search bracket. */
  lemma {:induction false} NoRateMeansOutside(g: real -> real, flows: seq<CashFlow>, guess: real, root: real)
    requires IsDailyGrowth(g) && Conventional(flows) && SeveralDays(flows) && NewtonGivesUp(g, flows, guess)
    requires root > -1.0 && NetPresentValue(g, root, flows) == 0.0
    ensures NoRateFound(g, flows, guess) <==> root < -0.9999 || 100.0 < root
  {
    SideOfRoot(g, flows, -0.9999, root);
    SideOfRoot(g, flows, 100.0, root);
  }

  /** Exactly when the guess is answered although it is not that close: its own value is within the tolerance, and one
      of the values on either side does not have the sign it should have. */
  lemma {:induction false} GuessMissesIff(g: real -> real, flows: seq<CashFlow>, guess: real, root: real,
      distance: real)
    requires IsDailyGrowth(g) && Conventional(flows) && SeveralDays(flows)
    requires guess > -1.0 && root > -1.0 && NetPresentValue(g, root, flows) == 0.0 && distance > 0.0
    ensures NewtonFinds(g, flows, guess, Root(guess, 1)) && Abs(guess - root) >= distance <==>
      && Abs(NetPresentValue(g, guess, flows)) < 0.0000001
      && ((guess - distance > -1.0 && NetPresentValue(g, guess - distance, flows) <= 0.0)
          || NetPresentValue(g, guess + distance, flows) >= 0.0)
  {
    GuessAcceptedIff(g, flows, guess);
    CloseIff(g, flows, guess, root, distance);
  }

  // ---------- how far from the solution ----------

  /** How fast the value falls at a rate, as `_npv_derivative` computes it. */
  function Steepness(g: real -> real, flows: seq<CashFlow>, r: real): real
    requires r > -1.0 && g(r) > 0.0
  {
    -NetPresentValueSlope(g, r, flows)
  }

  lemma {:induction false} TimesFlips(x: real, y: real, s: real)
    ensures Times(x - y, s) == Times(y - x, -s)
  {}

  /** The value of an ordinary investment at a rate lies between the distance to the solution times the steepness at
      the solution, and the same distance times the steepness at the rate; distances count as negative beyond it. */
  lemma {:induction false} ValueAgainstDistance(g: real -> real, flows: seq<CashFlow>, r: real, root: real)
    requires IsDailyGrowth(g) && OrdinaryInvestment(flows) && r > -1.0 && root > -1.0
    requires NetPresentValue(g, root, flows) == 0.0
    ensures Times(root - r, Steepness(g, flows, root)) <= NetPresentValue(g, r, flows)
    ensures NetPresentValue(g, r, flows) <= Times(root - r, Steepness(g, flows, r))
  {
    CurveAboveTangent(g, flows, root, r);
    TimesFlips(r, root, NetPresentValueSlope(g, root, flows));
    CurveAboveTangent(g, flows, r, root);
    TimesFlips(root, r, NetPresentValueSlope(g, r, flows));
    TimesFlips(r, root, -NetPresentValueSlope(g, r, flows));
  }

  function Lower(r: real, s: real): real { if r <= s then r else s }

  function Higher(r: real, s: real): real { if r <= s then s else r }

  lemma {:induction false} DistanceSign(r: real, root: real, s: real)
    requires s > 0.0
    ensures r <= root ==> Times(root - r, s) == Times(Abs(r - root), s) >= 0.0
    ensures root <= r ==> Times(root - r, s) == -Times(Abs(r - root), s) <= 0.0
  {
    if r <= root {
      TimesSign(root - r, s);
    } else {
      TimesSign(r - root, s);
      TimesFlips(root, r, s);
    }
  }

  /** So the size of the value lies between the distance times the steepness at the higher of the two rates and the
      distance times the steepness at the lower one. */
  lemma {:induction false} ValueSize(g: real -> real, flows: seq<CashFlow>, r: real, root: real)
    requires IsDailyGrowth(g) && OrdinaryInvestment(flows) && r > -1.0 && root > -1.0
    requires NetPresentValue(g, root, flows) == 0.0
    ensures Times(Abs(r - root), Steepness(g, flows, Higher(r, root))) <= Abs(NetPresentValue(g, r, flows))
    ensures Abs(NetPresentValue(g, r, flows)) <= Times(Abs(r - root), Steepness(g, flows, Lower(r, root)))
  {
    ValueAgainstDistance(g, flows, r, root);
    SlopeIsNegative(g, flows, r);
    SlopeIsNegative(g, flows, root);
    DistanceSign(r, root, Steepness(g, flows, r));
    DistanceSign(r, root, Steepness(g, flows, root));
  }

  /** The distance from the solution, times the steepness at the higher rate, is within the tolerance. */
  ghost predicate WithinValueTolerance(g: real -> real, flows: seq<CashFlow>, r: real, root: real)
    requires IsDailyGrowth(g) && r > -1.0 && root > -1.0
  {
    Times(Abs(r - root), Steepness(g, flows, Higher(r, root))) < 0.0000001
  }

  /** What the exits by value promise and require: an accepted rate is as close as the tolerance divided by the
      steepness at the higher of the two rates, and one as close as the tolerance divided by the steepness at the
      lower one is accepted. */
  lemma {:induction false} ValueExit(g: real -> real, flows: seq<CashFlow>, r: real, root: real)
    requires IsDailyGrowth(g) && OrdinaryInvestment(flows) && r > -1.0 && root > -1.0
    requires NetPresentValue(g, root, flows) == 0.0
    ensures Abs(NetPresentValue(g, r, flows)) < 0.0000001 ==> WithinValueTolerance(g, flows, r, root)
    ensures Times(Abs(r - root), Steepness(g, flows, Lower(r, root))) < 0.0000001 ==>
      Abs(NetPresentValue(g, r, flows)) < 0.0000001
  {
    ValueSize(g, flows, r, root);
  }

  lemma {:induction false} OrdinaryIsConventional(flows: seq<CashFlow>)
    requires OrdinaryInvestment(flows) && exists c :: c in flows && c.amount < 0.0
    ensures Conventional(flows) && SeveralDays(flows)
  {
    var p :| p in flows && p.amount < 0.0;
    var q :| q in flows && q.amount > 0.0 && q.days > 0;
    var i :| 0 <= i < |flows| && flows[i] == p;
    var j :| 0 <= j < |flows| && flows[j] == q;
    assert flows[i].days != flows[j].days;
  }

  /** An answer that is not that close to the solution was accepted by its value. */
  lemma {:induction false} AcceptedByValue(g: real -> real, flows: seq<CashFlow>, guess: real, answer: Root, root: real)
    requires IsDailyGrowth(g) && OrdinaryInvestment(flows) && exists c :: c in flows && c.amount < 0.0
    requires IsAnswer(g, flows, guess, answer)
    requires root > -1.0 && NetPresentValue(g, root, flows) == 0.0
    ensures answer.rate > -1.0
    ensures Abs(answer.rate - root) < 0.0000001
      || Abs(NetPresentValue(g, answer.rate, flows)) < 0.0000001
  {
    if NewtonFinds(g, flows, guess, answer) {
      var rates :| ConvergesTo(g, flows, guess, answer, rates);
    }
    OrdinaryIsConventional(flows);
    if PinnedDown(g, flows, answer.rate) {
      BisectionIsAccurate(g, flows, answer.rate, root);
    }
  }

  /** Every rate that the solver returns for an ordinary investment, by either method and by whichever exit, is
      within the tolerance of the solution, in the rate or in the value. */
  lemma {:induction false} AnswerIsClose(g: real -> real, flows: seq<CashFlow>, guess: real, answer: Root, root: real)
    requires IsDailyGrowth(g) && OrdinaryInvestment(flows) && exists c :: c in flows && c.amount < 0.0
    requires IsAnswer(g, flows, guess, answer)
    requires root > -1.0 && NetPresentValue(g, root, flows) == 0.0
    ensures answer.rate > -1.0
    ensures Abs(answer.rate - root) < 0.0000001 || WithinValueTolerance(g, flows, answer.rate, root)
  {
    AcceptedByValue(g, flows, guess, answer, root);
    ValueExit(g, flows, answer.rate, root);
  }

  lemma {:induction false} SteepEnough(distance: real, s: real, tolerance: real)
    requires distance >= 0.0 && s >= 1.0 && Times(distance, s) < tolerance
    ensures distance < tolerance
  {
    TimesSign(distance, s - 1.0);
    TimesDistributes(distance, s - 1.0, 1.0);
  }

  /** Higher rates have lower values, and the value falls less steeply there. */
  lemma {:induction false} SteepnessFalls(g: real -> real, flows: seq<CashFlow>, r: real, s: real)
    requires IsDailyGrowth(g) && OrdinaryInvestment(flows) && -1.0 < r <= s
    ensures NetPresentValue(g, s, flows) <= NetPresentValue(g, r, flows)
    ensures 0.0 < Steepness(g, flows, s) <= Steepness(g, flows, r)
  {
    SlopeIsNegative(g, flows, r);
    SlopeIsNegative(g, flows, s);
    CurveAboveTangent(g, flows, r, s);
    CurveAboveTangent(g, flows, s, r);
    TimesFlips(s, r, NetPresentValueSlope(g, r, flows));
    TimesFlips(r, s, NetPresentValueSlope(g, s, flows));
    TimesFlips(r, s, Steepness(g, flows, r));
    TimesSign(s - r, Steepness(g, flows, s));
    if r < s {
      SmallerFactor(s - r, Steepness(g, flows, s), Steepness(g, flows, r));
    }
  }

  lemma {:induction false} SmallerFactor(h: real, a: real, b: real)
    requires h > 0.0 && Times(h, a) <= Times(h, b)
    ensures a <= b
  {
    assert h * (b - a) >= 0.0;
  }

  /** Where the value is that far below zero the rate is above every answer and above the solution. */
  lemma {:induction false} BelowTop(g: real -> real, flows: seq<CashFlow>, top: real, r: real)
    requires IsDailyGrowth(g) && OrdinaryInvestment(flows) && top > -1.0 && r > -1.0
    requires NetPresentValue(g, top, flows) <= -0.0000001 < NetPresentValue(g, r, flows)
    ensures r < top
  {
    if top <= r {
      SteepnessFalls(g, flows, top, r);
    }
  }

  /** A condition on the flows alone: if at some rate the value is below zero by the tolerance and still falls by
      at least 1 per unit of rate, every answer from any guess is within the tolerance of the solution. */
  lemma {:induction false} SteepFlowsAreAccurate(g: real -> real, flows: seq<CashFlow>, top: real, guess: real,
      answer: Root, root: real)
    requires IsDailyGrowth(g) && OrdinaryInvestment(flows) && exists c :: c in flows && c.amount < 0.0
    requires top > -1.0 && NetPresentValue(g, top, flows) <= -0.0000001 && Steepness(g, flows, top) >= 1.0
    requires IsAnswer(g, flows, guess, answer)
    requires root > -1.0 && NetPresentValue(g, root, flows) == 0.0
    ensures Abs(answer.rate - root) < 0.0000001
  {
    AnswerIsClose(g, flows, guess, answer, root);
    if Abs(answer.rate - root) >= 0.0000001 {
      AcceptedByValue(g, flows, guess, answer, root);
      BelowTop(g, flows, top, answer.rate);
      BelowTop(g, flows, top, root);
      SteepnessFalls(g, flows, Higher(answer.rate, root), top);
      SteepEnough(Abs(answer.rate - root), Steepness(g, flows, Higher(answer.rate, root)), 0.0000001);
    }
  }

  // ---------- small flows ----------

  function Magnitude(): CashFlow -> real { (c: CashFlow) => Abs(c.amount) }

  lemma {:induction false} GrowthAtLeastOne(g: real -> real, r: real)
    requires IsDailyGrowth(g) && r >= 0.0
    ensures g(r) >= 1.0
  {
    if g(r) < 1.0 {
      PowMonotone(g(r), 1.0, 365);
      PowAgainstOne(1.0, 365);
    }
  }

  lemma {:induction false} DiscountShrinks(a: real, p: real)
    requires p >= 1.0
    ensures -Abs(a) <= a / p <= Abs(a)
  {
    DivTimes(a, p);
  }

  function Negated(w: CashFlow -> real): CashFlow -> real { (c: CashFlow) => Times(-1.0, w(c)) }

  /** At a rate that is not negative the value is no larger than the amounts together. */
  lemma {:induction false} ValueWithinMagnitudes(g: real -> real, flows: seq<CashFlow>, r: real)
    requires IsDailyGrowth(g) && r >= 0.0
    ensures Abs(NetPresentValue(g, r, flows)) <= SumBy(Magnitude(), flows)
  {
    GrowthAtLeastOne(g, r);
    forall c | c in flows
      ensures Negated(Magnitude())(c) <= Discounted(g(r))(c) <= Magnitude()(c)
    {
      PowAgainstOne(g(r), c.days);
      DiscountShrinks(c.amount, Pow(g(r), c.days));
    }
    SumByMonotone(Discounted(g(r)), Magnitude(), flows);
    SumByMonotone(Negated(Magnitude()), Discounted(g(r)), flows);
    SumByScale(-1.0, Magnitude(), Negated(Magnitude()), flows);
  }

  /** The tolerance is absolute, so flows of less than a ten-millionth in all are answered with the guess, whatever
      it is. */
  lemma {:induction false} SmallFlowsAcceptTheGuess(g: real -> real, flows: seq<CashFlow>, guess: real)
    requires IsDailyGrowth(g) && guess >= 0.0 && SumBy(Magnitude(), flows) < 0.0000001
    ensures NewtonFinds(g, flows, guess, Root(guess, 1))
  {
    ValueWithinMagnitudes(g, flows, guess);
    GuessAcceptedIff(g, flows, guess);
  }

  /** Two such flows, a year apart, grow by 5%, and the answer is the guess of 10%. */
  lemma {:induction false} SmallGrowthMissed(g: real -> real)
    requires IsDailyGrowth(g)
    ensures var flows := [CashFlow(0, -0.00000001), CashFlow(365, 0.0000000105)];
      && OrdinaryInvestment(flows)
      && NetPresentValue(g, 0.05, flows) == 0.0
      && NewtonFinds(g, flows, 0.1, Root(0.1, 1))
  {
    var a, b := CashFlow(0, -0.00000001), CashFlow(365, 0.0000000105);
    SumOfTwo(Discounted(g(0.05)), a, b);
    SumOfTwo(Magnitude(), a, b);
    SmallFlowsAcceptTheGuess(g, [a, b], 0.1);
    assert b in [a, b];
  }
}
