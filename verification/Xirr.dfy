/** engine/xirr.py: Newton's method with a bisection fallback. */
module Xirr {
  import opened CashFlows
  import opened Models
  import opened Npv
  import opened Sequences
  import opened Wrappers

  const MIN_RATE: real := -0.9999
  const MAX_NEWTON_ITERATIONS: nat := 100
  const NEWTON_TOLERANCE: real := 0.0000001
  const BISECTION_TOLERANCE: real := 0.0000001
  const MAX_BISECTION_ITERATIONS: nat := 200
  const BRACKET_LOW: real := -0.9999
  const BRACKET_HIGH: real := 100.0

  datatype Root = Root(rate: real, iterations: nat)

  function Abs(x: real): real { if x < 0.0 then -x else x }

  // ---------- Newton ----------

  datatype NewtonOutcome = Converged | GaveUp | Continue(rate: real)

  function NewtonStep(g: real -> real, flows: seq<CashFlow>, rate: real): (o: NewtonOutcome)
    requires rate > -1.0 && g(rate) > 0.0
    ensures o.Continue? ==> o.rate > -0.9999
    ensures o.Converged? <==> Abs(NetPresentValue(g, rate, flows)) < 0.0000001
  {
    var f := NetPresentValue(g, rate, flows);
    var slope := NetPresentValueSlope(g, rate, flows);
    if Abs(f) < NEWTON_TOLERANCE then Converged
    else if slope == 0.0 then GaveUp
    else if rate - f / slope <= MIN_RATE then GaveUp
    else Continue(rate - f / slope)
  }

  /** When a step gives up: the value is not within the tolerance, and the line through it is flat or meets zero at or
      below the floor. */
  lemma {:induction false} GivesUpIff(g: real -> real, flows: seq<CashFlow>, rate: real)
    requires rate > -1.0 && g(rate) > 0.0
    ensures var f, slope := NetPresentValue(g, rate, flows), NetPresentValueSlope(g, rate, flows);
      NewtonStep(g, flows, rate).GaveUp? <==>
        (f >= 0.0000001 || f <= -0.0000001) && (slope == 0.0 || rate - f / slope <= -0.9999)
  {}

  /** The rates visited: each follows from the one before by one step. */
  ghost predicate NewtonPath(g: real -> real, flows: seq<CashFlow>, rates: seq<real>)
    requires IsDailyGrowth(g)
  {
    && (forall i :: 0 <= i < |rates| ==> rates[i] > -1.0)
    && forall i :: 1 <= i < |rates| ==> NewtonStep(g, flows, rates[i - 1]) == Continue(rates[i])
  }

  /** Newton gives up from `guess`: the path ends in a flat or out-of-range step, or it is too long. */
  ghost predicate NewtonGivesUp(g: real -> real, flows: seq<CashFlow>, guess: real)
    requires IsDailyGrowth(g)
  {
    exists rates: seq<real> :: NewtonPath(g, flows, rates) && GivesUpAfter(g, flows, guess, rates)
  }

  ghost predicate GivesUpAfter(g: real -> real, flows: seq<CashFlow>, guess: real, rates: seq<real>)
    requires IsDailyGrowth(g) && NewtonPath(g, flows, rates)
  {
    && 1 <= |rates| <= 101 && rates[0] == guess
    && (|rates| == 101 || NewtonStep(g, flows, rates[|rates| - 1]).GaveUp?)
  }

  /** The path from `guess` reaches `root` and stops there within tolerance. */
  ghost predicate ConvergesTo(g: real -> real, flows: seq<CashFlow>, guess: real, root: Root, rates: seq<real>)
    requires IsDailyGrowth(g)
  {
    && NewtonPath(g, flows, rates)
    && 1 <= |rates| == root.iterations <= 100
    && rates[0] == guess && rates[|rates| - 1] == root.rate
    && NewtonStep(g, flows, root.rate).Converged?
  }

  ghost predicate NewtonFinds(g: real -> real, flows: seq<CashFlow>, guess: real, root: Root)
    requires IsDailyGrowth(g)
  {
    exists rates: seq<real> :: ConvergesTo(g, flows, guess, root, rates)
  }

  /** `rates` follows `step` from each element to the next. */
  ghost predicate Follows(step: real -> NewtonOutcome, rates: seq<real>) {
    forall i :: 1 <= i < |rates| ==> step(rates[i - 1]) == Continue(rates[i])
  }

  /** Two paths from one guess agree as far as both go. */
  lemma {:induction false} PathsAgree(step: real -> NewtonOutcome, p: seq<real>, q: seq<real>, i: nat)
    requires Follows(step, p) && Follows(step, q) && i < |p| && i < |q| && p[0] == q[0]
    ensures p[i] == q[i]
  {
    if i > 0 {
      PathsAgree(step, p, q, i - 1);
      assert Continue(p[i]) == Continue(q[i]);
    }
  }

  /** A path that ends by converging is the longest one, and no path gives up. */
  lemma {:induction false} ConvergedIsFinal(step: real -> NewtonOutcome, p: seq<real>, q: seq<real>)
    requires Follows(step, p) && Follows(step, q) && p != [] && q != [] && p[0] == q[0]
    requires step(p[|p| - 1]).Converged?
    ensures |q| <= |p| && !step(q[|q| - 1]).GaveUp?
  {
    assert |p| < |q| ==> step(q[|p| - 1]) == Continue(q[|p|]);
    assert |q| < |p| ==> step(p[|q| - 1]) == Continue(p[|q|]);
    PathsAgree(step, p, q, if |p| <= |q| then |p| - 1 else |q| - 1);
  }

  ghost function Stepper(g: real -> real, flows: seq<CashFlow>): real -> NewtonOutcome
    requires IsDailyGrowth(g)
  {
    (rate: real) => if rate > -1.0 then NewtonStep(g, flows, rate) else GaveUp
  }

  /** Newton cannot both find a root and give up. */
  lemma {:induction false} NewtonDecides(g: real -> real, flows: seq<CashFlow>, guess: real, root: Root)
    requires IsDailyGrowth(g) && NewtonFinds(g, flows, guess, root)
    ensures !NewtonGivesUp(g, flows, guess)
  {
    var p :| ConvergesTo(g, flows, guess, root, p);
    forall q: seq<real> | NewtonPath(g, flows, q) && q != [] && q[0] == guess
      ensures !GivesUpAfter(g, flows, guess, q)
    {
      ConvergedIsFinal(Stepper(g, flows), p, q);
    }
  }

  /** The guess itself is the answer, after one iteration, exactly when its value is within the tolerance. */
  lemma {:induction false} GuessAcceptedIff(g: real -> real, flows: seq<CashFlow>, guess: real)
    requires IsDailyGrowth(g) && guess > -1.0
    ensures NewtonFinds(g, flows, guess, Root(guess, 1)) <==> Abs(NetPresentValue(g, guess, flows)) < 0.0000001
  {
    if Abs(NetPresentValue(g, guess, flows)) < NEWTON_TOLERANCE {
      assert ConvergesTo(g, flows, guess, Root(guess, 1), [guess]);
    }
  }

  /** `_newton` */
  method Newton(g: real -> real, flows: seq<CashFlow>, guess: real) returns (r: Option<Root>)
    requires IsDailyGrowth(g) && guess > -1.0
    ensures r.Some? ==> NewtonFinds(g, flows, guess, r.value)
    ensures r.Some? ==> r.value.rate == guess || r.value.rate > -0.9999
    ensures r.None? ==> NewtonGivesUp(g, flows, guess)
  {
    var rate := guess;
    var iteration := 1;
    ghost var path := [guess];
    while iteration <= MAX_NEWTON_ITERATIONS
      invariant 1 <= iteration <= MAX_NEWTON_ITERATIONS + 1
      invariant rate > -1.0 && (rate == guess || rate > MIN_RATE)
      invariant NewtonPath(g, flows, path)
      invariant |path| == iteration && path[0] == guess && path[iteration - 1] == rate
    {
      var f := NetPresentValue(g, rate, flows);
      if Abs(f) < NEWTON_TOLERANCE {
        assert ConvergesTo(g, flows, guess, Root(rate, iteration), path);
        return Some(Root(rate, iteration));
      }
      var slope := NetPresentValueSlope(g, rate, flows);
      if slope == 0.0 {
        assert GivesUpAfter(g, flows, guess, path);
        return None;
      }
      var nextRate := rate - f / slope;
      if nextRate <= MIN_RATE {
        assert NewtonStep(g, flows, rate).GaveUp?;
        assert GivesUpAfter(g, flows, guess, path);
        return None;
      }
      assert NewtonStep(g, flows, rate) == Continue(nextRate);
      path := path + [nextRate];
      rate := nextRate;
      iteration := iteration + 1;
    }
    assert GivesUpAfter(g, flows, guess, path);
    r := None;
  }

  // ---------- bisection ----------

  /** The value at both ends is nonzero and has the same sign. */
  predicate SameStrictSign(v: real, w: real) {
    (v > 0.0 && w > 0.0) || (v < 0.0 && w < 0.0)
  }

  predicate OppositeSigns(v: real, w: real) {
    (v > 0.0 && w < 0.0) || (v < 0.0 && w > 0.0)
  }

  /** An interval inside the search bracket with strictly opposite signs at its ends. */
  ghost predicate Brackets(g: real -> real, flows: seq<CashFlow>, lo: real, hi: real)
    requires IsDailyGrowth(g)
  {
    && -0.9999 <= lo < hi <= 100.0
    && OppositeSigns(NetPresentValue(g, lo, flows), NetPresentValue(g, hi, flows))
  }

  /** The rate is the middle of a bracketing interval that is too narrow to be halved again. */
  ghost predicate PinnedDown(g: real -> real, flows: seq<CashFlow>, rate: real)
    requires IsDailyGrowth(g)
  {
    exists lo: real, hi: real ::
      Brackets(g, flows, lo, hi) && rate == (lo + hi) / 2.0 && (hi - lo) / 2.0 < 0.0000001
  }

  ghost predicate BisectionRoot(g: real -> real, flows: seq<CashFlow>, root: Root)
    requires IsDailyGrowth(g)
  {
    && -0.9999 <= root.rate <= 100.0
    && root.iterations <= 30
    && (root.iterations == 0 ==> NetPresentValue(g, root.rate, flows) == 0.0)
    && (root.iterations > 0 ==>
      || Abs(NetPresentValue(g, root.rate, flows)) < 0.0000001
      || PinnedDown(g, flows, root.rate))
  }

  /** The width of the search bracket after `k` halvings. */
  function Width(k: nat): real {
    if k == 0 then BRACKET_HIGH - BRACKET_LOW else Width(k - 1) / 2.0
  }

  lemma {:induction false} FiveHalvings(k: nat)
    ensures Width(k + 5) == Width(k) / 32.0
  {
    assert Width(k + 1) == Width(k) / 2.0;
    assert Width(k + 2) == Width(k) / 4.0;
    assert Width(k + 3) == Width(k) / 8.0;
    assert Width(k + 4) == Width(k) / 16.0;
  }

  /** After thirty halvings the bracket is narrower than the tolerance; after twenty-nine it is not. */
  lemma {:induction false} ThirtyHalvings()
    ensures Width(30) < 0.0000001 <= Width(29)
  {
    FiveHalvings(0);
    FiveHalvings(5);
    FiveHalvings(10);
    FiveHalvings(15);
    FiveHalvings(20);
    FiveHalvings(25);
    assert Width(30) == Width(29) / 2.0;
  }

  /** `_bisection`, for arbitrary cash flows: it always ends within thirty iterations, and it finds no
      rate exactly when the value has the same strict sign at both ends of the search bracket. */
  method Bisection(g: real -> real, flows: seq<CashFlow>) returns (r: Option<Root>)
    requires IsDailyGrowth(g)
    ensures r.None? <==>
      SameStrictSign(NetPresentValue(g, -0.9999, flows), NetPresentValue(g, 100.0, flows))
    ensures r.Some? ==> BisectionRoot(g, flows, r.value)
  {
    var lo, hi := BRACKET_LOW, BRACKET_HIGH;
    var fLo := NetPresentValue(g, lo, flows);
    var fHi := NetPresentValue(g, hi, flows);
    if fLo == 0.0 {
      return Some(Root(lo, 0));
    }
    if fHi == 0.0 {
      return Some(Root(hi, 0));
    }
    if (fLo > 0.0) == (fHi > 0.0) {
      return None;
    }
    var iteration := 1;
    while iteration <= MAX_BISECTION_ITERATIONS
      invariant 1 <= iteration <= 30
      invariant Brackets(g, flows, lo, hi)
      invariant fLo == NetPresentValue(g, lo, flows) && fHi == NetPresentValue(g, hi, flows)
      invariant hi - lo == Width(iteration - 1)
    {
      var mid := (lo + hi) / 2.0;
      var fMid := NetPresentValue(g, mid, flows);
      if Abs(fMid) < BISECTION_TOLERANCE || (hi - lo) / 2.0 < BISECTION_TOLERANCE {
        return Some(Root(mid, iteration));
      }
      assert iteration < 30 by {
        ThirtyHalvings();
      }
      if (fMid > 0.0) == (fLo > 0.0) {
        lo, fLo := mid, fMid;
      } else {
        hi, fHi := mid, fMid;
      }
      iteration := iteration + 1;
    }
    assert false;
  }

  /** For conventional flows a rate that bisection returns by the width test lies within the tolerance
      of the only root, if the search bracket holds one. */
  lemma {:induction false} BisectionIsAccurate(g: real -> real, flows: seq<CashFlow>, rate: real, root: real)
    requires IsDailyGrowth(g) && Conventional(flows) && SeveralDays(flows)
    requires PinnedDown(g, flows, rate)
    requires root > -1.0 && NetPresentValue(g, root, flows) == 0.0
    ensures Abs(rate - root) < 0.0000001
  {
    var lo: real, hi: real :| Brackets(g, flows, lo, hi) && rate == (lo + hi) / 2.0
      && (hi - lo) / 2.0 < 0.0000001;
    SignChangesOnce(g, flows, lo, hi);
    if root < lo {
      SignChangesOnce(g, flows, root, lo);
    } else if hi < root {
      SignChangesOnce(g, flows, hi, root);
    }
  }

  // ---------- xirr ----------

  datatype Method = ByNewton | ByBisection | NoMethod

  /** `XirrResult` */
  datatype XirrResult = XirrResult(rate: Option<real>, how: Method, iterations: nat)

  datatype XirrError = TooFewFlows | NoSignChange

  predicate HasBothSigns(flows: seq<Flow>) {
    (exists i :: 0 <= i < |flows| && flows[i].amount < 0.0) && (exists i :: 0 <= i < |flows| && flows[i].amount > 0.0)
  }

  function EarliestDate(flows: seq<Flow>): (t: Instant)
    requires flows != []
    ensures forall i :: 0 <= i < |flows| ==> t <= flows[i].date
    ensures exists i :: 0 <= i < |flows| && t == flows[i].date
  {
    if |flows| == 1 then flows[0].date else
    var t := EarliestDate(flows[..|flows| - 1]);
    assert forall i :: 0 <= i < |flows| - 1 ==> flows[..|flows| - 1][i] == flows[i];
    if flows[|flows| - 1].date < t then flows[|flows| - 1].date else t
  }

  /** `(date - t0).days` for every flow: whole days, rounded down. */
  function InDays(flows: seq<Flow>, t0: Instant): (c: seq<CashFlow>)
    requires forall i :: 0 <= i < |flows| ==> t0 <= flows[i].date
    ensures |c| == |flows|
    ensures forall i :: 0 <= i < |flows| ==> c[i].amount == flows[i].amount
    ensures forall i :: 0 <= i < |flows| ==>
      c[i].days * MICROS_PER_DAY <= flows[i].date - t0 < (c[i].days + 1) * MICROS_PER_DAY
  {
    seq(|flows|, i requires 0 <= i < |flows| => CashFlow((flows[i].date - t0) / MICROS_PER_DAY, flows[i].amount))
  }

  function Dated(flows: seq<Flow>): seq<CashFlow>
    requires flows != []
  {
    InDays(flows, EarliestDate(flows))
  }

  /** What a rate that is returned has to be: found by one of the two methods. */
  ghost predicate IsAnswer(g: real -> real, flows: seq<CashFlow>, guess: real, root: Root)
    requires IsDailyGrowth(g)
  {
    NewtonFinds(g, flows, guess, root) || (NewtonGivesUp(g, flows, guess) && BisectionRoot(g, flows, root))
  }

  /** Newton gives up and the value has the same strict sign at both ends of the search bracket. */
  ghost predicate NoRateFound(g: real -> real, flows: seq<CashFlow>, guess: real)
    requires IsDailyGrowth(g)
  {
    && NewtonGivesUp(g, flows, guess)
    && SameStrictSign(NetPresentValue(g, -0.9999, flows), NetPresentValue(g, 100.0, flows))
  }

  /** `xirr` */
  method Solve(g: real -> real, flows: seq<Flow>, guess: real) returns (r: Result<XirrResult, XirrError>)
    requires IsDailyGrowth(g) && guess > -1.0
    ensures r.Failure? <==> |flows| < 2 || !HasBothSigns(flows)
    ensures r.Failure? ==> r.error == if |flows| < 2 then TooFewFlows else NoSignChange
    ensures r.Success? && r.value.how.ByNewton? ==>
      r.value.rate.Some? && NewtonFinds(g, Dated(flows), guess, Root(r.value.rate.value, r.value.iterations))
    ensures r.Success? && !r.value.how.ByNewton? ==> NewtonGivesUp(g, Dated(flows), guess)
    ensures r.Success? && r.value.how.ByBisection? ==>
      r.value.rate.Some? && BisectionRoot(g, Dated(flows), Root(r.value.rate.value, r.value.iterations))
    ensures r.Success? && r.value.how.NoMethod? ==> r.value.rate.None?
    ensures r.Success? ==> (r.value.rate.None? <==> NoRateFound(g, Dated(flows), guess))
    ensures r.Success? && r.value.rate.Some? ==> r.value.rate.value >= -0.9999 || r.value.rate.value == guess
    ensures r.Success? && r.value.rate.Some? ==>
      IsAnswer(g, Dated(flows), guess, Root(r.value.rate.value, r.value.iterations))
  {
    if |flows| < 2 {
      return Failure(TooFewFlows);
    }
    if !HasBothSigns(flows) {
      return Failure(NoSignChange);
    }
    var dated := Dated(flows);
    var newton := Newton(g, dated, guess);
    if newton.Some? {
      NewtonDecides(g, dated, guess, newton.value);
      return Success(XirrResult(Some(newton.value.rate), ByNewton, newton.value.iterations));
    }
    var bisection := Bisection(g, dated);
    if bisection.Some? {
      return Success(XirrResult(Some(bisection.value.rate), ByBisection, bisection.value.iterations));
    }
    r := Success(XirrResult(None, NoMethod, 0));
  }

  // ---------- where the answer is not a rate ----------

  /** Flows that all fall within a day of the first have one net present value at every rate: their total. */
  lemma {:induction false} WithinOneDay(g: real -> real, flows: seq<CashFlow>, rate: real)
    requires IsDailyGrowth(g) && rate > -1.0
    requires forall c :: c in flows ==> c.days == 0
    ensures NetPresentValue(g, rate, flows) == SumBy(AmountOf(), flows)
    ensures NetPresentValueSlope(g, rate, flows) == 0.0
  {
    SumByCongruence(Discounted(g(rate)), AmountOf(), flows);
    SumByZero(DiscountedSlope(g(rate), rate), flows);
  }

  function AmountOf(): CashFlow -> real { (c: CashFlow) => c.amount }

  /** Such flows have no rate, yet one is returned, namely the guess, exactly when they balance to within the
      tolerance; otherwise none is found. */
  lemma {:induction false} WithinOneDayOutcome(g: real -> real, flows: seq<CashFlow>, guess: real)
    requires IsDailyGrowth(g) && guess > -1.0
    requires forall c :: c in flows ==> c.days == 0
    ensures NewtonFinds(g, flows, guess, Root(guess, 1)) <==> Abs(SumBy(AmountOf(), flows)) < 0.0000001
    ensures !NewtonFinds(g, flows, guess, Root(guess, 1)) ==>
      NoRateFound(g, flows, guess)
  {
    WithinOneDay(g, flows, guess);
    WithinOneDay(g, flows, BRACKET_LOW);
    WithinOneDay(g, flows, BRACKET_HIGH);
    GuessAcceptedIff(g, flows, guess);
    if Abs(SumBy(AmountOf(), flows)) >= NEWTON_TOLERANCE {
      assert NewtonPath(g, flows, [guess]) && GivesUpAfter(g, flows, guess, [guess]);
    }
  }
}
