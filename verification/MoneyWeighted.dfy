/** engine/calculators/mwr_calculator.py: the guards that make the solver applicable. */
module MoneyWeighted {
  import opened CashFlows
  import opened Models
  import opened Npv
  import opened PeriodReturns
  import opened Products
  import opened Rounding
  import opened Sequences
  import opened Wrappers
  import opened Xirr

  datatype MwrStatus = NoFlows | TooLittleData | NoRate | Solved

  datatype MwrResult = MwrResult(status: MwrStatus, ratePct: Option<real>, cashFlowCount: nat)

  const DEFAULT_GUESS: real := 0.1

  function RatePct(rate: real): real { RoundTo(rate * 100.0, SCALE_4) }

  /** The external flows followed by what the portfolio is worth now. */
  function WithTerminalValue(portfolio: Portfolio, positions: seq<Position>, asOf: Instant): seq<Flow>
    requires ValidLog(portfolio.transactions)
  {
    ExtractFlows(portfolio.transactions) + [Flow(asOf, CurrentValue(portfolio, positions))]
  }

  predicate AllAtOnce(flows: seq<Flow>) {
    |set f | f in flows :: f.date| < 2
  }

  lemma {:induction false} SubsetSize<T>(a: set<T>, b: set<T>)
    requires a <= b
    ensures |a| <= |b|
  {
    if a != {} {
      var x :| x in a;
      SubsetSize(a - {x}, b - {x});
    }
  }

  lemma {:induction false} AllAtOnceMeaning(flows: seq<Flow>)
    ensures AllAtOnce(flows) <==> forall i, j :: 0 <= i < j < |flows| ==> flows[i].date == flows[j].date
  {
    var dates := set f | f in flows :: f.date;
    if i, j :| 0 <= i < j < |flows| && flows[i].date != flows[j].date {
      assert flows[i] in flows && flows[j] in flows;
      SubsetSize({flows[i].date, flows[j].date}, dates);
    } else if flows != [] {
      forall d | d in dates ensures d == flows[0].date {
        var f :| f in flows && f.date == d;
        var k :| 0 <= k < |flows| && flows[k] == f;
      }
      SubsetSize(dates, {flows[0].date});
    }
  }

  /** The rate reported: rounded to four places, and never below -99.99%. */
  lemma {:induction false} RatePctFloor(rate: real)
    requires rate >= -0.9999
    ensures RatePct(rate) >= -99.99
  {
    RoundToMonotone(-99.99, rate * 100.0, SCALE_4);
    RoundToFixed(-99.99, SCALE_4, -999_900);
  }

  /** What is reported for flows that pass the guards. */
  ghost predicate ReportsRate(g: real -> real, flows: seq<CashFlow>, r: MwrResult)
    requires IsDailyGrowth(g)
  {
    if r.ratePct.None? then
      r.status.NoRate? && NoRateFound(g, flows, DEFAULT_GUESS)
    else
      && r.status.Solved? && !NoRateFound(g, flows, DEFAULT_GUESS)
      && r.ratePct.value >= -99.99
      && exists root: Root :: r.ratePct == Some(RatePct(root.rate)) && IsAnswer(g, flows, DEFAULT_GUESS, root)
  }

  /** The guards passed, the solver has nothing to raise about. */
  method SolveAndReport(g: real -> real, flows: seq<Flow>) returns (r: MwrResult)
    requires IsDailyGrowth(g) && |flows| > 1 && HasBothSigns(flows)
    ensures ReportsRate(g, Dated(flows), r) && r.cashFlowCount == |flows|
  {
    var solved := Solve(g, flows, DEFAULT_GUESS);
    var result := solved.value;
    if result.rate.None? {
      return MwrResult(NoRate, None, |flows|);
    }
    RatePctFloor(result.rate.value);
    ghost var root := Root(result.rate.value, result.iterations);
    assert IsAnswer(g, Dated(flows), DEFAULT_GUESS, root);
    r := MwrResult(Solved, Some(RatePct(result.rate.value)), |flows|);
  }

  /** What `calculate` returns. */
  ghost predicate IsResultFor(g: real -> real, portfolio: Portfolio, positions: seq<Position>, asOf: Instant,
      r: MwrResult)
    requires IsDailyGrowth(g) && ValidLog(portfolio.transactions)
  {
    var flows := WithTerminalValue(portfolio, positions, asOf);
    if |flows| == 1 then r == MwrResult(NoFlows, None, 0)
    else if AllAtOnce(flows) || !HasBothSigns(flows) then r == MwrResult(TooLittleData, None, |flows|)
    else ReportsRate(g, Dated(flows), r) && r.cashFlowCount == |flows|
  }

  /** `calculate` */
  method Calculate(g: real -> real, portfolio: Portfolio, positions: seq<Position>, asOf: Instant)
    returns (r: MwrResult)
    requires IsDailyGrowth(g) && ValidLog(portfolio.transactions)
    ensures IsResultFor(g, portfolio, positions, asOf, r)
  {
    var external := ExtractFlows(portfolio.transactions);
    if external == [] {
      return MwrResult(NoFlows, None, 0);
    }
    var flows := external + [Flow(asOf, CurrentValue(portfolio, positions))];
    if |set f | f in flows :: f.date| < 2 {
      return MwrResult(TooLittleData, None, |flows|);
    }
    if !HasBothSigns(flows) {
      return MwrResult(TooLittleData, None, |flows|);
    }
    r := SolveAndReport(g, flows);
  }

  // ---------- what the status means for the portfolio ----------

  /** What the positions and the cash are worth together. */
  function Worth(portfolio: Portfolio, positions: seq<Position>): real {
    SumBy(MarketValue(), positions) + portfolio.cashBalance
  }

  predicate PaysIn(t: Transaction) { t.kind.Deposit? || t.kind.TransferIn? }

  predicate PaysOut(t: Transaction) { t.kind.Withdrawal? || t.kind.TransferOut? }

  /** Some transaction moves capital at another moment than `asOf`. */
  predicate MovesEarlier(log: seq<Transaction>, asOf: Instant) {
    exists t :: t in log && (PaysIn(t) || PaysOut(t)) && t.date != asOf
  }

  lemma {:induction false} FlowOfExternal(t: Transaction)
    requires ValidTransaction(t)
    ensures PaysIn(t) || PaysOut(t) <==> |FlowOf(t)| == 1
    ensures |FlowOf(t)| == 1 ==> FlowOf(t) == [FlowOf(t)[0]] && FlowOf(t)[0].date == t.date
    ensures PaysIn(t) ==> FlowOf(t)[0].amount < 0.0
    ensures PaysOut(t) ==> FlowOf(t)[0].amount > 0.0
  {
    FlowSign(t);
  }

  /** A flow of the log comes from a transaction that pays in or out, at its moment and with its sign. */
  lemma {:induction false} SourceOf(log: seq<Transaction>, f: Flow) returns (t: Transaction)
    requires ValidLog(log) && f in ExtractFlows(log)
    ensures t in log && FlowOf(t) == [f] && f.date == t.date && (PaysIn(t) || PaysOut(t))
    ensures (f.amount < 0.0 <==> PaysIn(t)) && (f.amount > 0.0 <==> PaysOut(t))
  {
    FlowsOfLog(log, f);
    t :| t in log && FlowOf(t) == [f];
    FlowOfExternal(t);
  }

  lemma {:induction false} FlowIsListed(log: seq<Transaction>, t: Transaction)
    requires ValidLog(log) && t in log && (PaysIn(t) || PaysOut(t))
    ensures |FlowOf(t)| == 1 && FlowOf(t)[0] in ExtractFlows(log)
  {
    FlowOfExternal(t);
    FlowsOfLog(log, FlowOf(t)[0]);
  }

  lemma {:induction false} SignsOfFlows(log: seq<Transaction>, value: real, asOf: Instant)
    requires ValidLog(log)
    ensures HasBothSigns(ExtractFlows(log) + [Flow(asOf, value)]) <==>
      ((exists t :: t in log && PaysIn(t)) || value < 0.0) && ((exists t :: t in log && PaysOut(t)) || value > 0.0)
  {
    var e := ExtractFlows(log);
    var flows := e + [Flow(asOf, value)];
    forall i | 0 <= i < |e| && flows[i].amount < 0.0 ensures exists t :: t in log && PaysIn(t) {
      var t := SourceOf(log, e[i]);
    }
    forall i | 0 <= i < |e| && flows[i].amount > 0.0 ensures exists t :: t in log && PaysOut(t) {
      var t := SourceOf(log, e[i]);
    }
    if t :| t in log && PaysIn(t) {
      Listed(log, value, asOf, t);
    }
    if t :| t in log && PaysOut(t) {
      Listed(log, value, asOf, t);
    }
    assert flows[|e|].amount == value;
  }

  lemma {:induction false} Listed(log: seq<Transaction>, value: real, asOf: Instant, t: Transaction)
    requires ValidLog(log) && t in log && (PaysIn(t) || PaysOut(t))
    ensures var flows := ExtractFlows(log) + [Flow(asOf, value)];
      exists i :: 0 <= i < |flows| - 1 && |FlowOf(t)| == 1 && flows[i] == FlowOf(t)[0]
        && flows[i].date == t.date && (PaysIn(t) ==> flows[i].amount < 0.0) && (PaysOut(t) ==> flows[i].amount > 0.0)
  {
    FlowIsListed(log, t);
    FlowOfExternal(t);
    var e := ExtractFlows(log);
    var i :| 0 <= i < |e| && e[i] == FlowOf(t)[0];
    assert (e + [Flow(asOf, value)])[i] == e[i];
  }

  lemma {:induction false} MomentsOfFlows(log: seq<Transaction>, value: real, asOf: Instant)
    requires ValidLog(log)
    ensures AllAtOnce(ExtractFlows(log) + [Flow(asOf, value)]) <==> !MovesEarlier(log, asOf)
  {
    var e := ExtractFlows(log);
    var flows := e + [Flow(asOf, value)];
    AllAtOnceMeaning(flows);
    if t :| t in log && (PaysIn(t) || PaysOut(t)) && t.date != asOf {
      Listed(log, value, asOf, t);
      assert flows[|e|].date == asOf;
    } else {
      forall i | 0 <= i < |e| ensures flows[i].date == asOf {
        var t := SourceOf(log, e[i]);
      }
    }
  }

  /** Capital moved at this moment only, or nothing was put in, or nothing came out or is left. */
  predicate FallsShort(log: seq<Transaction>, value: real, asOf: Instant) {
    || !MovesEarlier(log, asOf)
    || ((forall t :: t in log ==> !PaysIn(t)) && value >= 0.0)
    || ((forall t :: t in log ==> !PaysOut(t)) && value <= 0.0)
  }

  /** Which status a portfolio gets, in terms of its log and its current value. */
  lemma {:induction false} StatusMeaning(g: real -> real, portfolio: Portfolio, positions: seq<Position>, asOf: Instant,
      r: MwrResult)
    requires IsDailyGrowth(g) && ValidLog(portfolio.transactions) && IsResultFor(g, portfolio, positions, asOf, r)
    ensures var log, value := portfolio.transactions, Worth(portfolio, positions);
      && (r.status.NoFlows? <==> forall t :: t in log ==> !PaysIn(t) && !PaysOut(t))
      && (r.status.TooLittleData? <==> !r.status.NoFlows? && FallsShort(log, value, asOf))
  {
    var log, value := portfolio.transactions, CurrentValue(portfolio, positions);
    NoExternalFlows(log);
    SignsOfFlows(log, value, asOf);
    MomentsOfFlows(log, value, asOf);
  }

  function External(): Transaction -> bool { (t: Transaction) => PaysIn(t) || PaysOut(t) }

  lemma {:induction false} FlowsCounted(log: seq<Transaction>)
    requires ValidLog(log)
    ensures |ExtractFlows(log)| == |Filter(External(), log)|
  {
    if log != [] {
      FlowsCounted(log[..|log| - 1]);
      FlowOfExternal(log[|log| - 1]);
    }
  }

  /** The count is that of the transactions that pay in or out, and one for the current value; or zero without any. */
  lemma {:induction false} CountMeaning(g: real -> real, portfolio: Portfolio, positions: seq<Position>, asOf: Instant,
      r: MwrResult)
    requires IsDailyGrowth(g) && ValidLog(portfolio.transactions) && IsResultFor(g, portfolio, positions, asOf, r)
    ensures var n := |Filter(External(), portfolio.transactions)|; r.cashFlowCount == if n == 0 then 0 else n + 1
  {
    FlowsCounted(portfolio.transactions);
  }

  /** A portfolio that was only paid into and is worth something at a later moment is never short of data. */
  lemma {:induction false} PaidInIsEnough(g: real -> real, portfolio: Portfolio, positions: seq<Position>,
      asOf: Instant, r: MwrResult, t: Transaction)
    requires IsDailyGrowth(g) && ValidLog(portfolio.transactions) && IsResultFor(g, portfolio, positions, asOf, r)
    requires t in portfolio.transactions && PaysIn(t) && t.date < asOf
    requires forall u :: u in portfolio.transactions ==> !PaysOut(u)
    requires Worth(portfolio, positions) > 0.0
    ensures r.status.Solved? || r.status.NoRate?
  {
    StatusMeaning(g, portfolio, positions, asOf, r);
  }

  // ---------- what the rate means for the portfolio ----------

  /** No flow and no valuation is earlier than `t0`, and one of them is then. */
  predicate IsStart(t0: Instant, flows: seq<Flow>, asOf: Instant) {
    && t0 <= asOf && (forall f :: f in flows ==> t0 <= f.date)
    && (t0 == asOf || exists f :: f in flows && f.date == t0)
  }

  function WholeDays(t0: Instant, t1: Instant): nat
    requires t0 <= t1
  {
    (t1 - t0) / 86_400_000_000
  }

  /** What a value that many days later is worth, at a daily growth of `x`. */
  function Later(x: Positive, value: real, days: nat): real { value / Pow(x, days) }

  /** The value of the external flows at a rate, and the current value discounted from `asOf`. */
  function ValueAtRate(g: real -> real, e: seq<Flow>, value: real, t0: Instant, asOf: Instant, rate: real): real
    requires IsStart(t0, e, asOf) && rate > -1.0 && g(rate) > 0.0
  {
    NetPresentValue(g, rate, InDays(e, t0)) + Later(g(rate), value, WholeDays(t0, asOf))
  }

  lemma {:induction false} EarliestIsStart(e: seq<Flow>, value: real, asOf: Instant, t0: Instant)
    requires IsStart(t0, e, asOf)
    ensures EarliestDate(e + [Flow(asOf, value)]) == t0
  {
    var flows := e + [Flow(asOf, value)];
    assert flows[|e|].date == asOf;
    if t0 != asOf {
      var f :| f in e && f.date == t0;
      var i :| 0 <= i < |e| && e[i] == f;
      assert flows[i].date == t0;
    }
    var k :| 0 <= k < |flows| && flows[k].date == EarliestDate(flows);
    assert k < |e| ==> e[k] in e;
  }

  lemma {:induction false} DaysApart(e: seq<Flow>, last: Flow, t0: Instant)
    requires t0 <= last.date && forall i :: 0 <= i < |e| ==> t0 <= e[i].date
    ensures InDays(e + [last], t0) == InDays(e, t0) + [CashFlow(WholeDays(t0, last.date), last.amount)]
  {}

  lemma {:induction false} DatedEnd(e: seq<Flow>, value: real, asOf: Instant, t0: Instant)
    requires IsStart(t0, e, asOf)
    ensures Dated(e + [Flow(asOf, value)]) == InDays(e, t0) + [CashFlow(WholeDays(t0, asOf), value)]
  {
    EarliestIsStart(e, value, asOf, t0);
    DaysApart(e, Flow(asOf, value), t0);
  }

  lemma {:induction false} OneMoreFlow(g: real -> real, rate: real, c: seq<CashFlow>, last: CashFlow)
    requires rate > -1.0 && g(rate) > 0.0
    ensures NetPresentValue(g, rate, c + [last]) == NetPresentValue(g, rate, c) + Later(g(rate), last.amount, last.days)
  {
    assert (c + [last])[..|c|] == c;
  }

  lemma {:induction false} ValueOfAll(g: real -> real, e: seq<Flow>, value: real, t0: Instant, asOf: Instant,
      rate: real)
    requires IsStart(t0, e, asOf) && rate > -1.0 && g(rate) > 0.0
    ensures NetPresentValue(g, rate, Dated(e + [Flow(asOf, value)])) == ValueAtRate(g, e, value, t0, asOf, rate)
  {
    DatedEnd(e, value, asOf, t0);
    OneMoreFlow(g, rate, InDays(e, t0), CashFlow(WholeDays(t0, asOf), value));
  }

  lemma {:induction false} TerminalFlow(portfolio: Portfolio, positions: seq<Position>, asOf: Instant)
    requires ValidLog(portfolio.transactions)
    ensures WithTerminalValue(portfolio, positions, asOf)
      == ExtractFlows(portfolio.transactions) + [Flow(asOf, Worth(portfolio, positions))]
  {}

  /** The reported percentage is 100 times a rate that the solver found for flows which at every rate are worth what the
      external flows and the discounted current value are. */
  lemma {:induction false} ReportedRateSolves(g: real -> real, portfolio: Portfolio, positions: seq<Position>,
      asOf: Instant, t0: Instant, r: MwrResult) returns (flows: seq<CashFlow>, root: Root)
    requires IsDailyGrowth(g) && ValidLog(portfolio.transactions) && IsResultFor(g, portfolio, positions, asOf, r)
    requires r.ratePct.Some? && IsStart(t0, ExtractFlows(portfolio.transactions), asOf)
    ensures IsAnswer(g, flows, 0.1, root)
    ensures -0.00005 <= r.ratePct.value - 100.0 * root.rate <= 0.00005
    ensures forall rate :: rate > -1.0 && g(rate) > 0.0 ==>
      NetPresentValue(g, rate, flows)
      == ValueAtRate(g, ExtractFlows(portfolio.transactions), Worth(portfolio, positions), t0, asOf, rate)
  {
    var e, value := ExtractFlows(portfolio.transactions), Worth(portfolio, positions);
    TerminalFlow(portfolio, positions, asOf);
    flows := Dated(e + [Flow(asOf, value)]);
    root := RootReported(g, flows, r);
    forall rate | rate > -1.0 && g(rate) > 0.0
      ensures NetPresentValue(g, rate, flows) == ValueAtRate(g, e, value, t0, asOf, rate)
    {
      ValueOfAll(g, e, value, t0, asOf, rate);
    }
  }

  lemma {:induction false} RootReported(g: real -> real, flows: seq<CashFlow>, r: MwrResult) returns (root: Root)
    requires IsDailyGrowth(g) && ReportsRate(g, flows, r) && r.ratePct.Some?
    ensures IsAnswer(g, flows, 0.1, root)
    ensures -0.00005 <= r.ratePct.value - 100.0 * root.rate <= 0.00005
  {
    root :| r.ratePct == Some(RatePct(root.rate)) && IsAnswer(g, flows, DEFAULT_GUESS, root);
    RoundedClose(root.rate * 100.0);
  }

  lemma {:induction false} GrownDeposit(d: real, v: real, rate: real)
    requires d > 0.0 && v > 0.0 && rate > -1.0
    ensures -d + v / (1.0 + rate) == 0.0 <==> rate == v / d - 1.0
  {
    DivTimes(v, 1.0 + rate);
    DivTimes(v, d);
    if rate == v / d - 1.0 {
      MulCancel(v / (1.0 + rate), d, 1.0 + rate);
    }
    if v / (1.0 + rate) == d {
      MulCancel(1.0 + rate, v / d, d);
    }
  }

  lemma {:induction false} OneYearLater(g: real -> real, value: real, rate: real)
    requires IsDailyGrowth(g) && rate > -1.0
    ensures Later(g(rate), value, 365) == value / (1.0 + rate)
  {}

  lemma {:induction false} DepositValue(g: real -> real, t: Instant, amount: real, value: real, rate: real)
    requires IsDailyGrowth(g) && rate > -1.0
    ensures var e, asOf := [Flow(t, -amount)], t + 365 * 86_400_000_000;
      IsStart(t, e, asOf) && ValueAtRate(g, e, value, t, asOf, rate) == -amount + value / (1.0 + rate)
  {
    var e := [Flow(t, -amount)];
    assert e[0] in e;
    assert InDays(e, t) == [CashFlow(0, -amount)];
    OneFlowToday(g, rate, -amount);
    assert WholeDays(t, t + 365 * 86_400_000_000) == 365;
    OneYearLater(g, value, rate);
  }

  lemma {:induction false} OneFlowToday(g: real -> real, rate: real, amount: real)
    requires rate > -1.0 && g(rate) > 0.0
    ensures NetPresentValue(g, rate, [CashFlow(0, amount)]) == amount
  {
    SumOfOne(Discounted(g(rate)), CashFlow(0, amount));
    assert Pow(g(rate), 0) == 1.0;
  }

  lemma {:induction false} OneDeposit(deposit: Transaction)
    requires ValidTransaction(deposit) && deposit.kind.Deposit?
    ensures ExtractFlows([deposit]) == [Flow(deposit.date, -deposit.amount)]
  {
    assert [deposit][..0] == [];
  }

  /** A single deposit that was made 365 days ago is solved by exactly one rate: what it is worth now over what it was,
      less one. */
  lemma {:induction false} OneDepositOneYear(g: real -> real, deposit: Transaction, value: real, rate: real)
    requires IsDailyGrowth(g) && ValidTransaction(deposit) && deposit.kind.Deposit?
    requires rate > -1.0 && value > 0.0
    ensures var asOf := deposit.date + 365 * 86_400_000_000;
      IsStart(deposit.date, ExtractFlows([deposit]), asOf)
      && (ValueAtRate(g, ExtractFlows([deposit]), value, deposit.date, asOf, rate) == 0.0
          <==> rate == value / deposit.amount - 1.0)
  {
    OneDeposit(deposit);
    DepositValue(g, deposit.date, deposit.amount, value, rate);
    GrownDeposit(deposit.amount, value, rate);
  }

  /** The guard compares moments, the solver counts whole days: flows at different moments of less than a day pass
      the guard although no rate relates them. The answer is then the initial guess if they balance, and no rate
      otherwise. */
  lemma {:induction false} WithinADayIsNotARate(g: real -> real, flows: seq<Flow>)
    requires IsDailyGrowth(g) && flows != []
    requires forall i :: 0 <= i < |flows| ==> flows[i].date < EarliestDate(flows) + MICROS_PER_DAY
    ensures Abs(SumBy(AmountOf(), Dated(flows))) < 0.0000001 ==>
      NewtonFinds(g, Dated(flows), 0.1, Root(0.1, 1))
    ensures Abs(SumBy(AmountOf(), Dated(flows))) >= 0.0000001 ==> NoRateFound(g, Dated(flows), 0.1)
  {
    var dated := Dated(flows);
    forall c | c in dated ensures c.days == 0 {
      var i :| 0 <= i < |dated| && dated[i] == c;
      assert 0 <= flows[i].date - EarliestDate(flows) < MICROS_PER_DAY;
    }
    WithinOneDayOutcome(g, dated, DEFAULT_GUESS);
  }
}
