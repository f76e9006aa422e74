/** engine/calculators/twr_calculator.py: the period returns compounded into one
    cumulative figure, and the laws the figure obeys. */
module TimeWeighted {
  import opened AnnualReturn
  import opened CashFlows
  import opened Models
  import opened PeriodReturns
  import opened Products
  import opened Rounding
  import opened Sequences
  import opened Sorting
  import opened Wrappers

  function Compound(p: seq<PeriodReturn>): real {
    if p == [] then 1.0 else Times(Compound(p[..|p| - 1]), 1.0 + p[|p| - 1].fraction)
  }

  /** The status, and the cumulative growth factor when every period is computable. */
  datatype Twr = Twr(status: Status, growth: Option<real>)

  function TwrOf(b: seq<Boundary>, flows: seq<Flow>): Twr {
    var r := BucketedReturns(b, flows);
    Twr(r.status, if r.status.Computed? then Some(Compound(r.periods)) else None)
  }

  /** `TwrResult`: the percentages are rounded to four places. */
  datatype TwrResult = TwrResult(status: Status, twrPct: Option<real>, annualizedPct: Option<real>, periodsUsed: nat)

  function GrowthPct(growth: real): real { RoundTo((growth - 1.0) * 100.0, SCALE_4) }

  /** What is reported for a growth over so many whole days; `h` takes the powers. */
  function Reported(h: (real, nat) -> real, growth: real, days: int, periodsUsed: nat): Result<TwrResult, PowerError> {
    if days <= 0 then Success(TwrResult(Computed, Some(GrowthPct(growth)), None, periodsUsed))
    else match YearlyFactor(h, growth, days)
      case Failure(e) => Failure(e)
      case Success(yearly) =>
        Success(TwrResult(Computed, Some(GrowthPct(growth)), Some(GrowthPct(yearly)), periodsUsed))
  }

  /** Whole days from the start of the first period to the end of the last. */
  function ElapsedDays(p: seq<PeriodReturn>): int
    requires p != []
  {
    (p[|p| - 1].end - p[0].start) / MICROS_PER_DAY
  }

  /** The outcome for a series of periods, if there is one. */
  function ReportOf(h: (real, nat) -> real, result: PeriodReturnsResult): Result<TwrResult, PowerError> {
    var p := result.periods;
    if !result.status.Computed? || p == [] then Success(TwrResult(result.status, None, None, |p|))
    else Reported(h, Compound(p), ElapsedDays(p), |p|)
  }

  method CompoundPeriods(p: seq<PeriodReturn>) returns (cumulative: real)
    ensures cumulative == Compound(p)
  {
    cumulative := 1.0;
    var i := 0;
    while i < |p|
      invariant 0 <= i <= |p|
      invariant cumulative == Compound(p[..i])
    {
      assert p[..i + 1][..i] == p[..i];
      cumulative := Times(cumulative, 1.0 + p[i].fraction);
      i := i + 1;
    }
    assert p[..i] == p;
  }

  method Annualize(h: (real, nat) -> real, cumulative: real, elapsedDays: int, periodsUsed: nat)
    returns (r: Result<TwrResult, PowerError>)
    ensures r == Reported(h, cumulative, elapsedDays, periodsUsed)
  {
    var annualizedPct := None;
    if elapsedDays > 0 {
      var yearly := YearlyFactor(h, cumulative, elapsedDays);
      if yearly.Failure? {
        return Failure(yearly.error);
      }
      annualizedPct := Some(GrowthPct(yearly.value));
    }
    r := Success(TwrResult(Computed, Some(GrowthPct(cumulative)), annualizedPct, periodsUsed));
  }

  method ReportOn(h: (real, nat) -> real, result: PeriodReturnsResult) returns (r: Result<TwrResult, PowerError>)
    requires result.status.Computed? ==> result.periods != []
    ensures r == ReportOf(h, result)
  {
    if !result.status.Computed? {
      return Success(TwrResult(result.status, None, None, |result.periods|));
    }
    var cumulative := CompoundPeriods(result.periods);
    r := Annualize(h, cumulative, ElapsedDays(result.periods), |result.periods|);
  }

  /** `calculate` */
  method Calculate(h: (real, nat) -> real, portfolio: Portfolio, positions: seq<Position>, asOf: Instant)
    returns (r: Result<TwrResult, PowerError>)
    requires ValidLog(portfolio.transactions)
    ensures r == ReportOf(h, BucketedReturns(
      Boundaries(portfolio.snapshots, CurrentValue(portfolio, positions), asOf),
      ExtractFlows(portfolio.transactions)))
  {
    var result := ComputePeriodReturns(portfolio, positions, asOf);
    PeriodsMeaning(Boundaries(portfolio.snapshots, CurrentValue(portfolio, positions), asOf),
                   ExtractFlows(portfolio.transactions));
    r := ReportOn(h, result);
  }

  // ---------- growth as a product over neighbouring boundaries ----------

  function Factor(b0: Boundary, b1: Boundary, flows: seq<Flow>): real
    requires b0.value > 0.0
  {
    (b1.value - Injection(flows, b0.time, b1.time)) / b0.value
  }

  predicate Usable(b: seq<Boundary>) {
    forall i :: 0 <= i < |b| - 1 ==> b[i].value > 0.0
  }

  function Factors(b: seq<Boundary>, flows: seq<Flow>): (f: seq<real>)
    requires |b| >= 1 && Usable(b)
    ensures |f| == |b| - 1
    ensures forall i :: 0 <= i < |f| ==> f[i] == Factor(b[i], b[i + 1], flows)
  {
    if |b| == 1 then [] else Factors(b[..|b| - 1], flows) + [Factor(b[|b| - 2], b[|b| - 1], flows)]
  }

  function Growth(b: seq<Boundary>, flows: seq<Flow>): real
    requires |b| >= 1 && Usable(b)
  {
    Product(Factors(b, flows))
  }

  lemma {:induction false} OnePlusFraction(b0: Boundary, b1: Boundary, flows: seq<Flow>)
    requires b0.value > 0.0
    ensures 1.0 + PeriodBetween(b0, b1, flows).fraction == Factor(b0, b1, flows)
  {}

  lemma {:induction false} CompoundIsProduct(p: seq<PeriodReturn>, f: seq<real>)
    requires |p| == |f| && forall i :: 0 <= i < |p| ==> 1.0 + p[i].fraction == f[i]
    ensures Compound(p) == Product(f)
  {
    if p != [] {
      CompoundIsProduct(p[..|p| - 1], f[..|f| - 1]);
    }
  }

  lemma {:induction false} TwrMeaning(b: seq<Boundary>, flows: seq<Flow>)
    ensures TwrOf(b, flows).growth.Some? <==> |b| >= 2 && Usable(b)
    ensures |b| >= 2 && Usable(b) ==> TwrOf(b, flows) == Twr(Computed, Some(Growth(b, flows)))
  {
    PeriodsMeaning(b, flows);
    if |b| >= 2 && Usable(b) {
      FirstUnusable(b, |b| - 1);
      var p, f := BucketedPeriods(b, flows, |b| - 1), Factors(b, flows);
      forall i | 0 <= i < |p| ensures 1.0 + p[i].fraction == f[i] {
        OnePlusFraction(b[i], b[i + 1], flows);
      }
      CompoundIsProduct(p, f);
    }
  }

  lemma {:induction false} FactorsCompose(b0: Boundary, m: Boundary, b1: Boundary, flows: seq<Flow>)
    requires b0.value > 0.0 && m.value > 0.0 && b0.time <= m.time <= b1.time
    requires Injection(flows, b0.time, m.time) == 0.0
    ensures Times(Factor(b0, m, flows), Factor(m, b1, flows)) == Factor(b0, b1, flows)
  {
    InjectionAdds(flows, b0.time, m.time, b1.time);
    QuotientsCompose(m.value, b0.value, b1.value - Injection(flows, b0.time, b1.time));
  }

  // ---------- the laws of the cumulative return ----------

  /** `b` with `m` inserted after its first `k` boundaries. */
  function InsertAt(b: seq<Boundary>, k: nat, m: Boundary): seq<Boundary>
    requires k <= |b|
  {
    b[..k] + [m] + b[k..]
  }

  lemma {:induction false} InsertAtIndex(b: seq<Boundary>, k: nat, m: Boundary)
    requires k <= |b|
    ensures |InsertAt(b, k, m)| == |b| + 1
    ensures forall i {:trigger InsertAt(b, k, m)[i]} :: 0 <= i <= |b| ==>
      InsertAt(b, k, m)[i] == if i < k then b[i] else if i == k then m else b[i - 1]
  {}

  lemma {:induction false} NeutralUsable(b: seq<Boundary>, k: nat, m: Boundary)
    requires 0 < k < |b| && m.value > 0.0
    ensures Usable(InsertAt(b, k, m)) <==> Usable(b)
  {
    var x := InsertAt(b, k, m);
    InsertAtIndex(b, k, m);
    if Usable(x) {
      forall i | 0 <= i < |b| - 1 ensures b[i].value > 0.0 {
        assert x[if i < k then i else i + 1] == b[i];
      }
    }
  }

  /** Which factors the insertion leaves as they were. */
  lemma {:induction false} OtherFactors(b: seq<Boundary>, k: nat, m: Boundary, flows: seq<Flow>)
    requires 0 < k < |b| && Usable(b) && Usable(InsertAt(b, k, m))
    ensures |InsertAt(b, k, m)| == |b| + 1
    ensures forall i :: 0 <= i < k - 1 ==> Factors(InsertAt(b, k, m), flows)[i] == Factors(b, flows)[i]
    ensures Factors(InsertAt(b, k, m), flows)[k + 1..] == Factors(b, flows)[k..]
  {
    var x := InsertAt(b, k, m);
    InsertAtIndex(b, k, m);
    var f, g := Factors(b, flows), Factors(x, flows);
    forall i | 0 <= i < k - 1 ensures g[i] == f[i] {
      assert g[i] == Factor(x[i], x[i + 1], flows);
    }
    forall i | 0 <= i < |f| - k ensures g[k + 1..][i] == f[k..][i] {
      assert g[k + 1 + i] == Factor(x[k + 1 + i], x[k + 2 + i], flows);
    }
  }

  lemma {:induction false} NeutralGrowth(b: seq<Boundary>, k: nat, m: Boundary, flows: seq<Flow>)
    requires 0 < k < |b| && Usable(b) && Usable(InsertAt(b, k, m))
    requires m.value > 0.0 && b[k - 1].time <= m.time <= b[k].time
    requires Injection(flows, b[k - 1].time, m.time) == 0.0
    ensures Growth(InsertAt(b, k, m), flows) == Growth(b, flows)
  {
    var x := InsertAt(b, k, m);
    InsertAtIndex(b, k, m);
    var f, g := Factors(b, flows), Factors(x, flows);
    var f1, f2 := Factor(b[k - 1], m, flows), Factor(m, b[k], flows);
    OtherFactors(b, k, m, flows);
    FactorsCompose(b[k - 1], m, b[k], flows);
    assert f[k - 1] == Factor(b[k - 1], b[k], flows);
    assert g[k - 1] == Factor(x[k - 1], x[k], flows) && g[k] == Factor(x[k], x[k + 1], flows);
    ProductTwoForOne(f, g, k - 1, f1, f2);
  }

  /** A positive value recorded inside a period, before any flow of that period, changes
      neither the status nor the cumulative return. */
  lemma {:induction false} NeutralBoundary(b: seq<Boundary>, k: nat, m: Boundary, flows: seq<Flow>)
    requires 0 < k < |b| && m.value > 0.0 && b[k - 1].time <= m.time <= b[k].time
    requires Injection(flows, b[k - 1].time, m.time) == 0.0
    ensures TwrOf(InsertAt(b, k, m), flows) == TwrOf(b, flows)
  {
    var x := InsertAt(b, k, m);
    NeutralUsable(b, k, m);
    TwrMeaning(x, flows);
    TwrMeaning(b, flows);
    PeriodsMeaning(x, flows);
    PeriodsMeaning(b, flows);
    if Usable(b) {
      NeutralGrowth(b, k, m, flows);
    }
  }

  /** The same outcome, but for the number of periods. */
  predicate SameFigures(a: Result<TwrResult, PowerError>, b: Result<TwrResult, PowerError>) {
    match (a, b)
    case (Success(x), Success(y)) => x.(periodsUsed := y.periodsUsed) == y
    case (Failure(d), Failure(e)) => d == e
    case _ => false
  }

  predicate SameEnds(p: seq<PeriodReturn>, q: seq<PeriodReturn>) {
    p != [] && q != [] && p[0].start == q[0].start && p[|p| - 1].end == q[|q| - 1].end
  }

  /** The same status, growth and span. */
  predicate SameSpan(r: PeriodReturnsResult, q: PeriodReturnsResult) {
    && r.status == q.status
    && (r.status.Computed? ==> Compound(r.periods) == Compound(q.periods) && SameEnds(r.periods, q.periods))
  }

  lemma {:induction false} SameSpanSameFigures(h: (real, nat) -> real, r: PeriodReturnsResult, q: PeriodReturnsResult)
    requires SameSpan(r, q)
    ensures SameFigures(ReportOf(h, r), ReportOf(h, q))
  {
    if r.status.Computed? {
      assert ElapsedDays(r.periods) == ElapsedDays(q.periods);
    }
  }

  lemma {:induction false} NeutralSpan(b: seq<Boundary>, k: nat, m: Boundary, flows: seq<Flow>)
    requires 0 < k < |b| && m.value > 0.0 && b[k - 1].time <= m.time <= b[k].time
    requires Injection(flows, b[k - 1].time, m.time) == 0.0
    ensures SameSpan(BucketedReturns(InsertAt(b, k, m), flows), BucketedReturns(b, flows))
  {
    NeutralBoundary(b, k, m, flows);
    SameTwrSameGrowth(InsertAt(b, k, m), b, flows);
    if BucketedReturns(b, flows).status.Computed? {
      InsertAtIndex(b, k, m);
      ComputedEnds(InsertAt(b, k, m), b, flows);
    }
  }

  lemma {:induction false} SameTwrSameGrowth(x: seq<Boundary>, b: seq<Boundary>, flows: seq<Flow>)
    requires TwrOf(x, flows) == TwrOf(b, flows)
    ensures BucketedReturns(x, flows).status == BucketedReturns(b, flows).status
    ensures BucketedReturns(b, flows).status.Computed? ==>
      Compound(BucketedReturns(x, flows).periods) == Compound(BucketedReturns(b, flows).periods)
  {}

  lemma {:induction false} ComputedEnds(x: seq<Boundary>, b: seq<Boundary>, flows: seq<Flow>)
    requires BucketedReturns(x, flows).status.Computed? && BucketedReturns(b, flows).status.Computed?
    requires x[0].time == b[0].time && x[|x| - 1].time == b[|b| - 1].time
    ensures SameEnds(BucketedReturns(x, flows).periods, BucketedReturns(b, flows).periods)
  {
    SpanOfPeriods(x, flows);
    SpanOfPeriods(b, flows);
  }

  /** Nor does it change the annualised figure, or whether the calculation raises. */
  lemma {:induction false} NeutralReport(h: (real, nat) -> real, b: seq<Boundary>, k: nat, m: Boundary,
      flows: seq<Flow>)
    requires 0 < k < |b| && m.value > 0.0 && b[k - 1].time <= m.time <= b[k].time
    requires Injection(flows, b[k - 1].time, m.time) == 0.0
    ensures SameFigures(ReportOf(h, BucketedReturns(InsertAt(b, k, m), flows)), ReportOf(h, BucketedReturns(b, flows)))
  {
    NeutralSpan(b, k, m, flows);
    SameSpanSameFigures(h, BucketedReturns(InsertAt(b, k, m), flows), BucketedReturns(b, flows));
  }

  // ---------- the same laws on portfolios ----------

  /** The period returns of a portfolio, from which everything is reported. */
  function PortfolioReturns(snapshots: seq<Snapshot>, log: seq<Transaction>, currentValue: real, asOf: Instant):
      PeriodReturnsResult
    requires ValidLog(log)
  {
    BucketedReturns(Boundaries(snapshots, currentValue, asOf), ExtractFlows(log))
  }

  /** The cumulative return of a portfolio. */
  function PortfolioTwr(snapshots: seq<Snapshot>, log: seq<Transaction>, currentValue: real, asOf: Instant): Twr
    requires ValidLog(log)
  {
    TwrOf(Boundaries(snapshots, currentValue, asOf), ExtractFlows(log))
  }

  /** Where one more snapshot lands among the snapshots up to `asOf`. */
  lemma {:induction false} SnapshotLands(a: seq<Snapshot>, s: Snapshot, c: seq<Snapshot>, asOf: Instant)
      returns (k: nat)
    requires s.timestamp <= asOf
    ensures var before := SnapshotsUpTo(a + c, asOf);
      && k <= |before| && SnapshotsUpTo(a + [s] + c, asOf) == before[..k] + [s] + before[k..]
      && (forall i :: 0 <= i < k ==> before[i].timestamp <= s.timestamp)
      && (forall i :: k <= i < |before| ==> s.timestamp <= before[i].timestamp)
  {
    var p := NotAfter(asOf);
    FilterAround(p, a, s, c);
    k := StableSortInsertion(ByTimestamp(), Filter(p, a), s, Filter(p, c));
    var before := SnapshotsUpTo(a + c, asOf);
    assert forall i :: 0 <= i < k ==> ByTimestamp()(before[i]) <= ByTimestamp()(s);
    assert forall i :: k <= i < |before| ==> ByTimestamp()(s) <= ByTimestamp()(before[i]);
  }

  /** Recording one more positive snapshot before `asOf` leaves the cumulative return and the span alone, if every flow
      up to that moment is already followed by a strictly earlier snapshot. */
  lemma {:induction false} NeutralSnapshot(a: seq<Snapshot>, s: Snapshot, c: seq<Snapshot>, log: seq<Transaction>,
      currentValue: real, asOf: Instant)
    requires ValidLog(log)
    requires s.portfolioValue > 0.0 && s.timestamp < asOf
    requires exists p :: p in a + c && p.timestamp < s.timestamp
    requires forall f :: f in ExtractFlows(log) && f.date <= s.timestamp ==>
      exists p :: p in a + c && f.date <= p.timestamp < s.timestamp
    ensures PortfolioTwr(a + [s] + c, log, currentValue, asOf) == PortfolioTwr(a + c, log, currentValue, asOf)
    ensures SameSpan(PortfolioReturns(a + [s] + c, log, currentValue, asOf),
                     PortfolioReturns(a + c, log, currentValue, asOf))
  {
    var k := SnapshotLands(a, s, c, asOf);
    var before := SnapshotsUpTo(a + c, asOf);
    SnapshotsUpToOrdered(a + c, asOf);
    EarlierStandsBefore(a + c, s, asOf, k);
    var b := Boundaries(a + c, currentValue, asOf);
    BoundariesChronological(a + c, currentValue, asOf);
    LandsInside(before, s, k, currentValue, asOf);
    var flows := ExtractFlows(log);
    CoveredByEarlier(a + c, s, before[k - 1].timestamp, flows);
    NeutralBoundary(b, k, BoundaryOf(s), flows);
    NeutralSpan(b, k, BoundaryOf(s), flows);
  }

  /** So it leaves the whole report alone, but for the number of periods. */
  lemma {:induction false} NeutralSnapshotReport(h: (real, nat) -> real, a: seq<Snapshot>, s: Snapshot,
      c: seq<Snapshot>, log: seq<Transaction>, currentValue: real, asOf: Instant)
    requires ValidLog(log)
    requires s.portfolioValue > 0.0 && s.timestamp < asOf
    requires exists p :: p in a + c && p.timestamp < s.timestamp
    requires forall f :: f in ExtractFlows(log) && f.date <= s.timestamp ==>
      exists p :: p in a + c && f.date <= p.timestamp < s.timestamp
    ensures SameFigures(ReportOf(h, PortfolioReturns(a + [s] + c, log, currentValue, asOf)),
                        ReportOf(h, PortfolioReturns(a + c, log, currentValue, asOf)))
  {
    NeutralSnapshot(a, s, c, log, currentValue, asOf);
    SameSpanSameFigures(h, PortfolioReturns(a + [s] + c, log, currentValue, asOf),
                        PortfolioReturns(a + c, log, currentValue, asOf));
  }

  /** No flow is left between the latest earlier snapshot and `s`. */
  lemma {:induction false} CoveredByEarlier(all: seq<Snapshot>, s: Snapshot, latest: Instant, flows: seq<Flow>)
    requires forall p :: p in all && p.timestamp < s.timestamp ==> p.timestamp <= latest
    requires forall f :: f in flows && f.date <= s.timestamp ==>
      exists p :: p in all && f.date <= p.timestamp < s.timestamp
    ensures Injection(flows, latest, s.timestamp) == 0.0
  {
    forall f | f in flows ensures !(latest < f.date <= s.timestamp) {
      if f.date <= s.timestamp {
        var p :| p in all && f.date <= p.timestamp < s.timestamp;
      }
    }
    OutsideWindow(flows, latest, s.timestamp);
  }

  lemma {:induction false} EarlierStandsBefore(all: seq<Snapshot>, s: Snapshot, asOf: Instant, k: nat)
    requires s.timestamp <= asOf && k <= |SnapshotsUpTo(all, asOf)|
    requires forall i :: k <= i < |SnapshotsUpTo(all, asOf)| ==> s.timestamp <= SnapshotsUpTo(all, asOf)[i].timestamp
    ensures forall p :: p in all && p.timestamp < s.timestamp ==>
      k > 0 && p.timestamp <= SnapshotsUpTo(all, asOf)[k - 1].timestamp
  {
    SnapshotsUpToOrdered(all, asOf);
    var before := SnapshotsUpTo(all, asOf);
    forall p | p in all && p.timestamp < s.timestamp
      ensures k > 0 && p.timestamp <= before[k - 1].timestamp
    {
      assert p in before;
      var i :| 0 <= i < |before| && before[i] == p;
      assert i < k;
      if i < k - 1 {
        assert ByTimestamp()(before[i]) <= ByTimestamp()(before[k - 1]);
      }
    }
  }

  lemma {:induction false} ToBoundariesInsert(before: seq<Snapshot>, s: Snapshot, k: nat, tail: seq<Boundary>)
    requires k <= |before|
    ensures ToBoundaries(before[..k] + [s] + before[k..]) + tail
      == InsertAt(ToBoundaries(before) + tail, k, BoundaryOf(s))
  {
    var after := before[..k] + [s] + before[k..];
    var x, y := ToBoundaries(after) + tail, InsertAt(ToBoundaries(before) + tail, k, BoundaryOf(s));
    InsertAtIndex(ToBoundaries(before) + tail, k, BoundaryOf(s));
    forall i | 0 <= i < |x| ensures x[i] == y[i] {
      if i < |after| {
        assert x[i] == BoundaryOf(after[i]);
      }
    }
  }

  /** The closing boundary that `Boundaries` adds. */
  function Closing(s: seq<Snapshot>, currentValue: real, asOf: Instant): seq<Boundary>
    requires s != []
  {
    if asOf > s[|s| - 1].timestamp then [Boundary(asOf, currentValue)] else []
  }

  lemma {:induction false} LandsInside(before: seq<Snapshot>, s: Snapshot, k: nat, currentValue: real, asOf: Instant)
    requires 0 < k <= |before| && s.timestamp < asOf
    requires forall i :: 0 <= i < k ==> before[i].timestamp <= s.timestamp
    requires forall i :: k <= i < |before| ==> s.timestamp <= before[i].timestamp
    ensures var after := before[..k] + [s] + before[k..];
      var b := ToBoundaries(before) + Closing(before, currentValue, asOf);
      && k < |b| && b[k - 1].time == before[k - 1].timestamp <= s.timestamp <= b[k].time
      && ToBoundaries(after) + Closing(after, currentValue, asOf) == InsertAt(b, k, BoundaryOf(s))
  {
    ToBoundariesInsert(before, s, k, Closing(before, currentValue, asOf));
    var after := before[..k] + [s] + before[k..];
    assert after[|after| - 1] == if k == |before| then s else before[|before| - 1];
  }

  lemma {:induction false} AllEarlier(snapshots: seq<Snapshot>, t: Instant)
    requires forall x :: x in snapshots ==> x.timestamp < t
    ensures forall i :: 0 <= i < |SnapshotsUpTo(snapshots, t)| ==> SnapshotsUpTo(snapshots, t)[i].timestamp < t
  {
    SnapshotsUpToOrdered(snapshots, t);
    var upTo := SnapshotsUpTo(snapshots, t);
    assert forall i :: 0 <= i < |upTo| ==> upTo[i] in upTo;
  }

  lemma {:induction false} LatestLandsLast(snapshots: seq<Snapshot>, s: Snapshot)
    requires forall x :: x in snapshots ==> x.timestamp < s.timestamp
    ensures SnapshotsUpTo(snapshots + [s], s.timestamp) == SnapshotsUpTo(snapshots, s.timestamp) + [s]
  {
    assert snapshots + [] == snapshots && snapshots + [s] + [] == snapshots + [s];
    var k := SnapshotLands(snapshots, s, [], s.timestamp);
    var before := SnapshotsUpTo(snapshots, s.timestamp);
    if k < |before| {
      assert s.timestamp <= before[k].timestamp;
    }
    AllEarlier(snapshots, s.timestamp);
    assert before[..k] == before && before[k..] == [];
  }

  lemma {:induction false} BoundariesOf(snapshots: seq<Snapshot>, upTo: seq<Snapshot>, currentValue: real,
      asOf: Instant)
    requires upTo == SnapshotsUpTo(snapshots, asOf) && upTo != []
    ensures Boundaries(snapshots, currentValue, asOf) == ToBoundaries(upTo) + Closing(upTo, currentValue, asOf)
  {}

  lemma {:induction false} ClosingByHand(before: seq<Snapshot>, s: Snapshot, other: real)
    requires before != [] && before[|before| - 1].timestamp < s.timestamp
    ensures ToBoundaries(before + [s]) + Closing(before + [s], other, s.timestamp)
      == ToBoundaries(before) + Closing(before, s.portfolioValue, s.timestamp)
  {
    assert ToBoundaries(before + [s]) == ToBoundaries(before) + [BoundaryOf(s)];
  }

  /** A snapshot of the current value, taken now, is redundant with the closing boundary of the same run. */
  lemma {:induction false} NewSnapshotRedundant(snapshots: seq<Snapshot>, s: Snapshot, log: seq<Transaction>,
      other: real)
    requires ValidLog(log)
    requires snapshots != [] && forall x :: x in snapshots ==> x.timestamp < s.timestamp
    ensures PortfolioReturns(snapshots + [s], log, other, s.timestamp)
      == PortfolioReturns(snapshots, log, s.portfolioValue, s.timestamp)
    ensures PortfolioTwr(snapshots + [s], log, other, s.timestamp)
      == PortfolioTwr(snapshots, log, s.portfolioValue, s.timestamp)
  {
    var before := SnapshotsUpTo(snapshots, s.timestamp);
    SnapshotsUpToOrdered(snapshots, s.timestamp);
    assert snapshots[0] in before;
    assert before[|before| - 1] in before;
    LatestLandsLast(snapshots, s);
    BoundariesOf(snapshots, before, s.portfolioValue, s.timestamp);
    BoundariesOf(snapshots + [s], before + [s], other, s.timestamp);
    ClosingByHand(before, s, other);
  }

  /** A BUY, SELL, DIVIDEND or FEE never changes the return, wherever it stands in the log. */
  lemma {:induction false} InternalTransactionNeutral(snapshots: seq<Snapshot>, a: seq<Transaction>,
      t: Transaction, c: seq<Transaction>, currentValue: real, asOf: Instant)
    requires ValidLog(a + [t] + c) && ValidLog(a + c)
    requires t.kind.Buy? || t.kind.Sell? || t.kind.Dividend? || t.kind.Fee?
    ensures PortfolioReturns(snapshots, a + [t] + c, currentValue, asOf)
      == PortfolioReturns(snapshots, a + c, currentValue, asOf)
    ensures PortfolioTwr(snapshots, a + [t] + c, currentValue, asOf)
      == PortfolioTwr(snapshots, a + c, currentValue, asOf)
  {
    InternalIgnored(a, t, c);
  }

  /** The order in which the log lists its transactions plays no part. */
  lemma {:induction false} LogOrderNeutral(snapshots: seq<Snapshot>, log: seq<Transaction>,
      other: seq<Transaction>, currentValue: real, asOf: Instant)
    requires ValidLog(log) && ValidLog(other) && multiset(log) == multiset(other)
    ensures PortfolioReturns(snapshots, log, currentValue, asOf)
      == PortfolioReturns(snapshots, other, currentValue, asOf)
    ensures PortfolioTwr(snapshots, log, currentValue, asOf) == PortfolioTwr(snapshots, other, currentValue, asOf)
  {
    ExtractPermutes(log, other);
    BucketedReturnsOrderFree(Boundaries(snapshots, currentValue, asOf), ExtractFlows(log), ExtractFlows(other));
  }

  function Values(b: seq<Boundary>): (v: seq<real>)
    ensures |v| == |b| && forall i :: 0 <= i < |b| ==> v[i] == b[i].value
  {
    if b == [] then [] else [b[0].value] + Values(b[1..])
  }

  lemma {:induction false} RatiosTelescope(b: seq<Boundary>)
    requires |b| >= 2 && Usable(b)
    ensures Growth(b, []) == b[|b| - 1].value / b[0].value
  {
    var v, f := Values(b), Factors(b, []);
    forall i | 0 <= i < |f| ensures v[i] > 0.0 && f[i] == v[i + 1] / v[i] {
      FactorWithoutFlows(b[i], b[i + 1]);
    }
    ProductTelescopes(v, f);
  }

  lemma {:induction false} FactorWithoutFlows(b0: Boundary, b1: Boundary)
    requires b0.value > 0.0
    ensures Factor(b0, b1, []) == b1.value / b0.value
  {}

  /** With no external flow the return is the last value over the first. */
  lemma {:induction false} NoFlowsTelescope(snapshots: seq<Snapshot>, log: seq<Transaction>, currentValue: real,
      asOf: Instant)
    requires ValidLog(log)
    requires forall t :: t in log ==> t.kind.Buy? || t.kind.Sell? || t.kind.Dividend? || t.kind.Fee?
    ensures var b := Boundaries(snapshots, currentValue, asOf);
      |b| >= 2 && Usable(b) ==>
        PortfolioTwr(snapshots, log, currentValue, asOf).growth == Some(b[|b| - 1].value / b[0].value)
  {
    var b := Boundaries(snapshots, currentValue, asOf);
    NoExternalFlows(log);
    TwrMeaning(b, []);
    if |b| >= 2 && Usable(b) {
      RatiosTelescope(b);
    }
  }

  // ---------- when the annualisation fails ----------

  /** Computed periods run from the first boundary to the last. */
  lemma {:induction false} SpanOfPeriods(b: seq<Boundary>, flows: seq<Flow>)
    requires BucketedReturns(b, flows).status.Computed?
    ensures var p := BucketedReturns(b, flows).periods;
      |b| >= 2 && |p| == |b| - 1 && p[0].start == b[0].time && p[|p| - 1].end == b[|b| - 1].time
  {
    PeriodsMeaning(b, flows);
    var p := BucketedReturns(b, flows).periods;
    assert Explains(p, b, flows, 0) && Explains(p, b, flows, |p| - 1);
  }

  /** What is reported for a series of boundaries: the figures exist exactly when there are two boundaries and
      every one that is divided by is positive, and they stand for the growth over all of it and for that growth
      taken to a year. */
  lemma {:induction false} ReportMeaning(h: (real, nat) -> real, b: seq<Boundary>, flows: seq<Flow>)
    ensures ReportOf(h, BucketedReturns(b, flows)) ==
      if |b| >= 2 && Usable(b)
      then Reported(h, Growth(b, flows), (b[|b| - 1].time - b[0].time) / MICROS_PER_DAY, |b| - 1)
      else Success(TwrResult(BucketedReturns(b, flows).status, None, None, |BucketedReturns(b, flows).periods|))
  {
    TwrMeaning(b, flows);
    var r := BucketedReturns(b, flows);
    if r.status.Computed? {
      SpanOfPeriods(b, flows);
      assert Compound(r.periods) == Growth(b, flows);
      assert ElapsedDays(r.periods) == (b[|b| - 1].time - b[0].time) / MICROS_PER_DAY;
      assert ReportOf(h, r) == Reported(h, Compound(r.periods), ElapsedDays(r.periods), |r.periods|);
    } else {
      assert ReportOf(h, r) == Success(TwrResult(r.status, None, None, |r.periods|));
    }
  }

  /** The reported figures themselves: the growth less one, and the yearly factor less one, in percent and to
      within half a ten-thousandth; the second exists exactly when the first does and at least a day has passed. */
  lemma {:induction false} ReportedFigures(h: (real, nat) -> real, b: seq<Boundary>, flows: seq<Flow>)
    requires IsYearlyPower(h) && ReportOf(h, BucketedReturns(b, flows)).Success?
    ensures var r := ReportOf(h, BucketedReturns(b, flows)).value;
      && (r.twrPct.Some? <==> |b| >= 2 && Usable(b))
      && (r.twrPct.Some? ==> -0.00005 <= r.twrPct.value - 100.0 * (Growth(b, flows) - 1.0) <= 0.00005)
      && (r.annualizedPct.Some? <==> r.twrPct.Some? && b[|b| - 1].time - b[0].time >= 86_400_000_000)
      && (r.annualizedPct.Some? ==> exists y: real ::
        && -0.00005 <= r.annualizedPct.value - 100.0 * (y - 1.0) <= 0.00005
        && IsYearlyFactor(y, b, flows))
  {
    ReportMeaning(h, b, flows);
    if |b| >= 2 && Usable(b) {
      var growth, days := Growth(b, flows), (b[|b| - 1].time - b[0].time) / MICROS_PER_DAY;
      PctClose(growth);
      if days > 0 {
        YearlyFactorMeaning(h, growth, days);
        PctClose(YearlyFactor(h, growth, days).value);
        assert IsYearlyFactor(YearlyFactor(h, growth, days).value, b, flows);
      }
    }
  }

  /** `y`, compounded over the whole days between the first and the last boundary, is the growth compounded over 365. */
  predicate IsYearlyFactor(y: real, b: seq<Boundary>, flows: seq<Flow>) {
    && |b| >= 2 && Usable(b)
    && var days := (b[|b| - 1].time - b[0].time) / 86_400_000_000;
      days > 0 && Pow(y, days) == Pow(Growth(b, flows), 365) && (Growth(b, flows) >= 0.0 ==> y >= 0.0)
  }

  lemma {:induction false} PctClose(growth: real)
    ensures -0.00005 <= GrowthPct(growth) - 100.0 * (growth - 1.0) <= 0.00005
  {
    RoundedClose((growth - 1.0) * 100.0);
  }

  /** Without flows a value that has not changed is reported as 0%, and as 0% a year. */
  lemma {:induction false} UnchangedIsZero(h: (real, nat) -> real, b: seq<Boundary>)
    requires IsYearlyPower(h) && |b| >= 2 && Usable(b) && b[|b| - 1].value == b[0].value
    ensures var r := ReportOf(h, BucketedReturns(b, []));
      r.Success? && r.value.twrPct == Some(0.0) && (r.value.annualizedPct.Some? ==> r.value.annualizedPct == Some(0.0))
  {
    ReportMeaning(h, b, []);
    RatiosTelescope(b);
    QuotientSelf(b[|b| - 1].value, b[0].value);
    RoundToFixed(0.0, SCALE_4, 0);
    var days := (b[|b| - 1].time - b[0].time) / MICROS_PER_DAY;
    if days > 0 {
      PowOfOne(days);
      PowOfOne(DAYS_PER_YEAR);
      PowOrder(h(1.0, days), 1.0, days);
    }
  }

  /** Over a year of 365 days both figures are the same: 10% of growth is 10%. */
  lemma {:induction false} TenPercentReported(h: (real, nat) -> real)
    requires IsYearlyPower(h)
    ensures Reported(h, 1.1, 365, 1) == Success(TwrResult(Computed, Some(10.0), Some(10.0), 1))
  {
    OneYearIsItself(h, 1.1);
    RoundToFixed(10.0, SCALE_4, 100_000);
  }

  lemma {:induction false} OnePeriodReport(h: (real, nat) -> real, p: PeriodReturn)
    ensures ReportOf(h, PeriodReturnsResult(Computed, [p]))
      == Reported(h, 1.0 + p.fraction, (p.end - p.start) / MICROS_PER_DAY, 1)
  {
    assert [p][..0] == [];
    TimesOne(1.0 + p.fraction);
    assert Compound([p]) == 1.0 + p.fraction;
  }

  /** A snapshot of 100, worth 110 after 365 days without flows, is reported as 10% and as 10% a year. */
  lemma {:induction false} TenPercent(h: (real, nat) -> real, s: Snapshot)
    requires IsYearlyPower(h) && s.portfolioValue == 100.0
    ensures ReportOf(h, BucketedReturns(Boundaries([s], 110.0, s.timestamp + 365 * 86_400_000_000), []))
      == Success(TwrResult(Computed, Some(10.0), Some(10.0), 1))
  {
    var b0, b1 := BoundaryOf(s), Boundary(s.timestamp + 365 * 86_400_000_000, 110.0);
    OneSnapshotThenNow(s, 110.0, b1.time);
    OnePeriod(b0, b1, []);
    var p := PeriodBetween(b0, b1, []);
    assert p.fraction == 0.1 && (p.end - p.start) / MICROS_PER_DAY == 365;
    OnePeriodReport(h, p);
    TenPercentReported(h);
  }

  /** The calculation raises exactly when the growth is negative over at least a day and the days do not divide a
      year. */
  lemma {:induction false} TwrRaisesIff(h: (real, nat) -> real, b: seq<Boundary>, flows: seq<Flow>)
    requires IsYearlyPower(h)
    ensures ReportOf(h, BucketedReturns(b, flows)).Failure? <==>
      && |b| >= 2 && Usable(b) && Growth(b, flows) < 0.0
      && var days := (b[|b| - 1].time - b[0].time) / MICROS_PER_DAY;
        days > 0 && 365 % days != 0
  {
    ReportMeaning(h, b, flows);
    if |b| >= 2 && Usable(b) {
      var days := (b[|b| - 1].time - b[0].time) / MICROS_PER_DAY;
      if days > 0 {
        YearlyFactorMeaning(h, Growth(b, flows), days);
      }
    }
  }

  lemma {:induction false} ProductNonNegative(f: seq<real>)
    requires forall i :: 0 <= i < |f| ==> f[i] >= 0.0
    ensures Product(f) >= 0.0
  {
    if f != [] {
      ProductNonNegative(f[..|f| - 1]);
      TimesSign(Product(f[..|f| - 1]), f[|f| - 1]);
    }
  }

  lemma {:induction false} CoveredFactor(b0: Boundary, b1: Boundary, flows: seq<Flow>)
    requires b0.value > 0.0 && b1.value >= Injection(flows, b0.time, b1.time)
    ensures Factor(b0, b1, flows) >= 0.0
  {
    DivMonotone(0.0, b1.value - Injection(flows, b0.time, b1.time), b0.value);
  }

  /** It does not raise as long as no period ends below what was paid in during it. */
  lemma {:induction false} CoveredFlowsNeverRaise(h: (real, nat) -> real, b: seq<Boundary>, flows: seq<Flow>)
    requires IsYearlyPower(h)
    requires forall i :: 0 <= i < |b| - 1 ==> b[i + 1].value >= Injection(flows, b[i].time, b[i + 1].time)
    ensures ReportOf(h, BucketedReturns(b, flows)).Success?
  {
    TwrRaisesIff(h, b, flows);
    if |b| >= 2 && Usable(b) {
      forall i | 0 <= i < |b| - 1 ensures Factors(b, flows)[i] >= 0.0 {
        CoveredFactor(b[i], b[i + 1], flows);
      }
      ProductNonNegative(Factors(b, flows));
    }
  }

  lemma {:induction false} OneDeposit(deposit: Transaction, t0: Instant, t1: Instant)
    requires ValidTransaction(deposit) && deposit.kind.Deposit? && t0 < deposit.date <= t1
    ensures Injection(ExtractFlows([deposit]), t0, t1) == deposit.amount
  {
    assert [deposit][..0] == [];
    var flows := [Flow(deposit.date, -deposit.amount)];
    assert ExtractFlows([deposit]) == flows;
    assert flows[..0] == [];
    assert Injection([], t0, t1) == 0.0;
  }

  lemma {:induction false} OnePeriod(b0: Boundary, b1: Boundary, flows: seq<Flow>)
    requires b0.value > 0.0
    ensures BucketedReturns([b0, b1], flows) == PeriodReturnsResult(Computed, [PeriodBetween(b0, b1, flows)])
  {
    var b := [b0, b1];
    FirstUnusable(b, 1);
    assert BucketedPeriods(b, flows, 1) == [] + [PeriodBetween(b0, b1, flows)];
  }

  /** A factor of -0.5 over ten days. */
  lemma {:induction false} HalfNegative(h: (real, nat) -> real, p: PeriodReturn)
    requires p.fraction == -1.5 && p.end == p.start + 10 * MICROS_PER_DAY
    ensures ReportOf(h, PeriodReturnsResult(Computed, [p])).Failure?
  {
    OnePeriodReport(h, p);
  }

  /** It can: a portfolio of 100 receives a deposit of 100 after five days, and after ten it is worth 50. */
  lemma {:induction false} LossBelowDepositRaises(h: (real, nat) -> real, s: Snapshot, deposit: Transaction)
    requires s.portfolioValue == 100.0
    requires ValidTransaction(deposit) && deposit.kind.Deposit? && deposit.amount == 100.0
    requires deposit.date == s.timestamp + 5 * MICROS_PER_DAY
    ensures var portfolio := Portfolio("main", "EUR", 50.0, [deposit], [s]);
      var asOf := s.timestamp + 10 * MICROS_PER_DAY;
      ReportOf(h, BucketedReturns(Boundaries(portfolio.snapshots, CurrentValue(portfolio, []), asOf),
                                  ExtractFlows(portfolio.transactions))).Failure?
  {
    var asOf, flows := s.timestamp + 10 * MICROS_PER_DAY, ExtractFlows([deposit]);
    assert CurrentValue(Portfolio("main", "EUR", 50.0, [deposit], [s]), []) == 50.0;
    OneSnapshotThenNow(s, 50.0, asOf);
    OneDeposit(deposit, s.timestamp, asOf);
    OnePeriod(BoundaryOf(s), Boundary(asOf, 50.0), flows);
    HalfNegative(h, PeriodBetween(BoundaryOf(s), Boundary(asOf, 50.0), flows));
  }
}
