/** engine/period_returns.py: the cash-flow-excluded return of every period between
    two consecutive snapshots. */
module PeriodReturns {
  import opened CashFlows
  import opened Models
  import opened Rounding
  import opened Sequences
  import opened Sorting

  datatype Boundary = Boundary(time: Instant, value: real)

  datatype PeriodReturn = PeriodReturn(start: Instant, end: Instant, fraction: real)

  datatype Status = NoData | InsufficientData | NotComputable | Computed

  datatype PeriodReturnsResult = PeriodReturnsResult(status: Status, periods: seq<PeriodReturn>)

  // ---------- boundaries ----------

  function NotAfter(asOf: Instant): Snapshot -> bool { (s: Snapshot) => s.timestamp <= asOf }

  function BoundaryOf(s: Snapshot): Boundary { Boundary(s.timestamp, s.portfolioValue) }

  function ToBoundaries(s: seq<Snapshot>): (b: seq<Boundary>)
    ensures |b| == |s| && forall i :: 0 <= i < |s| ==> b[i] == BoundaryOf(s[i])
  {
    seq(|s|, i requires 0 <= i < |s| => BoundaryOf(s[i]))
  }

  function SnapshotsUpTo(snapshots: seq<Snapshot>, asOf: Instant): seq<Snapshot> {
    StableSort(ByTimestamp(), Filter(NotAfter(asOf), snapshots))
  }

  /** The snapshots up to `asOf` in order, then the current value unless a snapshot is dated `asOf`. */
  function Boundaries(snapshots: seq<Snapshot>, currentValue: real, asOf: Instant): seq<Boundary> {
    var s := SnapshotsUpTo(snapshots, asOf);
    if s == [] then []
    else ToBoundaries(s) + (if asOf > s[|s| - 1].timestamp then [Boundary(asOf, currentValue)] else [])
  }

  predicate Chronological(b: seq<Boundary>) {
    forall i, j :: 0 <= i < j < |b| ==> b[i].time <= b[j].time
  }

  lemma {:induction false} SnapshotsUpToOrdered(snapshots: seq<Snapshot>, asOf: Instant)
    ensures SortedBy(ByTimestamp(), SnapshotsUpTo(snapshots, asOf))
    ensures forall s :: s in SnapshotsUpTo(snapshots, asOf) <==> s in snapshots && s.timestamp <= asOf
  {
    StableSortSpec(ByTimestamp(), Filter(NotAfter(asOf), snapshots));
    StableSortPermutes(ByTimestamp(), Filter(NotAfter(asOf), snapshots));
  }

  lemma {:induction false} BoundariesChronological(snapshots: seq<Snapshot>, currentValue: real, asOf: Instant)
    ensures Chronological(Boundaries(snapshots, currentValue, asOf))
  {
    SnapshotsUpToOrdered(snapshots, asOf);
    var s := SnapshotsUpTo(snapshots, asOf);
    assert forall i, j :: 0 <= i < j < |s| ==> ByTimestamp()(s[i]) <= ByTimestamp()(s[j]);
  }

  /** The series ends at `asOf`, with the current value unless a snapshot was taken at that very moment. */
  lemma {:induction false} BoundariesEnd(snapshots: seq<Snapshot>, currentValue: real, asOf: Instant)
    ensures var b := Boundaries(snapshots, currentValue, asOf);
      && (b == [] <==> forall x :: x in snapshots ==> x.timestamp > asOf)
      && (b != [] ==> b[|b| - 1].time == asOf)
      && (b != [] && (forall x :: x in snapshots ==> x.timestamp != asOf) ==> b[|b| - 1].value == currentValue)
  {
    SnapshotsUpToOrdered(snapshots, asOf);
    var s := SnapshotsUpTo(snapshots, asOf);
    if s != [] {
      assert s[|s| - 1] in s;
      assert s[0] in s;
    }
  }

  /** Snapshots that are in order and all earlier than `asOf` are followed by the current value. */
  lemma {:induction false} SnapshotsThenNow(snapshots: seq<Snapshot>, value: real, asOf: Instant)
    requires snapshots != [] && SortedBy(ByTimestamp(), snapshots)
    requires forall s :: s in snapshots ==> s.timestamp < asOf
    ensures Boundaries(snapshots, value, asOf) == ToBoundaries(snapshots) + [Boundary(asOf, value)]
  {
    FilterAll(NotAfter(asOf), snapshots);
    StableSortOfSorted(ByTimestamp(), snapshots);
    assert snapshots[|snapshots| - 1] in snapshots;
  }

  lemma {:induction false} OneSnapshotThenNow(s: Snapshot, value: real, asOf: Instant)
    requires s.timestamp < asOf
    ensures Boundaries([s], value, asOf) == [BoundaryOf(s), Boundary(asOf, value)]
  {
    SnapshotsThenNow([s], value, asOf);
    assert ToBoundaries([s]) == [BoundaryOf(s)];
  }

  lemma {:induction false} TwoSnapshotsThenNow(s1: Snapshot, s2: Snapshot, value: real, asOf: Instant)
    requires s1.timestamp < s2.timestamp < asOf
    ensures Boundaries([s1, s2], value, asOf) == [BoundaryOf(s1), BoundaryOf(s2), Boundary(asOf, value)]
  {
    SnapshotsThenNow([s1, s2], value, asOf);
    assert ToBoundaries([s1, s2]) == [BoundaryOf(s1), BoundaryOf(s2)];
  }

  // ---------- the obvious definition: every period collects its own flows ----------

  /** What one flow adds to the period after `t0` and up to `t1`. */
  function InjectionIn(t0: Instant, t1: Instant): Flow -> real {
    (f: Flow) => if t0 < f.date <= t1 then -f.amount else 0.0
  }

  /** The net capital put in after `t0` and up to `t1`, in whatever order the flows are listed. */
  function Injection(flows: seq<Flow>, t0: Instant, t1: Instant): real {
    SumBy(InjectionIn(t0, t1), flows)
  }

  /** A flow belongs to the period at whose end or before whose end it is dated, and after whose start; it counts as
      capital put in with the opposite sign. */
  lemma {:induction false} InjectionOfOne(f: Flow, t0: Instant, t1: Instant)
    ensures Injection([f], t0, t1) == if t0 < f.date && f.date <= t1 then -f.amount else 0.0
  {
    assert [f][..0] == [];
    assert Injection([f], t0, t1) == Injection([], t0, t1) + InjectionIn(t0, t1)(f);
  }

  function PeriodBetween(b0: Boundary, b1: Boundary, flows: seq<Flow>): PeriodReturn
    requires b0.value > 0.0
  {
    PeriodReturn(b0.time, b1.time, (b1.value - Injection(flows, b0.time, b1.time)) / b0.value - 1.0)
  }

  /** How many leading boundaries can be divided by; the last boundary never is. */
  function UsablePeriods(b: seq<Boundary>): (n: nat)
    requires |b| >= 1
    ensures n <= |b| - 1
    ensures forall i :: 0 <= i < n ==> b[i].value > 0.0
    ensures n < |b| - 1 ==> b[n].value <= 0.0
  {
    if |b| == 1 || b[0].value <= 0.0 then 0 else 1 + UsablePeriods(b[1..])
  }

  function BucketedPeriods(b: seq<Boundary>, flows: seq<Flow>, n: nat): (p: seq<PeriodReturn>)
    requires n == 0 || n < |b|
    requires forall i :: 0 <= i < n ==> b[i].value > 0.0
    ensures |p| == n
    ensures forall i :: 0 <= i < n ==> p[i] == PeriodBetween(b[i], b[i + 1], flows)
  {
    if n == 0 then [] else BucketedPeriods(b, flows, n - 1) + [PeriodBetween(b[n - 1], b[n], flows)]
  }

  function BucketedReturns(b: seq<Boundary>, flows: seq<Flow>): PeriodReturnsResult {
    if b == [] then PeriodReturnsResult(NoData, [])
    else if |b| < 2 then PeriodReturnsResult(InsufficientData, [])
    else
      var n := UsablePeriods(b);
      PeriodReturnsResult(if n < |b| - 1 then NotComputable else Computed, BucketedPeriods(b, flows, n))
  }

  // ---------- the single merge pass ----------

  function CurrentValue(portfolio: Portfolio, positions: seq<Position>): real {
    SumBy(MarketValue(), positions) + portfolio.cashBalance
  }

  lemma {:induction false} OutsideWindow(flows: seq<Flow>, t0: Instant, t1: Instant)
    requires forall f :: f in flows ==> !(t0 < f.date <= t1)
    ensures Injection(flows, t0, t1) == 0.0
  {
    SumByZero(InjectionIn(t0, t1), flows);
  }

  lemma {:induction false} InjectionStep(flows: seq<Flow>, k: nat, t0: Instant, t1: Instant)
    requires k < |flows|
    ensures Injection(flows[..k + 1], t0, t1) == Injection(flows[..k], t0, t1) + InjectionIn(t0, t1)(flows[k])
  {
    assert flows[..k + 1][..k] == flows[..k];
  }

  lemma {:induction false} InjectionPrefix(flows: seq<Flow>, k: nat, t0: Instant, t1: Instant)
    requires k <= |flows|
    requires forall j :: k <= j < |flows| ==> t1 < flows[j].date
    ensures Injection(flows[..k], t0, t1) == Injection(flows, t0, t1)
  {
    SumByConcat(InjectionIn(t0, t1), flows[..k], flows[k..]);
    assert flows == flows[..k] + flows[k..];
    OutsideWindow(flows[k..], t0, t1);
  }

  /** Flows are consumed up to `flowIdx`: exactly those dated at or before `t`. */
  ghost predicate ConsumedUpTo(flows: seq<Flow>, flowIdx: int, t: Instant) {
    && 0 <= flowIdx <= |flows|
    && (forall j :: 0 <= j < flowIdx ==> flows[j].date <= t)
    && (forall j :: flowIdx <= j < |flows| ==> t < flows[j].date)
  }

  /** Consumes the flows dated up to `t1` and adds up what they inject. */
  method TakeFlows(flows: seq<Flow>, start: nat, t0: Instant, t1: Instant)
    returns (injection: real, flowIdx: nat)
    requires SortedBy(FlowDate(), flows)
    requires ConsumedUpTo(flows, start, t0) && t0 <= t1
    ensures ConsumedUpTo(flows, flowIdx, t1)
    ensures injection == Injection(flows, t0, t1)
  {
    injection, flowIdx := 0.0, start;
    OutsideWindow(flows[..start], t0, t1);
    while flowIdx < |flows| && flows[flowIdx].date <= t1
      invariant start <= flowIdx <= |flows|
      invariant forall j :: 0 <= j < flowIdx ==> flows[j].date <= t1
      invariant injection == Injection(flows[..flowIdx], t0, t1)
    {
      InjectionStep(flows, flowIdx, t0, t1);
      injection := injection + -flows[flowIdx].amount;
      flowIdx := flowIdx + 1;
    }
    if flowIdx < |flows| {
      assert forall j :: flowIdx < j < |flows| ==> FlowDate()(flows[flowIdx]) <= FlowDate()(flows[j]);
    }
    InjectionPrefix(flows, flowIdx, t0, t1);
  }

  /** Passes over the flows dated up to the first boundary. */
  method SkipHistory(flows: seq<Flow>, firstT0: Instant) returns (flowIdx: nat)
    requires SortedBy(FlowDate(), flows)
    ensures ConsumedUpTo(flows, flowIdx, firstT0)
  {
    flowIdx := 0;
    while flowIdx < |flows| && flows[flowIdx].date <= firstT0
      invariant flowIdx <= |flows|
      invariant forall j :: 0 <= j < flowIdx ==> flows[j].date <= firstT0
    {
      flowIdx := flowIdx + 1;
    }
    if flowIdx < |flows| {
      assert forall j :: flowIdx < j < |flows| ==> FlowDate()(flows[flowIdx]) <= FlowDate()(flows[j]);
    }
  }

  /** One pass over sorted flows and boundaries. */
  method MergePeriods(b: seq<Boundary>, flows: seq<Flow>) returns (r: PeriodReturnsResult)
    requires |b| >= 2 && Chronological(b) && SortedBy(FlowDate(), flows)
    ensures r == BucketedReturns(b, flows)
  {
    var flowIdx := SkipHistory(flows, b[0].time);
    var periods := [];
    var i := 0;
    while i < |b| - 1
      invariant 0 <= i <= |b| - 1
      invariant forall k :: 0 <= k < i ==> b[k].value > 0.0
      invariant ConsumedUpTo(flows, flowIdx, b[i].time)
      invariant periods == BucketedPeriods(b, flows, i)
    {
      var b0, b1 := b[i], b[i + 1];
      if b0.value <= 0.0 {
        FirstUnusable(b, i);
        return PeriodReturnsResult(NotComputable, periods);
      }
      var periodInjection;
      periodInjection, flowIdx := TakeFlows(flows, flowIdx, b0.time, b1.time);
      periods := periods + [PeriodReturn(b0.time, b1.time, (b1.value - periodInjection) / b0.value - 1.0)];
      i := i + 1;
    }
    FirstUnusable(b, i);
    r := PeriodReturnsResult(Computed, periods);
  }

  lemma {:induction false} FirstUnusable(b: seq<Boundary>, n: nat)
    requires |b| >= 1 && n <= |b| - 1
    requires forall i :: 0 <= i < n ==> b[i].value > 0.0
    requires n < |b| - 1 ==> b[n].value <= 0.0
    ensures UsablePeriods(b) == n
  {
    if n > 0 {
      FirstUnusable(b[1..], n - 1);
    }
  }

  /** The sort of the flows plays no part in what a window holds. */
  lemma {:induction false} InjectionOrderFree(a: seq<Flow>, b: seq<Flow>, t0: Instant, t1: Instant)
    requires multiset(a) == multiset(b)
    ensures Injection(a, t0, t1) == Injection(b, t0, t1)
  {
    SumByPermutation(InjectionIn(t0, t1), a, b);
  }

  lemma {:induction false} BucketedPeriodsOrderFree(b: seq<Boundary>, f: seq<Flow>, g: seq<Flow>, n: nat)
    requires n == 0 || n < |b|
    requires forall i :: 0 <= i < n ==> b[i].value > 0.0
    requires multiset(f) == multiset(g)
    ensures BucketedPeriods(b, f, n) == BucketedPeriods(b, g, n)
  {
    if n > 0 {
      BucketedPeriodsOrderFree(b, f, g, n - 1);
      InjectionOrderFree(f, g, b[n - 1].time, b[n].time);
    }
  }

  /** Recording the transactions in another order changes no period. */
  lemma {:induction false} BucketedReturnsOrderFree(b: seq<Boundary>, f: seq<Flow>, g: seq<Flow>)
    requires multiset(f) == multiset(g)
    ensures BucketedReturns(b, f) == BucketedReturns(b, g)
  {
    if |b| >= 2 {
      BucketedPeriodsOrderFree(b, f, g, UsablePeriods(b));
    }
  }

  method MergeUnsorted(b: seq<Boundary>, external: seq<Flow>) returns (r: PeriodReturnsResult)
    requires |b| >= 2 && Chronological(b)
    ensures r == BucketedReturns(b, external)
  {
    var flows := StableSort(FlowDate(), external);
    StableSortSpec(FlowDate(), external);
    StableSortPermutes(FlowDate(), external);
    r := MergePeriods(b, flows);
    BucketedReturnsOrderFree(b, flows, external);
  }

  /** `compute_period_returns`: the merge pass computes the bucketed definition on the
      flows exactly as the transaction log lists them. */
  method ComputePeriodReturns(portfolio: Portfolio, positions: seq<Position>, asOf: Instant)
    returns (r: PeriodReturnsResult)
    requires ValidLog(portfolio.transactions)
    ensures r == BucketedReturns(
      Boundaries(portfolio.snapshots, CurrentValue(portfolio, positions), asOf),
      ExtractFlows(portfolio.transactions))
  {
    var snapshots := SnapshotsUpTo(portfolio.snapshots, asOf);
    if snapshots == [] {
      return PeriodReturnsResult(NoData, []);
    }
    var boundaries := ToBoundaries(snapshots);
    if asOf > snapshots[|snapshots| - 1].timestamp {
      boundaries := boundaries + [Boundary(asOf, CurrentValue(portfolio, positions))];
    }
    if |boundaries| < 2 {
      return PeriodReturnsResult(InsufficientData, []);
    }
    assert boundaries == Boundaries(portfolio.snapshots, CurrentValue(portfolio, positions), asOf);
    BoundariesChronological(portfolio.snapshots, CurrentValue(portfolio, positions), asOf);
    r := MergeUnsorted(boundaries, ExtractFlows(portfolio.transactions));
  }

  // ---------- what the periods say ----------

  /** The boundary value grown by the period's return. */
  function Grown(b0: Boundary, p: PeriodReturn): real {
    b0.value * (1.0 + p.fraction)
  }

  /** The i-th period runs between the boundaries i and i+1, and its return explains the change
      in value that is left once the flows of exactly this period are taken out. */
  predicate Explains(p: seq<PeriodReturn>, b: seq<Boundary>, flows: seq<Flow>, i: nat) {
    && i < |p| && i + 1 < |b|
    && b[i].value > 0.0
    && p[i].start == b[i].time && p[i].end == b[i + 1].time
    && Grown(b[i], p[i]) == b[i + 1].value - Injection(flows, b[i].time, b[i + 1].time)
  }

  /** Which result is returned, period by period, without reference to the algorithm. */
  lemma {:induction false} PeriodsMeaning(b: seq<Boundary>, flows: seq<Flow>)
    ensures var r := BucketedReturns(b, flows);
      && (r.status.NoData? <==> b == [])
      && (r.status.InsufficientData? <==> |b| == 1)
      && (r.status.NotComputable? <==> exists i :: 0 <= i < |b| - 1 && b[i].value <= 0.0)
      && (r.status.Computed? ==> |r.periods| == |b| - 1)
      && (r.status.NotComputable? ==> |r.periods| < |b| - 1 && b[|r.periods|].value <= 0.0)
      && (forall i :: 0 <= i < |r.periods| ==> Explains(r.periods, b, flows, i))
  {
    if |b| >= 2 {
      var p := BucketedReturns(b, flows).periods;
      forall i | 0 <= i < |p|
        ensures Explains(p, b, flows, i)
      {
        PeriodGrowth(b[i], b[i + 1], flows);
      }
    }
  }

  lemma {:induction false} PeriodGrowth(b0: Boundary, b1: Boundary, flows: seq<Flow>)
    requires b0.value > 0.0
    ensures Grown(b0, PeriodBetween(b0, b1, flows)) == b1.value - Injection(flows, b0.time, b1.time)
  {
    DivTimes(b1.value - Injection(flows, b0.time, b1.time), b0.value);
  }

  lemma {:induction false} InjectionAdds(flows: seq<Flow>, t0: Instant, t1: Instant, t2: Instant)
    requires t0 <= t1 <= t2
    ensures Injection(flows, t0, t2) == Injection(flows, t0, t1) + Injection(flows, t1, t2)
  {
    SumByPlus(InjectionIn(t0, t2), InjectionIn(t0, t1), InjectionIn(t1, t2), flows);
  }

  /** The capital that period `i` attributes to flows, read off the result. */
  function Attributed(b: seq<Boundary>, p: seq<PeriodReturn>, n: nat): real
    requires n <= |p| < |b|
  {
    if n == 0 then 0.0
    else Attributed(b, p, n - 1) + (b[n].value - Grown(b[n - 1], p[n - 1]))
  }

  lemma {:induction false} AttributedSum(b: seq<Boundary>, p: seq<PeriodReturn>, flows: seq<Flow>, n: nat)
    requires Chronological(b) && n <= |p| < |b|
    requires forall i :: 0 <= i < n ==> Explains(p, b, flows, i)
    ensures Attributed(b, p, n) == Injection(flows, b[0].time, b[n].time)
  {
    if n == 0 {
      OutsideWindow(flows, b[0].time, b[0].time);
    } else {
      AttributedSum(b, p, flows, n - 1);
      InjectionAdds(flows, b[0].time, b[n - 1].time, b[n].time);
      assert Explains(p, b, flows, n - 1);
    }
  }

  /** No flow is lost and none is counted twice: over the reported periods the attributed
      capital is all the capital that moved after the first boundary and up to the last one. */
  lemma {:induction false} FlowsConserved(b: seq<Boundary>, flows: seq<Flow>, n: nat)
    requires Chronological(b) && |b| >= 2 && n <= |BucketedReturns(b, flows).periods|
    ensures |BucketedReturns(b, flows).periods| < |b|
    ensures Attributed(b, BucketedReturns(b, flows).periods, n) == Injection(flows, b[0].time, b[n].time)
  {
    PeriodsMeaning(b, flows);
    AttributedSum(b, BucketedReturns(b, flows).periods, flows, n);
  }
}
