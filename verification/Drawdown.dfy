/** engine/calculators/drawdown_calculator.py: one pass with a running peak. */
module Drawdown {
  import opened Models
  import opened PeriodReturns
  import opened Rounding
  import opened Sequences

  const AT_PEAK_TOLERANCE_PCT: real := 0.01

  datatype Recovery = AtPeak | Recovering | InDrawdown

  datatype DrawdownResult =
    | NoSnapshots
    | Drawdown(currentPct: real, maximumPct: real, peakValue: real, peakDate: Instant, recovery: Recovery)

  /** The change from `a` to `b`, in percent of `a`. */
  function Change(a: real, b: real): real
    requires a != 0.0
  {
    (b - a) / a * 100.0
  }

  /** Where the highest value among the first n + 1 points stands, the earliest if there are several. */
  function PeakIndex(points: seq<Boundary>, n: nat): (p: nat)
    requires n < |points|
    ensures p <= n
    ensures forall j :: 0 <= j <= n ==> points[j].value <= points[p].value
    ensures forall j :: 0 <= j < p ==> points[j].value < points[p].value
  {
    if n == 0 then 0 else
    var p := PeakIndex(points, n - 1);
    if points[n].value > points[p].value then n else p
  }

  /** How far point `j` lies below the peak so far; zero as long as there is no positive peak. */
  function DropAt(points: seq<Boundary>, j: nat): real
    requires j < |points|
  {
    var peak := points[PeakIndex(points, j)].value;
    if peak > 0.0 then Change(peak, points[j].value) else 0.0
  }

  function Min(x: real, y: real): real { if x <= y then x else y }

  /** The deepest of the first n drops, and never above zero. */
  function DeepestDrop(points: seq<Boundary>, n: nat): real
    requires n <= |points|
  {
    if n == 0 then 0.0 else Min(DeepestDrop(points, n - 1), DropAt(points, n - 1))
  }

  lemma {:induction false} DeepestDropIsLeast(points: seq<Boundary>, n: nat)
    requires n <= |points|
    ensures var d := DeepestDrop(points, n);
      && d <= 0.0
      && (forall j :: 0 <= j < n ==> d <= DropAt(points, j))
      && (d == 0.0 || exists j :: 0 <= j < n && d == DropAt(points, j))
  {
    if n > 0 {
      DeepestDropIsLeast(points, n - 1);
    }
  }

  /** One more point deepens the drop only below a positive peak. */
  lemma {:induction false} DropStep(points: seq<Boundary>, j: nat)
    requires j < |points|
    ensures var peak, before := points[PeakIndex(points, j)].value, DeepestDrop(points, j);
      DeepestDrop(points, j + 1) == if peak > 0.0 then Min(before, Change(peak, points[j].value)) else before
  {
    DeepestDropIsLeast(points, j);
  }

  /** The running-peak pass. */
  method PeakPass(points: seq<Boundary>) returns (peakValue: real, peakDate: Instant, maxDrawdownPct: real)
    requires points != []
    ensures var p := points[PeakIndex(points, |points| - 1)]; peakValue == p.value && peakDate == p.time
    ensures maxDrawdownPct == DeepestDrop(points, |points|)
  {
    peakValue, peakDate, maxDrawdownPct := points[0].value, points[0].time, 0.0;
    ghost var peakAt := 0;
    var i := 0;
    while i < |points|
      invariant 0 <= i <= |points|
      invariant peakAt == PeakIndex(points, if i == 0 then 0 else i - 1)
      invariant peakValue == points[peakAt].value && peakDate == points[peakAt].time
      invariant maxDrawdownPct == DeepestDrop(points, i)
    {
      if points[i].value > peakValue {
        peakValue, peakDate, peakAt := points[i].value, points[i].time, i;
      }
      assert peakAt == PeakIndex(points, i);
      DropStep(points, i);
      if peakValue > 0.0 {
        var drawdownPct := Change(peakValue, points[i].value);
        maxDrawdownPct := Min(maxDrawdownPct, drawdownPct);
      }
      i := i + 1;
    }
  }

  function RecoveryOf(roundedCurrent: real, maximum: real): Recovery {
    if roundedCurrent >= -AT_PEAK_TOLERANCE_PCT then AtPeak
    else if roundedCurrent > maximum then Recovering
    else InDrawdown
  }

  /** What is reported for a series of points: the maximum stays unrounded for the recovery status. */
  function Report(points: seq<Boundary>): DrawdownResult
    requires points != []
  {
    var n := |points|;
    var peak := points[PeakIndex(points, n - 1)];
    var current := RoundTo(DropAt(points, n - 1), SCALE_4);
    Drawdown(current, RoundTo(DeepestDrop(points, n), SCALE_4), RoundTo(peak.value, SCALE_2), peak.time,
             RecoveryOf(current, DeepestDrop(points, n)))
  }

  lemma {:induction false} RoundZero()
    ensures RoundTo(0.0, SCALE_4) == 0.0
  {
    RoundToFixed(0.0, SCALE_4, 0);
  }

  method ReportOn(points: seq<Boundary>) returns (r: DrawdownResult)
    requires points != []
    ensures r == Report(points)
  {
    var peakValue, peakDate, maxDrawdownPct := PeakPass(points);
    RoundZero();
    var currentValue := points[|points| - 1].value;
    var currentPct := if peakValue > 0.0 then RoundTo(Change(peakValue, currentValue), SCALE_4) else 0.0;
    assert currentPct == RoundTo(DropAt(points, |points| - 1), SCALE_4);
    var recovery;
    if currentPct >= -AT_PEAK_TOLERANCE_PCT {
      recovery := AtPeak;
    } else if currentPct > maxDrawdownPct {
      recovery := Recovering;
    } else {
      recovery := InDrawdown;
    }
    r := Drawdown(currentPct, RoundTo(maxDrawdownPct, SCALE_4), RoundTo(peakValue, SCALE_2), peakDate, recovery);
  }

  /** `calculate` */
  method Calculate(portfolio: Portfolio, positions: seq<Position>, asOf: Instant) returns (r: DrawdownResult)
    ensures var points := Boundaries(portfolio.snapshots, CurrentValue(portfolio, positions), asOf);
      r == if points == [] then NoSnapshots else Report(points)
  {
    var snapshots := SnapshotsUpTo(portfolio.snapshots, asOf);
    if snapshots == [] {
      return NoSnapshots;
    }
    var points := ToBoundaries(snapshots);
    if asOf > snapshots[|snapshots| - 1].timestamp {
      points := points + [Boundary(asOf, CurrentValue(portfolio, positions))];
    }
    assert points == Boundaries(portfolio.snapshots, CurrentValue(portfolio, positions), asOf);
    r := ReportOn(points);
  }

  // ---------- against the all-pairs definition ----------

  predicate NonNegative(points: seq<Boundary>) {
    forall i :: 0 <= i < |points| ==> points[i].value >= 0.0
  }

  /** `d` is the change from a positive point to another one. */
  predicate IsFall(points: seq<Boundary>, i: nat, j: nat, d: real)
    requires i < |points| && j < |points|
  {
    points[i].value > 0.0 && d == Change(points[i].value, points[j].value)
  }

  /** `d` is the deepest fall from any positive point to any point not before it, capped at zero. */
  ghost predicate IsDeepestFall(points: seq<Boundary>, d: real) {
    && d <= 0.0
    && (forall i, j :: 0 <= i <= j < |points| && points[i].value > 0.0 ==>
      d <= Change(points[i].value, points[j].value))
    && (d == 0.0 || exists i, j :: 0 <= i <= j < |points| && IsFall(points, i, j, d))
  }

  lemma {:induction false} ChangeAsRatio(a: real, b: real)
    requires a > 0.0
    ensures Change(a, b) == b / a * 100.0 - 100.0
  {
    DivTimes(b, a);
    assert (b - a) / a == b / a - 1.0 by {
      DivTimes(b - a, a);
      assert (b / a - 1.0) * a == b - a;
      MulCancel((b - a) / a, b / a - 1.0, a);
    }
  }

  /** From a higher start the fall to a non-negative value is deeper. */
  lemma {:induction false} HigherStartFallsFurther(p: real, a: real, b: real)
    requires 0.0 < a <= p && b >= 0.0
    ensures Change(p, b) <= Change(a, b)
    ensures Change(p, b) >= -100.0
  {
    ChangeAsRatio(p, b);
    ChangeAsRatio(a, b);
    RatioFalls(p, a, b);
  }

  lemma {:induction false} RatioFalls(p: real, a: real, b: real)
    requires 0.0 < a <= p && b >= 0.0
    ensures 0.0 <= b / p <= b / a
  {
    DivTimes(b, p);
    DivTimes(b, a);
  }

  /** To a negative value it is the other way round: the lower start falls further. */
  lemma {:induction false} LowerStartFallsFurther(p: real, a: real, b: real)
    requires 0.0 < a < p && b < 0.0
    ensures Change(a, b) < Change(p, b)
    ensures Change(a, b) < -100.0
  {
    ChangeAsRatio(p, b);
    ChangeAsRatio(a, b);
    NegativeRatioRises(p, a, b);
  }

  lemma {:induction false} NegativeRatioRises(p: real, a: real, b: real)
    requires 0.0 < a < p && b < 0.0
    ensures b / a < b / p
    ensures b / a < 0.0
  {
    DivTimes(b, p);
    DivTimes(b, a);
  }

  lemma {:induction false} PairBound(points: seq<Boundary>, i: nat, j: nat)
    requires i <= j < |points| && points[i].value > 0.0
    requires points[j].value >= 0.0 || points[i].value == points[PeakIndex(points, j)].value
    ensures DeepestDrop(points, |points|) <= Change(points[i].value, points[j].value)
  {
    var peak := points[PeakIndex(points, j)].value;
    DeepestDropIsLeast(points, |points|);
    assert DropAt(points, j) == Change(peak, points[j].value);
    if points[j].value >= 0.0 {
      HigherStartFallsFurther(peak, points[i].value, points[j].value);
    }
  }

  lemma {:induction false} PairAttains(points: seq<Boundary>) returns (i: nat, j: nat)
    requires DeepestDrop(points, |points|) != 0.0
    ensures i <= j < |points| && points[i].value > 0.0
    ensures DeepestDrop(points, |points|) == Change(points[i].value, points[j].value)
  {
    DeepestDropIsLeast(points, |points|);
    j :| 0 <= j < |points| && DeepestDrop(points, |points|) == DropAt(points, j);
    i := PeakIndex(points, j);
  }

  /** It is enough that no start falls further than the peak. */
  lemma {:induction false} BoundedPairsSuffice(points: seq<Boundary>)
    requires forall i, j :: 0 <= i <= j < |points| && points[i].value > 0.0 ==>
      points[j].value >= 0.0 || points[i].value == points[PeakIndex(points, j)].value
    ensures IsDeepestFall(points, DeepestDrop(points, |points|))
  {
    var d := DeepestDrop(points, |points|);
    DeepestDropIsLeast(points, |points|);
    forall i, j | 0 <= i <= j < |points| && points[i].value > 0.0
      ensures d <= Change(points[i].value, points[j].value)
    {
      PairBound(points, i, j);
    }
    if d != 0.0 {
      var i, j := PairAttains(points);
      assert IsFall(points, i, j, d);
    }
  }

  /** The one-pass figure is the deepest fall over all pairs of points. */
  lemma {:induction false} OnePassIsAllPairs(points: seq<Boundary>)
    requires points != [] && NonNegative(points)
    ensures IsDeepestFall(points, DeepestDrop(points, |points|))
  {
    BoundedPairsSuffice(points);
  }

  /** Only the last point can be negative. */
  predicate NonNegativeHistory(points: seq<Boundary>) {
    points != [] && forall i :: 0 <= i < |points| - 1 ==> points[i].value >= 0.0
  }

  /** Every positive value before the last point stands at the peak. */
  predicate LevelHistory(points: seq<Boundary>)
    requires points != []
  {
    forall i :: 0 <= i < |points| - 1 && points[i].value > 0.0 ==>
      points[i].value == points[PeakIndex(points, |points| - 1)].value
  }

  /** With a negative last value, a start below the peak falls further than the pass can see. */
  lemma {:induction false} NegativeEndMissesAPair(points: seq<Boundary>, i: nat)
    requires NonNegativeHistory(points) && points[|points| - 1].value < 0.0
    requires i < |points| - 1 && 0.0 < points[i].value < points[PeakIndex(points, |points| - 1)].value
    ensures Change(points[i].value, points[|points| - 1].value) < DeepestDrop(points, |points|)
  {
    var n := |points|;
    LowerStartFallsFurther(points[PeakIndex(points, n - 1)].value, points[i].value, points[n - 1].value);
    DeepestDropIsLeast(points, n);
    if DeepestDrop(points, n) != 0.0 {
      var j :| 0 <= j < n && DeepestDrop(points, n) == DropAt(points, j);
      if j < n - 1 {
        DropFloor(points, j);
      }
    }
  }

  /** So for recorded values, which are never negative, the one-pass figure is the deepest fall over all pairs
      exactly when the current value is not negative either, or everything positive before it stood at the peak. */
  lemma {:induction false} OnePassExactIff(points: seq<Boundary>)
    requires NonNegativeHistory(points)
    ensures IsDeepestFall(points, DeepestDrop(points, |points|)) <==>
      points[|points| - 1].value >= 0.0 || LevelHistory(points)
  {
    if points[|points| - 1].value >= 0.0 || LevelHistory(points) {
      BoundedPairsSuffice(points);
    } else {
      var i :| 0 <= i < |points| - 1 && points[i].value > 0.0
        && points[i].value != points[PeakIndex(points, |points| - 1)].value;
      NegativeEndMissesAPair(points, i);
    }
  }

  /** Stored snapshots are never negative, so the only point that can be is the current value. */
  lemma {:induction false} OnlyCurrentCanBeNegative(portfolio: Portfolio, positions: seq<Position>, asOf: Instant)
    requires forall s :: s in portfolio.snapshots ==> ValidSnapshot(s)
    ensures var points := Boundaries(portfolio.snapshots, CurrentValue(portfolio, positions), asOf);
      && (points != [] ==> NonNegativeHistory(points))
      && (points != [] && points[|points| - 1].value < 0.0 ==>
        points[|points| - 1].value == CurrentValue(portfolio, positions))
  {
    SnapshotsUpToOrdered(portfolio.snapshots, asOf);
    var upTo := SnapshotsUpTo(portfolio.snapshots, asOf);
    forall i | 0 <= i < |upTo| ensures ToBoundaries(upTo)[i].value >= 0.0 {
      assert upTo[i] in upTo;
    }
  }

  lemma {:induction false} OnePositionAndCash(portfolio: Portfolio, p: Position)
    ensures CurrentValue(portfolio, [p]) == p.marketValueBase + portfolio.cashBalance
  {
    assert [p][..0] == [];
    assert SumBy(MarketValue(), [p]) == SumBy(MarketValue(), []) + p.marketValueBase;
  }

  lemma {:induction false} RisenThenNegative(a: Boundary, b: Boundary, c: Boundary)
    requires 0.0 < a.value < b.value && c.value < 0.0
    ensures !IsDeepestFall([a, b, c], DeepestDrop([a, b, c], 3))
  {
    var points := [a, b, c];
    assert PeakIndex(points, 0) == 0 && PeakIndex(points, 1) == 1 && PeakIndex(points, 2) == 1;
    OnePassExactIff(points);
  }

  /** It can be negative, when a position is quoted below zero: after recorded values 1 and 2, a current value of
      -1 is a fall of 200% from the first, and the pass finds 150%. */
  lemma {:induction false} NegativeValueMissesAPair(h: Holding, s1: Snapshot, s2: Snapshot)
    requires s1.timestamp < s2.timestamp && s1.portfolioValue == 1.0 && s2.portfolioValue == 2.0
    ensures var asOf := s2.timestamp + 1;
      var portfolio := Portfolio("main", "EUR", 0.0, [], [s1, s2]);
      var points := Boundaries(portfolio.snapshots, CurrentValue(portfolio, [Position(h, -1.0, 0.0)]), asOf);
      |points| == 3 && points[2].value == -1.0 && !IsDeepestFall(points, DeepestDrop(points, 3))
  {
    var asOf := s2.timestamp + 1;
    OnePositionAndCash(Portfolio("main", "EUR", 0.0, [], [s1, s2]), Position(h, -1.0, 0.0));
    TwoSnapshotsThenNow(s1, s2, -1.0, asOf);
    RisenThenNegative(BoundaryOf(s1), BoundaryOf(s2), Boundary(asOf, -1.0));
  }

  // ---------- the reported figures ----------

  /** Point `k` is the highest, and the first that high. */
  predicate IsFirstPeak(points: seq<Boundary>, k: int) {
    && 0 <= k < |points|
    && (forall j :: 0 <= j < |points| ==> points[j].value <= points[k].value)
    && (forall j :: 0 <= j < k ==> points[j].value < points[k].value)
  }

  /** Bounds and order of the reported figures, after rounding; the peak is the highest value, at its earliest date. */
  lemma {:induction false} ReportBounds(points: seq<Boundary>)
    requires points != []
    ensures var r := Report(points);
      && r.maximumPct <= r.currentPct <= 0.0
      && (NonNegative(points) ==> -100.0 <= r.maximumPct)
      && exists k :: IsFirstPeak(points, k)
                     && r.peakDate == points[k].time && r.peakValue == RoundTo(points[k].value, SCALE_2)
  {
    var n := |points|;
    DeepestDropIsLeast(points, n);
    DropCeiling(points, n - 1);
    RoundToMonotone(DeepestDrop(points, n), DropAt(points, n - 1), SCALE_4);
    RoundToMonotone(DropAt(points, n - 1), 0.0, SCALE_4);
    RoundZero();
    if NonNegative(points) {
      DeepestFloor(points);
      RoundToMonotone(-100.0, DeepestDrop(points, n), SCALE_4);
      RoundToFixed(-100.0, SCALE_4, -1_000_000);
    }
    var k := PeakIndex(points, n - 1);
    assert IsFirstPeak(points, k) && Report(points).peakDate == points[k].time;
  }

  /** What is reported, against the points alone: the peak is the first highest point, the current figure the
      change from it to the last point, and the maximum the deepest fall over all pairs, each to within half of its
      last digit. */
  lemma {:induction false} ReportedFigures(points: seq<Boundary>)
    requires points != [] && NonNegative(points)
    ensures var r, last := Report(points), points[|points| - 1].value;
      && (exists k :: IsFirstPeak(points, k) && r.peakDate == points[k].time
                      && -0.005 <= r.peakValue - points[k].value <= 0.005
                      && CurrentFigure(points[k].value, last, r.currentPct))
      && (exists d :: IsDeepestFall(points, d) && -0.00005 <= r.maximumPct - d <= 0.00005)
  {
    var k := PeakIndex(points, |points| - 1);
    assert IsFirstPeak(points, k);
    RoundedClose(points[k].value);
    CurrentReported(points);
    MaximumReported(points);
  }

  lemma {:induction false} MaximumReported(points: seq<Boundary>)
    requires points != [] && NonNegative(points)
    ensures exists d :: IsDeepestFall(points, d) && -0.00005 <= Report(points).maximumPct - d <= 0.00005
  {
    OnePassIsAllPairs(points);
    RoundedClose(DeepestDrop(points, |points|));
  }

  lemma {:induction false} CurrentReported(points: seq<Boundary>)
    requires points != []
    ensures var peak := points[PeakIndex(points, |points| - 1)].value;
      CurrentFigure(peak, points[|points| - 1].value, Report(points).currentPct)
  {
    var peak := points[PeakIndex(points, |points| - 1)].value;
    if peak > 0.0 {
      ChangeRounded(peak, points[|points| - 1].value);
    } else {
      RoundZero();
    }
  }

  lemma {:induction false} ChangeRounded(peak: real, last: real)
    requires peak > 0.0
    ensures CurrentFigure(peak, last, RoundTo(Change(peak, last), SCALE_4))
  {
    RoundedClose(Change(peak, last));
  }

  /** The change from the peak to the last value in percent, or zero without a positive peak. */
  predicate CurrentFigure(peak: real, last: real, pct: real) {
    if peak > 0.0 then -0.00005 <= pct - (last - peak) / peak * 100.0 <= 0.00005 else pct == 0.0
  }

  /** After snapshots of 100 and 50 and a current value of 90, the maximum is -50%, the current figure -10%. */
  lemma {:induction false} PartialRecovery(s1: Snapshot, s2: Snapshot, asOf: Instant)
    requires s1.timestamp < s2.timestamp < asOf && s1.portfolioValue == 100.0 && s2.portfolioValue == 50.0
    ensures var portfolio := Portfolio("main", "EUR", 90.0, [], [s1, s2]);
      var points := Boundaries(portfolio.snapshots, CurrentValue(portfolio, []), asOf);
      points != [] && Report(points) == Drawdown(-10.0, -50.0, 100.0, s1.timestamp, Recovering)
  {
    TwoSnapshotsThenNow(s1, s2, 90.0, asOf);
    var points := [BoundaryOf(s1), BoundaryOf(s2), Boundary(asOf, 90.0)];
    ThreeDrops(points[0], points[1], points[2]);
    assert PeakIndex(points, 0) == 0 && PeakIndex(points, 1) == 0 && PeakIndex(points, 2) == 0;
    assert Change(100.0, 90.0) == -10.0 && Change(100.0, 50.0) == -50.0;
    RoundToFixed(-10.0, SCALE_4, -100_000);
    RoundToFixed(-50.0, SCALE_4, -500_000);
    RoundToFixed(100.0, SCALE_2, 10_000);
  }

  lemma {:induction false} DeepestFloor(points: seq<Boundary>)
    requires NonNegative(points)
    ensures DeepestDrop(points, |points|) >= -100.0
  {
    DeepestDropIsLeast(points, |points|);
    if DeepestDrop(points, |points|) != 0.0 {
      var j :| 0 <= j < |points| && DeepestDrop(points, |points|) == DropAt(points, j);
      DropFloor(points, j);
    }
  }

  lemma {:induction false} DropFloor(points: seq<Boundary>, j: nat)
    requires j < |points| && points[j].value >= 0.0
    ensures DropAt(points, j) >= -100.0
  {
    var peak := points[PeakIndex(points, j)].value;
    if peak > 0.0 {
      HigherStartFallsFurther(peak, peak, points[j].value);
    }
  }

  lemma {:induction false} DropCeiling(points: seq<Boundary>, j: nat)
    requires j < |points|
    ensures DropAt(points, j) <= 0.0
  {
    var peak := points[PeakIndex(points, j)].value;
    if peak > 0.0 {
      ChangeAsRatio(peak, points[j].value);
      RatioBelowOne(points[j].value, peak);
    }
  }

  lemma {:induction false} RatioBelowOne(b: real, p: real)
    requires p > 0.0 && b <= p
    ensures b / p <= 1.0
  {
    DivTimes(b, p);
  }

  // ---------- the recovery status ----------

  /** The current and the deepest drop, before rounding. */
  function Current(points: seq<Boundary>): real
    requires points != []
  {
    DropAt(points, |points| - 1)
  }

  function Deepest(points: seq<Boundary>): real { DeepestDrop(points, |points|) }

  /** "In drawdown" is reported exactly at the deepest point. */
  predicate StatusIsExact(points: seq<Boundary>)
    requires points != []
  {
    Report(points).recovery.InDrawdown? <==> Current(points) == Deepest(points)
  }

  /** "At peak" means within the tolerance, up to the rounding of the current figure: down to -0.01005%. */
  lemma {:induction false} AtPeakIff(points: seq<Boundary>)
    requires points != []
    ensures Report(points).recovery.AtPeak? <==> Current(points) >= -0.01005
  {
    var x := Current(points) * SCALE_4;
    var k := RoundHalfEven(x);
    assert k >= -100 <==> x >= -100.5;
    assert RoundTo(Current(points), SCALE_4) == k as real / SCALE_4;
  }

  /** Away from the peak the status is exact exactly when rounding the current figure does not carry it across the
      deepest one. It can do so in two ways: upwards at the deepest point, which is then reported as recovering,
      and downwards from above it, which is then reported as being there. */
  lemma {:induction false} StatusExactIff(points: seq<Boundary>)
    requires points != [] && RoundTo(Current(points), SCALE_4) < -AT_PEAK_TOLERANCE_PCT
    ensures var c, d, rounded := Current(points), Deepest(points), RoundTo(Current(points), SCALE_4);
      && !Report(points).recovery.AtPeak?
      && (StatusIsExact(points) <==> (rounded <= d <==> c <= d))
      && (!StatusIsExact(points) <==> (c == d && c < rounded) || (rounded <= d < c))
      && (c == d ==> (Report(points).recovery.Recovering? <==> c < rounded))
  {
    DeepestDropIsLeast(points, |points|);
  }

  lemma {:induction false} TwoDrops(p: Boundary, q: Boundary)
    requires 0.0 <= q.value < p.value
    ensures Current([p, q]) == Deepest([p, q]) == Change(p.value, q.value)
  {
    var points := [p, q];
    assert PeakIndex(points, 0) == 0 && PeakIndex(points, 1) == 0;
    DropCeiling(points, 1);
    assert DropAt(points, 0) == 0.0;
    assert DeepestDrop(points, 1) == 0.0;
    assert DeepestDrop(points, 2) == DropAt(points, 1);
  }

  /** The first way: after a fall from 3 to 2 the deepest point is reported as recovering. */
  lemma {:induction false} TroughReportedAsRecovering(s: Snapshot, asOf: Instant)
    requires s.timestamp < asOf && s.portfolioValue == 3.0
    ensures var portfolio := Portfolio("main", "EUR", 2.0, [], [s]);
      var points := Boundaries(portfolio.snapshots, CurrentValue(portfolio, []), asOf);
      points != [] && Current(points) == Deepest(points) && Report(points).recovery.Recovering?
  {
    OneSnapshotThenNow(s, 2.0, asOf);
    TwoDrops(BoundaryOf(s), Boundary(asOf, 2.0));
    var d := Change(3.0, 2.0);
    assert d == -1.0 / 3.0 * 100.0;
    assert (d * SCALE_4).Floor == -333334;
    assert RoundHalfEven(d * SCALE_4) == -333333;
  }

  lemma {:induction false} ThreeDrops(p: Boundary, q: Boundary, r: Boundary)
    requires 0.0 <= q.value < r.value < p.value
    ensures Current([p, q, r]) == Change(p.value, r.value)
    ensures Deepest([p, q, r]) == Min(Change(p.value, q.value), Change(p.value, r.value))
  {
    var points := [p, q, r];
    assert PeakIndex(points, 0) == 0 && PeakIndex(points, 1) == 0 && PeakIndex(points, 2) == 0;
    DropCeiling(points, 1);
    assert DropAt(points, 0) == 0.0;
    assert DeepestDrop(points, 1) == 0.0;
    assert DeepestDrop(points, 2) == DropAt(points, 1);
    assert DeepestDrop(points, 3) == Min(DropAt(points, 1), DropAt(points, 2));
  }

  /** The second way: risen from 66666720 to 66666740 after a peak of 100000000, and still reported in drawdown. */
  lemma {:induction false} RecoveryReportedAsTrough(s1: Snapshot, s2: Snapshot, asOf: Instant)
    requires s1.timestamp < s2.timestamp < asOf
    requires s1.portfolioValue == 100_000_000.0 && s2.portfolioValue == 66_666_720.0
    ensures var portfolio := Portfolio("main", "EUR", 66_666_740.0, [], [s1, s2]);
      var points := Boundaries(portfolio.snapshots, CurrentValue(portfolio, []), asOf);
      points != [] && Current(points) > Deepest(points) && Report(points).recovery.InDrawdown?
  {
    TwoSnapshotsThenNow(s1, s2, 66_666_740.0, asOf);
    ThreeDrops(BoundaryOf(s1), BoundaryOf(s2), Boundary(asOf, 66_666_740.0));
    var c := Change(100_000_000.0, 66_666_740.0);
    assert c == -33.33326 && Change(100_000_000.0, 66_666_720.0) == -33.33328;
    assert (c * SCALE_4).Floor == -333333;
    assert RoundHalfEven(c * SCALE_4) == -333333;
  }

  /** Neither can happen where rounding changes nothing, nor the second more than half of the last digit above. */
  lemma {:induction false} StatusExactWithoutRounding(points: seq<Boundary>)
    requires points != [] && RoundTo(Current(points), SCALE_4) == Current(points) < -AT_PEAK_TOLERANCE_PCT
    ensures StatusIsExact(points)
  {
    StatusExactIff(points);
  }

  lemma {:induction false} ClearRecoveryIsReported(points: seq<Boundary>)
    requires points != [] && Current(points) > Deepest(points) + 0.00005
    ensures !Report(points).recovery.InDrawdown?
  {
    RoundToError(Current(points), SCALE_4);
  }
}
