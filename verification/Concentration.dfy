/** engine/calculators/position_analytics_calculator.py: how concentrated the positions are. */
module Concentration {
  import opened Models
  import opened Products
  import opened Rounding
  import opened Sequences
  import opened Sorting

  const TOP_N: nat := 5

  /** `PositionSummary`; the percentage has four places and is kept in ten-thousandths. */
  datatype PositionSummary = PositionSummary(symbol: string, units: int, gainPct: real)

  function Units(): PositionSummary -> real { (s: PositionSummary) => s.units as real }

  function Total(positions: seq<Position>): real { SumBy(MarketValue(), positions) }

  function Weight(total: real): Position -> real
    requires total > 0.0
  {
    (p: Position) => p.marketValueBase / total
  }

  function Squared(x: real): real { Times(x, x) }

  function WeightSquared(total: real): Position -> real
    requires total > 0.0
  {
    (p: Position) => Squared(p.marketValueBase / total)
  }

  /** The share in percent, before rounding. */
  function Percent(total: real): Position -> real
    requires total > 0.0
  {
    (p: Position) => Times(100.0, p.marketValueBase / total)
  }

  function Summarize(total: real, p: Position): PositionSummary
    requires total > 0.0
  {
    PositionSummary(p.holding.symbol, RoundHalfEven(Percent(total)(p) * SCALE_4), p.gainPct)
  }

  function Summaries(total: real, positions: seq<Position>): seq<PositionSummary>
    requires total > 0.0
  {
    if positions == [] then []
    else Summaries(total, positions[..|positions| - 1]) + [Summarize(total, positions[|positions| - 1])]
  }

  /** Largest share first; equal shares keep the order of the positions. */
  function LargestFirst(): PositionSummary -> int { (s: PositionSummary) => -s.units }

  function Take<T>(n: nat, s: seq<T>): seq<T> { if n < |s| then s[..n] else s }

  /** The first summary with the highest gain. */
  function Winner(s: seq<PositionSummary>): (w: PositionSummary)
    requires s != []
    ensures w in s && forall x :: x in s ==> x.gainPct <= w.gainPct
  {
    if |s| == 1 then s[0] else
    var w := Winner(s[..|s| - 1]);
    assert s == s[..|s| - 1] + [s[|s| - 1]];
    if s[|s| - 1].gainPct > w.gainPct then s[|s| - 1] else w
  }

  /** The first summary with the lowest gain. */
  function Loser(s: seq<PositionSummary>): (w: PositionSummary)
    requires s != []
    ensures w in s && forall x :: x in s ==> w.gainPct <= x.gainPct
  {
    if |s| == 1 then s[0] else
    var w := Loser(s[..|s| - 1]);
    assert s == s[..|s| - 1] + [s[|s| - 1]];
    if s[|s| - 1].gainPct < w.gainPct then s[|s| - 1] else w
  }

  datatype Analytics =
    | NoData(holdingCount: nat)
    | Analytics(largest: PositionSummary, winner: PositionSummary, loser: PositionSummary,
                top5Pct: real, diversification: real, herfindahl: real, holdingCount: nat)

  function HerfindahlExact(positions: seq<Position>): real
    requires Total(positions) > 0.0
  {
    SumBy(WeightSquared(Total(positions)), positions)
  }

  function Ranking(positions: seq<Position>): seq<PositionSummary>
    requires Total(positions) > 0.0
  {
    StableSort(LargestFirst(), Summaries(Total(positions), positions))
  }

  lemma {:induction false} RankingLength(positions: seq<Position>)
    requires Total(positions) > 0.0
    ensures |Ranking(positions)| == |positions|
  {
    SummariesLength(Total(positions), positions);
    StableSortPermutes(LargestFirst(), Summaries(Total(positions), positions));
  }

  lemma {:induction false} SummariesLength(total: real, positions: seq<Position>)
    requires total > 0.0
    ensures |Summaries(total, positions)| == |positions|
  {
    if positions != [] {
      SummariesLength(total, positions[..|positions| - 1]);
    }
  }

  /** The units of the five largest shares. */
  function Top5Units(positions: seq<Position>): real
    requires Total(positions) > 0.0
  {
    SumBy(Units(), Take(TOP_N, Ranking(positions)))
  }

  /** `calculate` */
  function Calculate(positions: seq<Position>): Analytics {
    if positions == [] then NoData(0)
    else if Total(positions) <= 0.0 then NoData(|positions|)
    else
      RankingLength(positions);
      var ranking := Ranking(positions);
      var herfindahl := RoundTo(HerfindahlExact(positions), SCALE_6);
      Analytics(ranking[0], Winner(ranking), Loser(ranking),
                RoundTo(Top5Units(positions) / SCALE_4, SCALE_4),
                RoundTo((1.0 - herfindahl) * 100.0, SCALE_2), herfindahl, |positions|)
  }

  // ---------- the Herfindahl index ----------

  predicate NonNegative(positions: seq<Position>) {
    forall p :: p in positions ==> p.marketValueBase >= 0.0
  }

  lemma {:induction false} QuotientByInverse(x: real, d: real)
    requires d != 0.0
    ensures x / d == Times(1.0 / d, x)
  {
    DivTimes(x, d);
    DivTimes(1.0, d);
    MulCancel(x / d, Times(1.0 / d, x), d);
  }

  lemma {:induction false} WeightsSumToOne(positions: seq<Position>)
    requires Total(positions) > 0.0
    ensures SumBy(Weight(Total(positions)), positions) == 1.0
  {
    var total := Total(positions);
    forall p | p in positions ensures Weight(total)(p) == Times(1.0 / total, MarketValue()(p)) {
      QuotientByInverse(p.marketValueBase, total);
    }
    SumByScale(1.0 / total, MarketValue(), Weight(total), positions);
    DivTimes(1.0, total);
  }

  function Deviation(total: real, c: real): Position -> real
    requires total > 0.0
  {
    (p: Position) => Squared(p.marketValueBase / total - c)
  }

  /** What a squared deviation from `c` adds to the squared weight. */
  function Correction(total: real, c: real): Position -> real
    requires total > 0.0
  {
    (p: Position) => Times(-2.0 * c, p.marketValueBase / total) + Squared(c)
  }

  function Scaled(total: real, f: real): Position -> real
    requires total > 0.0
  {
    (p: Position) => Times(f, p.marketValueBase / total)
  }

  function Constant<T>(c: real): T -> real { (_: T) => c }

  lemma {:induction false} SumOfConstant<T>(c: real, s: seq<T>)
    ensures SumBy(Constant<T>(c), s) == Times(c, |s| as real)
  {
    if s != [] {
      SumOfConstant(c, s[..|s| - 1]);
      TimesDistributes(c, (|s| - 1) as real, 1.0);
      TimesOne(c);
    }
  }

  lemma {:induction false} TimesExpands(x: real, y: real, c: real)
    ensures Times(x - c, y - c) == Times(x, y) + Times(-c, x) + Times(-c, y) + Times(c, c)
    ensures x == y ==> Times(-2.0 * c, x) == Times(-c, x) + Times(-c, y)
  {}

  lemma {:induction false} CorrectionOf(total: real, c: real, p: Position)
    requires total > 0.0
    ensures Deviation(total, c)(p) == WeightSquared(total)(p) + Correction(total, c)(p)
  {
    TimesExpands(p.marketValueBase / total, p.marketValueBase / total, c);
  }

  lemma {:induction false} DeviationTotal(total: real, c: real, positions: seq<Position>)
    requires total > 0.0
    ensures SumBy(Deviation(total, c), positions) ==
      SumBy(WeightSquared(total), positions) + Times(-2.0 * c, SumBy(Weight(total), positions))
        + Times(Squared(c), |positions| as real)
  {
    forall p | p in positions
      ensures Deviation(total, c)(p) == WeightSquared(total)(p) + Correction(total, c)(p)
    {
      CorrectionOf(total, c, p);
    }
    SumByPlus(Deviation(total, c), WeightSquared(total), Correction(total, c), positions);
    CorrectionTotal(total, c, positions);
  }

  lemma {:induction false} CorrectionTotal(total: real, c: real, positions: seq<Position>)
    requires total > 0.0
    ensures SumBy(Correction(total, c), positions) ==
      Times(-2.0 * c, SumBy(Weight(total), positions)) + Times(Squared(c), |positions| as real)
  {
    SumByPlus(Correction(total, c), Scaled(total, -2.0 * c), Constant(Squared(c)), positions);
    SumByScale(-2.0 * c, Weight(total), Scaled(total, -2.0 * c), positions);
    SumOfConstant(Squared(c), positions);
  }

  lemma {:induction false} Square(x: real)
    ensures Squared(x) >= 0.0 && (Squared(x) == 0.0 <==> x == 0.0)
  {
    TimesSign(x, x);
  }

  lemma {:induction false} MeanTerms(n: real, c: real)
    requires n > 0.0 && c == 1.0 / n
    ensures Times(Squared(c), n) == c && Times(-2.0 * c, 1.0) == -2.0 * c
  {
    DivTimes(1.0, n);
    TimesAssociate(c, c, n);
    TimesOne(c);
    assert Times(c, n) == 1.0;
  }

  /** The index is at least 1/n, and equal to it exactly when all positions have the same value. */
  lemma {:induction false} HerfindahlLowerBound(positions: seq<Position>)
    requires Total(positions) > 0.0
    ensures var n := |positions| as real;
      && n > 0.0
      && HerfindahlExact(positions) >= 1.0 / n
      && (HerfindahlExact(positions) == 1.0 / n <==>
        forall p :: p in positions ==> Weight(Total(positions))(p) == 1.0 / n)
  {
    assert positions != [];
    var total, n := Total(positions), |positions| as real;
    var c := 1.0 / n;
    WeightsSumToOne(positions);
    DeviationTotal(total, c, positions);
    MeanTerms(n, c);
    assert SumBy(Deviation(total, c), positions) == HerfindahlExact(positions) - c;
    forall p | p in positions
      ensures Constant<Position>(0.0)(p) <= Deviation(total, c)(p)
      ensures Deviation(total, c)(p) == 0.0 <==> Weight(total)(p) == c
    {
      Square(p.marketValueBase / total - c);
    }
    SumByMonotone(Constant<Position>(0.0), Deviation(total, c), positions);
    SumByZero(Constant<Position>(0.0), positions);
    if forall p :: p in positions ==> Weight(total)(p) == c {
      SumByZero(Deviation(total, c), positions);
    } else {
      var p :| p in positions && Weight(total)(p) != c;
      assert Constant<Position>(0.0)(p) < Deviation(total, c)(p);
    }
  }

  /** No element of a sum of non-negative terms exceeds the sum. */
  lemma {:induction false} TermWithinSum(w: Position -> real, s: seq<Position>, p: Position)
    requires p in s && forall x :: x in s ==> w(x) >= 0.0
    ensures w(p) <= SumBy(w, s)
  {
    var rest, last := s[..|s| - 1], s[|s| - 1];
    assert s == rest + [last];
    if p in rest {
      TermWithinSum(w, rest, p);
    } else {
      SumNonNegative(w, rest);
    }
  }

  lemma {:induction false} WeightInRange(positions: seq<Position>, p: Position)
    requires Total(positions) > 0.0 && NonNegative(positions) && p in positions
    ensures 0.0 <= Weight(Total(positions))(p) <= 1.0
  {
    var total := Total(positions);
    TermWithinSum(MarketValue(), positions, p);
    DivTimes(p.marketValueBase, total);
    DivMonotone(0.0, p.marketValueBase, total);
    DivMonotone(p.marketValueBase, total, total);
    DivTimes(total, total);
    MulCancel(total / total, 1.0, total);
  }

  lemma {:induction false} TimesComplement(x: real, y: real)
    ensures x - Times(x, y) == Times(x, 1.0 - y)
  {}

  lemma {:induction false} SquareWithinUnit(x: real)
    requires 0.0 <= x <= 1.0
    ensures 0.0 <= Squared(x) <= x
    ensures Squared(x) == x <==> x == 0.0 || x == 1.0
  {
    TimesSign(x, 1.0 - x);
    Square(x);
    TimesComplement(x, x);
  }

  /** For non-negative positions the index is at most 1, and equal to 1 exactly when one position is everything. */
  lemma {:induction false} HerfindahlUpperBound(positions: seq<Position>)
    requires Total(positions) > 0.0 && NonNegative(positions)
    ensures HerfindahlExact(positions) <= 1.0
    ensures HerfindahlExact(positions) == 1.0 <==> exists p :: p in positions && Weight(Total(positions))(p) == 1.0
  {
    var total := Total(positions);
    WeightsSumToOne(positions);
    forall p | p in positions
      ensures 0.0 <= WeightSquared(total)(p) <= Weight(total)(p)
      ensures WeightSquared(total)(p) == Weight(total)(p) <==> Weight(total)(p) == 0.0 || Weight(total)(p) == 1.0
    {
      WeightInRange(positions, p);
      SquareWithinUnit(p.marketValueBase / total);
    }
    SumByMonotone(WeightSquared(total), Weight(total), positions);
    if p :| p in positions && Weight(total)(p) == 1.0 {
      TermWithinSum(WeightSquared(total), positions, p);
    } else {
      if forall p :: p in positions ==> WeightSquared(total)(p) == Weight(total)(p) {
        SumByZero(Weight(total), positions);
      }
    }
  }

  // ---------- the five largest ----------

  lemma {:induction false} SummariesConcat(total: real, a: seq<Position>, b: seq<Position>)
    requires total > 0.0
    ensures Summaries(total, a + b) == Summaries(total, a) + Summaries(total, b)
  {
    if b == [] {
      assert a + b == a;
    } else {
      SummariesConcat(total, a, b[..|b| - 1]);
      assert (a + b)[..|a + b| - 1] == a + b[..|b| - 1];
    }
  }

  lemma {:induction false} SummariesHead(total: real, x: Position, s: seq<Position>)
    requires total > 0.0
    ensures Summaries(total, [x] + s) == [Summarize(total, x)] + Summaries(total, s)
  {
    SummariesConcat(total, [x], s);
    assert [x][..0] == [];
  }

  lemma {:induction false} SummariesTake(total: real, n: nat, s: seq<Position>)
    requires total > 0.0
    ensures Summaries(total, Take(n, s)) == Take(n, Summaries(total, s))
  {
    SummariesLength(total, s);
    if n < |s| {
      SummariesConcat(total, s[..n], s[n..]);
      SummariesLength(total, s[..n]);
      assert s == s[..n] + s[n..];
    }
  }

  /** The rank of a position is that of its summary. */
  function RankKey(total: real): Position -> int
    requires total > 0.0
  {
    (p: Position) => -Summarize(total, p).units
  }

  lemma {:induction false} InsertSummarized(total: real, x: Position, s: seq<Position>)
    requires total > 0.0
    ensures Summaries(total, Insert(RankKey(total), x, s)) ==
      Insert(LargestFirst(), Summarize(total, x), Summaries(total, s))
  {
    if s == [] {
      SummariesHead(total, x, s);
    } else {
      assert s == [s[0]] + s[1..];
      SummariesHead(total, s[0], s[1..]);
      if RankKey(total)(x) <= RankKey(total)(s[0]) {
        SummariesHead(total, x, s);
      } else {
        InsertSummarized(total, x, s[1..]);
        SummariesHead(total, s[0], Insert(RankKey(total), x, s[1..]));
      }
    }
  }

  lemma {:induction false} SortSummarized(total: real, s: seq<Position>)
    requires total > 0.0
    ensures Summaries(total, StableSort(RankKey(total), s)) == StableSort(LargestFirst(), Summaries(total, s))
  {
    if s != [] {
      assert s == [s[0]] + s[1..];
      SummariesHead(total, s[0], s[1..]);
      SortSummarized(total, s[1..]);
      InsertSummarized(total, s[0], StableSort(RankKey(total), s[1..]));
    }
  }

  /** The positions in the order of the ranking. */
  function Ranked(positions: seq<Position>): seq<Position>
    requires Total(positions) > 0.0
  {
    StableSort(RankKey(Total(positions)), positions)
  }

  /** The positions that the reported sum is about, and the others. */
  function TopPositions(positions: seq<Position>): seq<Position>
    requires Total(positions) > 0.0
  {
    Take(TOP_N, Ranked(positions))
  }

  function OtherPositions(positions: seq<Position>): seq<Position>
    requires Total(positions) > 0.0
  {
    Ranked(positions)[|TopPositions(positions)|..]
  }

  /** Together they are all positions, and the first five summaries of the ranking are those of the top positions. */
  lemma {:induction false} TopAndOthers(positions: seq<Position>)
    requires Total(positions) > 0.0
    ensures multiset(TopPositions(positions) + OtherPositions(positions)) == multiset(positions)
    ensures Summaries(Total(positions), TopPositions(positions)) == Take(TOP_N, Ranking(positions))
    ensures |TopPositions(positions)| <= TOP_N
  {
    var total := Total(positions);
    SortSummarized(total, positions);
    SummariesTake(total, TOP_N, Ranked(positions));
    StableSortPermutes(RankKey(total), positions);
    assert TopPositions(positions) + OtherPositions(positions) == Ranked(positions);
  }

  /** The reported share of a position, in ten-thousandths of a percent. */
  function UnitsOf(total: real): Position -> real
    requires total > 0.0
  {
    (p: Position) => Summarize(total, p).units as real
  }

  lemma {:induction false} UnitsSummarized(total: real, s: seq<Position>)
    requires total > 0.0
    ensures SumBy(Units(), Summaries(total, s)) == SumBy(UnitsOf(total), s)
  {
    if s != [] {
      UnitsSummarized(total, s[..|s| - 1]);
    }
  }

  lemma {:induction false} Top5IsTop(positions: seq<Position>)
    requires Total(positions) > 0.0
    ensures Top5Units(positions) == SumBy(UnitsOf(Total(positions)), TopPositions(positions))
  {
    TopAndOthers(positions);
    UnitsSummarized(Total(positions), TopPositions(positions));
  }

  lemma {:induction false} UnitsNonNegative(total: real, p: Position)
    requires total > 0.0 && p.marketValueBase >= 0.0
    ensures UnitsOf(total)(p) >= 0.0
  {
    DivTimes(p.marketValueBase, total);
    DivMonotone(0.0, p.marketValueBase, total);
    MulMonotone(0.0, p.marketValueBase / total, 100.0);
    assert Percent(total)(p) * SCALE_4 >= 0.0;
  }

  // ---------- the first of a descending sequence ----------

  function Above(w: Position -> real, m: real): Position -> real {
    (p: Position) => if w(p) > m then w(p) - m else 0.0
  }

  function AboveOr(w: Position -> real, m: real): Position -> real {
    (p: Position) => Above(w, m)(p) + Constant<Position>(m)(p)
  }

  /** A sum is at most what its terms have above `m`, plus `m` for each; and equal to it where no term is below `m`. */
  lemma {:induction false} SumAbove(w: Position -> real, m: real, s: seq<Position>)
    ensures SumBy(w, s) <= SumBy(Above(w, m), s) + Times(m, |s| as real)
    ensures (forall p :: p in s ==> w(p) >= m) ==> SumBy(w, s) == SumBy(Above(w, m), s) + Times(m, |s| as real)
  {
    SumByMonotone(w, AboveOr(w, m), s);
    SumByPlus(AboveOr(w, m), Above(w, m), Constant(m), s);
    SumOfConstant(m, s);
    if forall p :: p in s ==> w(p) >= m {
      SumByCongruence(w, AboveOr(w, m), s);
    }
  }

  predicate Descending(w: Position -> real, s: seq<Position>) {
    forall i, j :: 0 <= i < j < |s| ==> w(s[j]) <= w(s[i])
  }

  /** A bound between the first k and the rest of a descending sequence. */
  lemma {:induction false} Threshold(w: Position -> real, s: seq<Position>, k: nat) returns (m: real)
    requires Descending(w, s) && k > 0 && forall p :: p in s ==> w(p) >= 0.0
    ensures m >= 0.0 && (|s| < k ==> m == 0.0)
    ensures forall p :: p in Take(k, s) ==> w(p) >= m
    ensures forall p :: p in s[|Take(k, s)|..] ==> w(p) <= m
  {
    m := if |s| < k then 0.0 else w(s[k - 1]);
  }

  lemma {:induction false} SumSplit(w: Position -> real, s: seq<Position>, k: nat)
    requires k <= |s| && forall p :: p in s[k..] ==> w(p) == 0.0
    ensures SumBy(w, s) == SumBy(w, s[..k])
  {
    assert s == s[..k] + s[k..];
    SumByConcat(w, s[..k], s[k..]);
    SumByZero(w, s[k..]);
  }

  /** The first k of a descending sequence outweigh every choice of at most k of its elements. */
  lemma {:induction false} FirstOutweighs(w: Position -> real, s: seq<Position>, choice: seq<Position>, k: nat)
    requires Descending(w, s) && (forall p :: p in s ==> w(p) >= 0.0)
    requires multiset(choice) <= multiset(s) && |choice| <= k
    ensures SumBy(w, choice) <= SumBy(w, Take(k, s))
  {
    if k > 0 {
      var m := Threshold(w, s, k);
      var first := Take(k, s);
      SumAbove(w, m, choice);
      SumByPart(Above(w, m), choice, s);
      SumSplit(Above(w, m), s, |first|);
      assert s[..|first|] == first;
      SumAbove(w, m, first);
      TimesCount(m, |choice|, |first|, k);
    }
  }

  lemma {:induction false} TimesCount(m: real, a: nat, b: nat, k: nat)
    requires m >= 0.0 && a <= k && (b == k || m == 0.0)
    ensures Times(m, a as real) <= Times(m, b as real)
  {
    if m > 0.0 {
      TimesSign(m, (b - a) as real);
      TimesDistributes(m, a as real, (b - a) as real);
    }
  }

  // ---------- what the reported share of the five largest means ----------

  lemma {:induction false} RankedDescends(positions: seq<Position>)
    requires Total(positions) > 0.0
    ensures Descending(UnitsOf(Total(positions)), Ranked(positions))
  {
    var total, ranked := Total(positions), Ranked(positions);
    StableSortSpec(RankKey(total), positions);
    forall i, j | 0 <= i < j < |ranked| ensures UnitsOf(total)(ranked[j]) <= UnitsOf(total)(ranked[i]) {
      assert RankKey(total)(ranked[i]) <= RankKey(total)(ranked[j]);
    }
  }

  /** As reported, the five largest shares outweigh every choice of at most five positions. */
  lemma {:induction false} Top5Outweighs(positions: seq<Position>, choice: seq<Position>)
    requires Total(positions) > 0.0 && NonNegative(positions)
    requires multiset(choice) <= multiset(positions) && |choice| <= TOP_N
    ensures SumBy(Units(), Summaries(Total(positions), choice)) <= Top5Units(positions)
  {
    var total := Total(positions);
    var ranked := Ranked(positions);
    StableSortPermutes(RankKey(total), positions);
    RankedDescends(positions);
    forall p | p in ranked ensures UnitsOf(total)(p) >= 0.0 {
      UnitsNonNegative(total, p);
    }
    FirstOutweighs(UnitsOf(total), ranked, choice, TOP_N);
    UnitsSummarized(total, choice);
    Top5IsTop(positions);
  }

  /** What rounding the share of a position adds to it, in percent. */
  function RoundingGain(total: real): Position -> real
    requires total > 0.0
  {
    (p: Position) => UnitsOf(total)(p) / SCALE_4 - Percent(total)(p)
  }

  lemma {:induction false} GainWithinHalfUnit(total: real, p: Position)
    requires total > 0.0
    ensures -0.00005 <= RoundingGain(total)(p) <= 0.00005
  {
    var x := Percent(total)(p) * SCALE_4;
    assert -0.5 <= RoundHalfEven(x) as real - x <= 0.5;
  }

  /** The reported shares add up to the exact ones and what rounding adds to each, at most half a unit. */
  lemma {:induction false} UnitsAsPercent(total: real, s: seq<Position>)
    requires total > 0.0
    ensures SumBy(UnitsOf(total), s) / SCALE_4 == SumBy(Percent(total), s) + SumBy(RoundingGain(total), s)
    ensures -0.00005 * |s| as real <= SumBy(RoundingGain(total), s) <= 0.00005 * |s| as real
  {
    if s != [] {
      UnitsAsPercent(total, s[..|s| - 1]);
      GainWithinHalfUnit(total, s[|s| - 1]);
    }
  }

  /** Against exact shares the reported figure falls short by at most half a unit for each chosen position. */
  lemma {:induction false} Top5AgainstExact(positions: seq<Position>, choice: seq<Position>)
    requires Total(positions) > 0.0 && NonNegative(positions)
    requires multiset(choice) <= multiset(positions) && |choice| <= TOP_N
    ensures Top5Units(positions) / SCALE_4 >= SumBy(Percent(Total(positions)), choice) - 0.00005 * |choice| as real
  {
    Top5Outweighs(positions, choice);
    UnitsSummarized(Total(positions), choice);
    UnitsAsPercent(Total(positions), choice);
  }

  /** The shares of the top positions and of the others are 100% together. */
  lemma {:induction false} PercentSplit(positions: seq<Position>)
    requires Total(positions) > 0.0
    ensures var w := Percent(Total(positions));
      SumBy(w, TopPositions(positions)) + SumBy(w, OtherPositions(positions)) == 100.0
  {
    var w := Percent(Total(positions));
    SumByScale(100.0, Weight(Total(positions)), w, positions);
    WeightsSumToOne(positions);
    TopAndOthers(positions);
    SumByPermutation(w, TopPositions(positions) + OtherPositions(positions), positions);
    SumByConcat(w, TopPositions(positions), OtherPositions(positions));
  }

  /** The five largest shares are reported as more than 100% exactly when rounding adds more to them than the other
      positions are worth. That takes other positions worth less than a quarter of a thousandth of a percent
      together. */
  lemma {:induction false} Top5AboveHundredIff(positions: seq<Position>)
    requires Total(positions) > 0.0
    ensures var others := SumBy(Percent(Total(positions)), OtherPositions(positions));
      && (Top5Units(positions) / SCALE_4 > 100.0 <==>
        SumBy(RoundingGain(Total(positions)), TopPositions(positions)) > others)
      && (others >= 0.00025 ==> Top5Units(positions) / SCALE_4 <= 100.0)
  {
    PercentSplit(positions);
    TopAndOthers(positions);
    Top5IsTop(positions);
    UnitsAsPercent(Total(positions), TopPositions(positions));
  }

  lemma {:induction false} OthersNonNegative(positions: seq<Position>)
    requires Total(positions) > 0.0 && NonNegative(positions)
    ensures SumBy(Percent(Total(positions)), OtherPositions(positions)) >= 0.0
  {
    var w := Percent(Total(positions));
    TopAndOthers(positions);
    SameElements(TopPositions(positions) + OtherPositions(positions), positions);
    forall p | p in OtherPositions(positions) ensures w(p) >= 0.0 {
      assert p in TopPositions(positions) + OtherPositions(positions);
      DivMonotone(0.0, p.marketValueBase, Total(positions));
    }
    SumNonNegative(w, OtherPositions(positions));
  }

  /** Rounding each share first can push the sum above 100%, but by at most two ten-thousandths of a percent. */
  lemma {:induction false} Top5AtMost(positions: seq<Position>)
    requires Total(positions) > 0.0 && NonNegative(positions)
    ensures Top5Units(positions) / SCALE_4 <= 100.0002
  {
    PercentSplit(positions);
    OthersNonNegative(positions);
    TopAndOthers(positions);
    Top5IsTop(positions);
    UnitsAsPercent(Total(positions), TopPositions(positions));
    WholeUnits(Take(TOP_N, Ranking(positions)));
    assert TotalUnits(Take(TOP_N, Ranking(positions))) <= 1_000_002;
  }

  function TotalUnits(s: seq<PositionSummary>): int {
    if s == [] then 0 else TotalUnits(s[..|s| - 1]) + s[|s| - 1].units
  }

  lemma {:induction false} WholeUnits(s: seq<PositionSummary>)
    ensures SumBy(Units(), s) == TotalUnits(s) as real
  {
    if s != [] {
      WholeUnits(s[..|s| - 1]);
    }
  }

  /** Everything the ranking is made of, in another order. */
  lemma {:induction false} RankingPermutes(positions: seq<Position>)
    requires Total(positions) > 0.0
    ensures multiset(Ranking(positions)) == multiset(Summaries(Total(positions), positions))
    ensures forall i, j :: 0 <= i < j < |Ranking(positions)| ==>
      Ranking(positions)[j].units <= Ranking(positions)[i].units
  {
    StableSortPermutes(LargestFirst(), Summaries(Total(positions), positions));
    StableSortSpec(LargestFirst(), Summaries(Total(positions), positions));
    var r := Ranking(positions);
    forall i, j | 0 <= i < j < |r| ensures r[j].units <= r[i].units {
      assert LargestFirst()(r[i]) <= LargestFirst()(r[j]);
    }
  }

  /** Everything that is reported, for non-negative positions worth something: the index between 1/n and 1, the
      score between 0 and 100, the largest share first, and the five largest shares in whole units. */
  lemma {:induction false} ReportedBounds(positions: seq<Position>)
    requires positions != [] && Total(positions) > 0.0 && NonNegative(positions)
    ensures var a := Calculate(positions);
      && a.Analytics? && a.holdingCount == |positions|
      && RoundTo(1.0 / |positions| as real, SCALE_6) <= a.herfindahl <= 1.0
      && 0.0 <= a.diversification <= 100.0
      && a.top5Pct == Top5Units(positions) / SCALE_4
      && (forall x :: x in Summaries(Total(positions), positions) ==>
        x.units <= a.largest.units && a.loser.gainPct <= x.gainPct <= a.winner.gainPct)
  {
    HerfindahlReported(positions);
    WholeUnits(Take(TOP_N, Ranking(positions)));
    RoundToFixed(Top5Units(positions) / SCALE_4, SCALE_4, TotalUnits(Take(TOP_N, Ranking(positions))));
    LargestIsFirst(positions);
  }

  lemma {:induction false} HerfindahlReported(positions: seq<Position>)
    requires positions != [] && Total(positions) > 0.0 && NonNegative(positions)
    ensures var h := RoundTo(HerfindahlExact(positions), SCALE_6);
      RoundTo(1.0 / |positions| as real, SCALE_6) <= h <= 1.0 && 0.0 <= RoundTo((1.0 - h) * 100.0, SCALE_2) <= 100.0
  {
    var exact := HerfindahlExact(positions);
    HerfindahlLowerBound(positions);
    HerfindahlUpperBound(positions);
    RoundToMonotone(1.0 / |positions| as real, exact, SCALE_6);
    RoundToMonotone(exact, 1.0, SCALE_6);
    RoundToFixed(1.0, SCALE_6, 1_000_000);
    DivMonotone(0.0, 1.0, |positions| as real);
    RoundToMonotone(0.0, exact, SCALE_6);
    RoundToFixed(0.0, SCALE_6, 0);
    ScoreBounds(RoundTo(exact, SCALE_6));
  }

  lemma {:induction false} ScoreBounds(h: real)
    requires 0.0 <= h <= 1.0
    ensures 0.0 <= RoundTo((1.0 - h) * 100.0, SCALE_2) <= 100.0
  {
    RoundToMonotone(0.0, (1.0 - h) * 100.0, SCALE_2);
    RoundToMonotone((1.0 - h) * 100.0, 100.0, SCALE_2);
    RoundToFixed(0.0, SCALE_2, 0);
    RoundToFixed(100.0, SCALE_2, 10_000);
  }

  lemma {:induction false} LargestIsFirst(positions: seq<Position>)
    requires positions != [] && Total(positions) > 0.0
    ensures |Ranking(positions)| == |positions|
    ensures forall x :: x in Summaries(Total(positions), positions) ==>
      x in Ranking(positions) && x.units <= Ranking(positions)[0].units
  {
    RankingPermutes(positions);
    RankingLength(positions);
    var ranking := Ranking(positions);
    forall x | x in Summaries(Total(positions), positions)
      ensures x in ranking && x.units <= ranking[0].units
    {
      assert x in multiset(ranking);
      var i :| 0 <= i < |ranking| && ranking[i] == x;
    }
  }

  lemma {:induction false} SharesRoundedUp(h: Holding)
    ensures UnitsOf(10_000_000.0)(Position(h, 1_999_996.0, 0.0)) == 200_000.0
    ensures UnitsOf(10_000_000.0)(Position(h, 2_000_016.0, 0.0)) == 200_002.0
  {
    assert Percent(10_000_000.0)(Position(h, 1_999_996.0, 0.0)) * SCALE_4 == 199_999.6;
    assert Percent(10_000_000.0)(Position(h, 2_000_016.0, 0.0)) * SCALE_4 == 200_001.6;
  }

  lemma {:induction false} FiveAreTop(positions: seq<Position>)
    requires Total(positions) > 0.0 && |positions| <= TOP_N
    ensures Top5Units(positions) == SumBy(UnitsOf(Total(positions)), positions)
  {
    var t := Total(positions);
    Top5IsTop(positions);
    StableSortPermutes(RankKey(t), positions);
    SumByPermutation(UnitsOf(t), Ranked(positions), positions);
  }

  /** Five positions whose rounded shares are reported as 100.0002%. */
  lemma {:induction false} Top5AboveHundred(h: Holding)
    ensures var p, q := Position(h, 1_999_996.0, 0.0), Position(h, 2_000_016.0, 0.0);
      Total([p, p, p, p, q]) > 0.0 && Top5Units([p, p, p, p, q]) / SCALE_4 == 100.0002
  {
    var p, q := Position(h, 1_999_996.0, 0.0), Position(h, 2_000_016.0, 0.0);
    SumOfFive(MarketValue(), p, q);
    assert Total([p, p, p, p, q]) == 10_000_000.0;
    FiveAreTop([p, p, p, p, q]);
    SharesRoundedUp(h);
    SumOfFive(UnitsOf(10_000_000.0), p, q);
  }

  lemma {:induction false} SumOfFive<T>(w: T -> real, p: T, q: T)
    ensures SumBy(w, [p, p, p, p, q]) == 4.0 * w(p) + w(q)
  {
    var s1: seq<T> := [p];
    var s2, s3, s4 := s1 + [p], s1 + [p] + [p], s1 + [p] + [p] + [p];
    SumOfNext(w, [], p);
    assert [] + [p] == s1;
    SumOfNext(w, s1, p);
    SumOfNext(w, s2, p);
    SumOfNext(w, s3, p);
    SumOfNext(w, s4, q);
    assert s4 + [q] == [p, p, p, p, q];
  }

  lemma {:induction false} SumOfNext<T>(w: T -> real, s: seq<T>, x: T)
    ensures SumBy(w, s + [x]) == SumBy(w, s) + w(x)
  {
    assert (s + [x])[..|s|] == s;
  }

  // ---------- the other reported figures ----------

  /** Nothing is reported exactly when there is no position or the positions are worth nothing together. */
  lemma {:induction false} NoDataIff(positions: seq<Position>)
    ensures Calculate(positions) == NoData(|positions|) <==> positions == [] || SumBy(MarketValue(), positions) <= 0.0
    ensures !Calculate(positions).NoData? ==> Calculate(positions).holdingCount == |positions|
  {}

  /** The reported index is the exact one to within half a millionth, and the score is one less the index, in
      percent. */
  lemma {:induction false} IndexAndScore(positions: seq<Position>)
    requires positions != [] && Total(positions) > 0.0
    ensures var a := Calculate(positions);
      && a.Analytics?
      && -0.0000005 <= a.herfindahl - HerfindahlExact(positions) <= 0.0000005
      && -0.005 <= a.diversification - 100.0 * (1.0 - a.herfindahl) <= 0.005
  {
    RoundedClose(HerfindahlExact(positions));
    RoundedClose((1.0 - RoundTo(HerfindahlExact(positions), SCALE_6)) * 100.0);
  }

  /** The more concentrated of two portfolios never has the higher score. */
  lemma {:induction false} ScoreFalls(x: seq<Position>, y: seq<Position>)
    requires Calculate(x).Analytics? && Calculate(y).Analytics?
    requires HerfindahlExact(x) <= HerfindahlExact(y)
    ensures Calculate(x).herfindahl <= Calculate(y).herfindahl
    ensures Calculate(y).diversification <= Calculate(x).diversification
  {
    RoundToMonotone(HerfindahlExact(x), HerfindahlExact(y), SCALE_6);
    assert Calculate(x).herfindahl == RoundTo(HerfindahlExact(x), SCALE_6);
    assert Calculate(y).herfindahl == RoundTo(HerfindahlExact(y), SCALE_6);
    LowerScore(RoundTo(HerfindahlExact(x), SCALE_6), RoundTo(HerfindahlExact(y), SCALE_6));
  }

  lemma {:induction false} LowerScore(h: real, k: real)
    requires h <= k
    ensures RoundTo((1.0 - k) * 100.0, SCALE_2) <= RoundTo((1.0 - h) * 100.0, SCALE_2)
  {
    RoundToMonotone((1.0 - k) * 100.0, (1.0 - h) * 100.0, SCALE_2);
  }

  /** A single position has the index 1 and the score 0. */
  lemma {:induction false} OnePositionScoresZero(p: Position)
    requires p.marketValueBase > 0.0
    ensures Calculate([p]).Analytics? && Calculate([p]).herfindahl == 1.0 && Calculate([p]).diversification == 0.0
  {
    SumOfNext(MarketValue(), [], p);
    assert [] + [p] == [p];
    DivTimes(p.marketValueBase, p.marketValueBase);
    WeightsSumToOne([p]);
    SumOfNext(Weight(Total([p])), [], p);
    HerfindahlUpperBound([p]);
    RoundToFixed(1.0, SCALE_6, 1_000_000);
    RoundToFixed(0.0, SCALE_2, 0);
  }

  /** Equal positions, four of them, have the index 0.25 and the score 75. */
  lemma {:induction false} FourEqualPositions(p: Position)
    requires p.marketValueBase > 0.0
    ensures var a := Calculate([p, p, p, p]); a.Analytics? && a.herfindahl == 0.25 && a.diversification == 75.0
  {
    QuarterEach(p);
    RoundToFixed(0.25, SCALE_6, 250_000);
    RoundToFixed(75.0, SCALE_2, 7_500);
  }

  lemma {:induction false} QuarterEach(p: Position)
    requires p.marketValueBase > 0.0
    ensures Total([p, p, p, p]) > 0.0 && HerfindahlExact([p, p, p, p]) == 0.25
  {
    var s := [p, p, p, p];
    SumOfFour(MarketValue(), p);
    WeightsSumToOne(s);
    SumOfFour(Weight(Total(s)), p);
    HerfindahlLowerBound(s);
  }

  lemma {:induction false} SumOfFour(w: Position -> real, p: Position)
    ensures SumBy(w, [p, p, p, p]) == 4.0 * w(p)
  {
    SumOfNext(w, [], p);
    assert [] + [p] == [p];
    SumOfNext(w, [p], p);
    SumOfNext(w, [p, p], p);
    SumOfNext(w, [p, p, p], p);
    assert [p] + [p] == [p, p] && [p, p] + [p] == [p, p, p] && [p, p, p] + [p] == [p, p, p, p];
  }

  /** A summary is that of a position, and every position has one. */
  lemma {:induction false} SummariesOf(total: real, positions: seq<Position>, x: PositionSummary)
    requires total > 0.0
    ensures x in Summaries(total, positions) <==> exists p :: p in positions && x == Summarize(total, p)
  {
    if positions != [] {
      var rest, last := positions[..|positions| - 1], positions[|positions| - 1];
      SummariesOf(total, rest, x);
      assert forall p :: p in positions <==> p in rest || p == last;
    }
  }

  /** `x` is what is reported for `p`: its symbol, its gain, and its share in percent to four places. */
  predicate Describes(x: PositionSummary, p: Position, total: real)
    requires total > 0.0
  {
    && x.symbol == p.holding.symbol && x.gainPct == p.gainPct
    && -0.00005 <= x.units as real / 10_000.0 - 100.0 * (p.marketValueBase / total) <= 0.00005
  }

  lemma {:induction false} SummaryDescribes(total: real, p: Position)
    requires total > 0.0
    ensures Describes(Summarize(total, p), p, total)
  {
    GainWithinHalfUnit(total, p);
  }

  /** The largest position is worth as much as any other, up to the rounding of their shares; the winner has the highest
      gain of all positions and the loser the lowest. */
  lemma {:induction false} Standouts(positions: seq<Position>, q: Position)
    requires positions != [] && Total(positions) > 0.0 && q in positions
    ensures var a, total := Calculate(positions), Total(positions);
      && a.Analytics?
      && (exists p :: p in positions && Describes(a.largest, p, total))
      && 100.0 * (q.marketValueBase / total) - 0.00005 <= a.largest.units as real / 10_000.0
      && (exists p :: p in positions && Describes(a.winner, p, total)) && q.gainPct <= a.winner.gainPct
      && (exists p :: p in positions && Describes(a.loser, p, total)) && a.loser.gainPct <= q.gainPct
  {
    var total, a := Total(positions), Calculate(positions);
    LargestIsFirst(positions);
    RankingPermutes(positions);
    SameElements(Ranking(positions), Summaries(total, positions));
    SummariesOf(total, positions, Summarize(total, q));
    SummaryDescribes(total, q);
    IsOfAPosition(positions, a.largest);
    IsOfAPosition(positions, a.winner);
    IsOfAPosition(positions, a.loser);
  }

  lemma {:induction false} IsOfAPosition(positions: seq<Position>, x: PositionSummary)
    requires Total(positions) > 0.0 && x in Summaries(Total(positions), positions)
    ensures exists p :: p in positions && Describes(x, p, Total(positions))
  {
    SummariesOf(Total(positions), positions, x);
    var p :| p in positions && x == Summarize(Total(positions), p);
    SummaryDescribes(Total(positions), p);
  }
}
