/** What a replay means: net positions, cost basis, order, and when it can fail. */
module ReplayLaws {
  import opened CashFlows
  import opened Models
  import opened Replay
  import opened Rounding
  import opened Sequences
  import opened Sorting
  import opened Wrappers

  // ---------- symbols do not affect each other ----------

  /** The table holds for each symbol what the symbol's own transactions make of it. */
  lemma {:induction false} LotsBySymbol(log: seq<Transaction>, symbol: string)
    requires ValidLog(log)
    ensures Lookup(ReplayLots(log), symbol) == SymbolLot(log, symbol)
  {
    if log != [] {
      LotsBySymbol(log[..|log| - 1], symbol);
    }
  }

  lemma {:induction false} ValidFilter(p: Transaction -> bool, log: seq<Transaction>)
    requires ValidLog(log)
    ensures ValidLog(Filter(p, log))
  {
    forall i | 0 <= i < |Filter(p, log)| ensures ValidTransaction(Filter(p, log)[i]) {
      assert Filter(p, log)[i] in log;
    }
  }

  /** Only the transactions that move a symbol decide its lot. */
  lemma {:induction false} SymbolsIndependent(log: seq<Transaction>, symbol: string)
    requires ValidLog(log)
    ensures ValidLog(Filter(Moving(symbol), log))
    ensures SymbolLot(log, symbol) == SymbolLot(Filter(Moving(symbol), log), symbol)
  {
    ValidFilter(Moving(symbol), log);
    if log != [] {
      var rest, t := log[..|log| - 1], log[|log| - 1];
      SymbolsIndependent(rest, symbol);
      var f := Filter(Moving(symbol), log);
      if Moves(t, symbol) {
        assert f[..|f| - 1] == Filter(Moving(symbol), rest) && f[|f| - 1] == t;
      }
    }
  }

  // ---------- net shares ----------

  function ShareEffect(symbol: string): Transaction -> real {
    (t: Transaction) =>
      if !Moves(t, symbol) || t.shares.None? then 0.0
      else if IncreasesShares(t.kind) then t.shares.value else -t.shares.value
  }

  /** Everything bought or transferred in, minus everything sold or transferred out. */
  function NetShares(log: seq<Transaction>, symbol: string): real {
    SumBy(ShareEffect(symbol), log)
  }

  lemma {:induction false} LotShares(log: seq<Transaction>, symbol: string)
    requires ValidLog(log)
    ensures SymbolLot(log, symbol).None? <==> forall t :: t in log ==> !Moves(t, symbol)
    ensures SymbolLot(log, symbol).Some? ==> SymbolLot(log, symbol).value.shares == NetShares(log, symbol)
    ensures SymbolLot(log, symbol).None? ==> NetShares(log, symbol) == 0.0
  {
    if log != [] {
      var rest, t := log[..|log| - 1], log[|log| - 1];
      assert log == rest + [t];
      LotShares(rest, symbol);
      assert forall x :: x in log <==> x in rest || x == t;
    }
  }

  /** A sum over the log does not notice the sort. */
  lemma {:induction false} SumInOrder(w: Transaction -> real, log: seq<Transaction>)
    ensures SumBy(w, Ordered(log)) == SumBy(w, log)
  {
    StableSortPermutes(ByDate(), log);
    SumByPermutation(w, Ordered(log), log);
  }

  lemma {:induction false} MovesInOrder(log: seq<Transaction>, symbol: string)
    ensures (exists t :: t in Ordered(log) && Moves(t, symbol)) <==> exists t :: t in log && Moves(t, symbol)
  {
    StableSortPermutes(ByDate(), log);
  }

  /** The shares a replay reports: the net position, but never below zero. */
  lemma {:induction false} HoldingShares(r: ReplayResult, log: seq<Transaction>, opening: real, symbol: string)
    requires ValidLog(log) && ValidLog(Ordered(log)) && IsReplayOf(Success(r), log, opening)
    ensures symbol in r.holdings <==> exists t :: t in log && Moves(t, symbol)
    ensures symbol in r.holdings ==>
      r.holdings[symbol].shares == if NetShares(log, symbol) < 0.0 then 0.0 else NetShares(log, symbol)
  {
    var o := Ordered(log);
    SumInOrder(ShareEffect(symbol), log);
    MovesInOrder(log, symbol);
    LotsBySymbol(o, symbol);
    LotShares(o, symbol);
    SeenAreKeys(o);
  }

  /** The symbol first moves with the k-th transaction. */
  predicate IsFirstMove(log: seq<Transaction>, symbol: string, k: int) {
    0 <= k < |log| && Moves(log[k], symbol) && forall j :: 0 <= j < k ==> !Moves(log[j], symbol)
  }

  /** A lot has the currency of the first movement of its symbol. */
  lemma {:induction false} LotHasFirstCurrency(log: seq<Transaction>, symbol: string)
    requires ValidLog(log) && SymbolLot(log, symbol).Some?
    ensures exists k :: IsFirstMove(log, symbol, k) && SymbolLot(log, symbol).value.currency == log[k].currency
  {
    var rest, t := log[..|log| - 1], log[|log| - 1];
    if SymbolLot(rest, symbol).Some? {
      LotHasFirstCurrency(rest, symbol);
      var k :| IsFirstMove(rest, symbol, k) && SymbolLot(rest, symbol).value.currency == rest[k].currency;
      assert IsFirstMove(log, symbol, k);
    } else {
      LotShares(rest, symbol);
      forall j | 0 <= j < |log| - 1 ensures !Moves(log[j], symbol) {
        assert log[j] == rest[j];
      }
      assert IsFirstMove(log, symbol, |log| - 1);
    }
  }

  /** Everything else that a reported holding says: a stock without an account, in the currency of its first
      movement, its average price rounded to six places. */
  lemma {:induction false} HoldingFigures(r: ReplayResult, log: seq<Transaction>, opening: real, symbol: string)
    requires ValidLog(Ordered(log)) && IsReplayOf(Success(r), log, opening) && symbol in r.holdings
    ensures var h, o := r.holdings[symbol], Ordered(log);
      && h.symbol == symbol && h.assetType == "stock" && h.account == None
      && (exists k :: IsFirstMove(o, symbol, k) && h.currency == o[k].currency)
      && SymbolLot(o, symbol).Some?
      && -0.0000005 <= h.avgPrice - SymbolLot(o, symbol).value.avgPrice <= 0.0000005
  {
    var o := Ordered(log);
    LotsBySymbol(o, symbol);
    LotHasFirstCurrency(o, symbol);
    RoundedClose(SymbolLot(o, symbol).value.avgPrice);
  }

  /** The symbols are listed in the order of their first movements. */
  lemma {:induction false} FirstSeenInOrder(log: seq<Transaction>, i: nat, j: nat, k: int, m: int)
    requires ValidLog(log) && i < j < |FirstSeen(log)|
    requires IsFirstMove(log, FirstSeen(log)[i], k) && IsFirstMove(log, FirstSeen(log)[j], m)
    ensures k < m
  {
    var n := |log| - 1;
    var rest, keys := log[..n], FirstSeen(log[..n]);
    SeenAreKeys(log);
    SeenAreKeys(rest);
    if j < |keys| {
      MovedBefore(rest, keys[i]);
      MovedBefore(rest, keys[j]);
      FirstSeenInOrder(rest, i, j, k, m);
    } else {
      MovedBefore(rest, keys[i]);
      assert m == n by {
        if m < n {
          assert rest[m] == log[m];
          MovedIsSeen(rest, FirstSeen(log)[j], m);
        }
      }
    }
  }

  /** A symbol that is listed has moved. */
  lemma {:induction false} MovedBefore(log: seq<Transaction>, symbol: string)
    requires ValidLog(log) && symbol in FirstSeen(log)
    ensures exists k :: 0 <= k < |log| && Moves(log[k], symbol)
  {
    SeenAreKeys(log);
    LotsBySymbol(log, symbol);
    LotShares(log, symbol);
    var t :| t in log && Moves(t, symbol);
    var k :| 0 <= k < |log| && log[k] == t;
  }

  lemma {:induction false} MovedIsSeen(log: seq<Transaction>, symbol: string, k: nat)
    requires ValidLog(log) && k < |log| && Moves(log[k], symbol)
    ensures symbol in FirstSeen(log)
  {
    SeenAreKeys(log);
    LotsBySymbol(log, symbol);
    LotShares(log, symbol);
    assert log[k] in log;
  }

  predicate OnePerSymbol(ws: seq<Warning>) {
    forall i, j :: 0 <= i < j < |ws| ==> ws[i].symbol != ws[j].symbol
  }

  /** One warning, carrying the net position, for each symbol that ends short, and no other. */
  lemma {:induction false} ReplayWarnings(r: ReplayResult, log: seq<Transaction>, opening: real)
    requires ValidLog(log) && ValidLog(Ordered(log)) && IsReplayOf(Success(r), log, opening)
    ensures forall w :: w in r.warnings <==> NetShares(log, w.symbol) < 0.0 && w.shares == NetShares(log, w.symbol)
    ensures OnePerSymbol(r.warnings)
  {
    var o := Ordered(log);
    SeenAreKeys(o);
    WarningsMeaning(FirstSeen(o), ReplayLots(o));
    forall w: Warning
      ensures w in r.warnings <==> NetShares(log, w.symbol) < 0.0 && w.shares == NetShares(log, w.symbol)
    {
      SumInOrder(ShareEffect(w.symbol), log);
      LotsBySymbol(o, w.symbol);
      LotShares(o, w.symbol);
    }
  }

  lemma {:induction false} WarningsMeaning(keys: seq<string>, lots: map<string, Lot>)
    requires Distinct(keys)
    ensures forall w :: w in WarningsFor(keys, lots) <==>
      w.symbol in keys && w.symbol in lots && lots[w.symbol].shares < 0.0 && w.shares == lots[w.symbol].shares
    ensures OnePerSymbol(WarningsFor(keys, lots))
  {
    if keys != [] {
      var rest, k := keys[..|keys| - 1], keys[|keys| - 1];
      assert keys == rest + [k];
      WarningsMeaning(rest, lots);
      var ws, all := WarningsFor(rest, lots), WarningsFor(keys, lots);
      forall i, j | 0 <= i < j < |all| ensures all[i].symbol != all[j].symbol {
        assert all[i] == ws[i] && ws[i] in ws;
      }
    }
  }

  /** The cash balance is the opening balance plus the signed amounts, in any order, rounded to cents. */
  lemma {:induction false} ReplayCash(r: ReplayResult, log: seq<Transaction>, opening: real)
    requires ValidLog(Ordered(log)) && IsReplayOf(Success(r), log, opening)
    ensures r.cashBalance == RoundTo(opening + SumBy(CashEffect(), log), SCALE_2)
  {
    SumInOrder(CashEffect(), log);
  }

  function AmountIn(kinds: set<TransactionType>): Transaction -> real {
    (t: Transaction) => if t.kind in kinds then t.amount else 0.0
  }

  /** What the transactions of these kinds amount to. */
  function TotalOf(log: seq<Transaction>, kinds: set<TransactionType>): real { SumBy(AmountIn(kinds), log) }

  /** Deposits, sales and dividends bring cash; purchases, withdrawals and fees cost it; transfers move none. */
  lemma {:induction false} CashByKind(log: seq<Transaction>)
    ensures SumBy(CashEffect(), log) == TotalOf(log, {Deposit, Sell, Dividend}) - TotalOf(log, {Buy, Withdrawal, Fee})
  {
    if log != [] {
      CashByKind(log[..|log| - 1]);
    }
  }

  /** So the replayed balance is, to the cent, what came in less what went out. */
  lemma {:induction false} ReplayCashByKind(r: ReplayResult, log: seq<Transaction>, opening: real)
    requires ValidLog(Ordered(log)) && IsReplayOf(Success(r), log, opening)
    ensures var cash := opening + TotalOf(log, {Deposit, Sell, Dividend}) - TotalOf(log, {Buy, Withdrawal, Fee});
      -0.005 <= r.cashBalance - cash <= 0.005
  {
    ReplayCash(r, log, opening);
    CashByKind(log);
    RoundedClose(opening + SumBy(CashEffect(), log));
  }

  /** What one more transaction, anywhere in the log, does to the cash and to the position in a symbol. */
  lemma {:induction false} RecordingMoves(a: seq<Transaction>, t: Transaction, c: seq<Transaction>, symbol: string)
    requires ValidTransaction(t)
    ensures SumBy(CashEffect(), a + [t] + c) - SumBy(CashEffect(), a + c) ==
      match t.kind
      case Deposit | Sell | Dividend => t.amount
      case Withdrawal | Buy | Fee => -t.amount
      case TransferIn | TransferOut => 0.0
    ensures NetShares(a + [t] + c, symbol) - NetShares(a + c, symbol) ==
      match t.kind
      case Buy | TransferIn => if t.symbol.value == symbol then t.shares.value else 0.0
      case Sell | TransferOut => if t.symbol.value == symbol then -t.shares.value else 0.0
      case Deposit | Withdrawal | Dividend | Fee => 0.0
  {
    SumByInsert(CashEffect(), a, t, c);
    SumByInsert(ShareEffect(symbol), a, t, c);
  }

  /** Cash that comes from or goes to the investor is the external flow with the opposite sign. */
  lemma {:induction false} CashMirrorsFlow(t: Transaction)
    requires ValidTransaction(t) && (t.kind.Deposit? || t.kind.Withdrawal?)
    ensures FlowOf(t) == [Flow(t.date, -CashEffect()(t))]
  {}

  // ---------- order ----------

  /** A reordering that keeps transactions of equal date in their relative order. */
  ghost predicate SameOrderWithinDates(a: seq<Transaction>, b: seq<Transaction>) {
    SameTies(ByDate(), a, b)
  }

  /** The replay does not see such a reordering at all: same holdings, warnings, cash, or refusal. */
  lemma {:induction false} ReplayOrderIndependent(a: seq<Transaction>, b: seq<Transaction>, opening: real,
      r: Result<ReplayResult, string>)
    requires ValidLog(a) && ValidLog(b) && SameOrderWithinDates(a, b)
    ensures ValidLog(Ordered(a)) && ValidLog(Ordered(b))
    ensures IsReplayOf(r, a, opening) <==> IsReplayOf(r, b, opening)
  {
    OrderedFacts(a);
    OrderedFacts(b);
    StableSortDetermined(ByDate(), a, b);
  }

  /** With distinct dates every permutation is such a reordering. */
  lemma {:induction false} DistinctDatesAnyOrder(a: seq<Transaction>, b: seq<Transaction>, opening: real,
      r: Result<ReplayResult, string>)
    requires ValidLog(a) && ValidLog(b) && multiset(a) == multiset(b)
    requires forall i, j :: 0 <= i < j < |a| ==> a[i].date != a[j].date
    ensures ValidLog(Ordered(a)) && ValidLog(Ordered(b))
    ensures IsReplayOf(r, a, opening) <==> IsReplayOf(r, b, opening)
  {
    OrderedFacts(a);
    OrderedFacts(b);
    assert forall i, j :: 0 <= i < j < |a| ==> ByDate()(a[i]) != ByDate()(a[j]);
    NoTiesDetermined(ByDate(), a, b);
  }

  // ---------- the cost basis ----------

  /** At no point of the log is the position short. */
  ghost predicate NeverShort(log: seq<Transaction>, symbol: string) {
    forall k :: 0 <= k <= |log| ==> NetShares(log[..k], symbol) >= 0.0
  }

  lemma {:induction false} NeverShortPrefix(log: seq<Transaction>, symbol: string, n: nat)
    requires NeverShort(log, symbol) && n <= |log|
    ensures NeverShort(log[..n], symbol)
  {
    forall k | 0 <= k <= n ensures NetShares(log[..n][..k], symbol) >= 0.0 {
      assert log[..n][..k] == log[..k];
    }
  }

  /** Every price paid for the symbol lies between `lo` and `hi`. */
  predicate PricesWithin(log: seq<Transaction>, symbol: string, lo: real, hi: real) {
    forall i :: 0 <= i < |log| && Moves(log[i], symbol) && IncreasesShares(log[i].kind) && log[i].price.Some?
      ==> lo <= log[i].price.value <= hi
  }

  lemma {:induction false} WeightedAverageBounds(s: real, a: real, q: real, p: real, lo: real, hi: real)
    requires s >= 0.0 && q > 0.0 && lo <= a <= hi && lo <= p <= hi
    ensures lo <= WeightedAverage(s, a, q, p) <= hi
  {
    MixBounds(s, a, q, p, lo, hi);
    QuotientBounds(s * a + q * p, s + q, lo, hi);
  }

  lemma {:induction false} MixBounds(s: real, a: real, q: real, p: real, lo: real, hi: real)
    requires s >= 0.0 && q >= 0.0 && lo <= a <= hi && lo <= p <= hi
    ensures lo * (s + q) <= s * a + q * p <= hi * (s + q)
  {
    ProductNonNegative(a - lo, s);
    ProductNonNegative(p - lo, q);
    ProductNonNegative(hi - a, s);
    ProductNonNegative(hi - p, q);
    assert (s * a + q * p) - lo * (s + q) == (a - lo) * s + (p - lo) * q;
    assert hi * (s + q) - (s * a + q * p) == (hi - a) * s + (hi - p) * q;
  }

  lemma {:induction false} ProductNonNegative(x: real, y: real)
    requires x >= 0.0 && y >= 0.0
    ensures x * y >= 0.0
  {}

  lemma {:induction false} QuotientBounds(x: real, d: real, lo: real, hi: real)
    requires d > 0.0 && lo * d <= x <= hi * d
    ensures lo <= x / d <= hi
  {
    DivTimes(x, d);
    if x / d < lo { MulStrict(x / d, lo, d); }
    if hi < x / d { MulStrict(hi, x / d, d); }
  }

  lemma {:induction false} MulStrict(x: real, y: real, d: real)
    requires x < y && d > 0.0
    ensures x * d < y * d
  {}

  /** While the position is never short, its average price lies between the lowest and the highest price paid. */
  lemma {:induction false} AverageBetweenPrices(log: seq<Transaction>, symbol: string, lo: real, hi: real)
    requires ValidLog(log) && NeverShort(log, symbol) && PricesWithin(log, symbol, lo, hi)
    ensures SymbolLot(log, symbol).Some? ==>
      && SymbolLot(log, symbol).value.shares >= 0.0
      && lo <= SymbolLot(log, symbol).value.avgPrice <= hi
  {
    if log != [] {
      var rest, t := log[..|log| - 1], log[|log| - 1];
      NeverShortPrefix(log, symbol, |log| - 1);
      AverageBetweenPrices(rest, symbol, lo, hi);
      LotShares(rest, symbol);
      LotShares(log, symbol);
      assert log[..|log|] == log;
      if Moves(t, symbol) && IncreasesShares(t.kind) {
        var before := SymbolLot(rest, symbol);
        if before.Some? {
          WeightedAverageBounds(before.value.shares, before.value.avgPrice, t.shares.value, t.price.value, lo, hi);
        }
      }
    }
  }

  function LotCost(symbol: string): Transaction -> real {
    (t: Transaction) =>
      if Moves(t, symbol) && IncreasesShares(t.kind) && t.shares.Some? && t.price.Some?
      then t.shares.value * t.price.value
      else 0.0
  }

  /** What the position cost: the shares at their average price. */
  function CostOf(lot: Option<Lot>): real { if lot.None? then 0.0 else lot.value.shares * lot.value.avgPrice }

  lemma {:induction false} WeightedCost(s: real, a: real, q: real, p: real)
    requires s + q != 0.0
    ensures (s + q) * WeightedAverage(s, a, q, p) == s * a + q * p
  {
    DivTimes(s * a + q * p, s + q);
  }

  /** A purchase adds what is paid to the cost. */
  lemma {:induction false} PurchaseAddsCost(lot: Option<Lot>, t: Transaction, symbol: string)
    requires ValidTransaction(t) && Moves(t, symbol) && IncreasesShares(t.kind)
    requires lot.Some? ==> lot.value.shares + t.shares.value != 0.0
    ensures CostOf(Some(Step(lot, t))) == CostOf(lot) + LotCost(symbol)(t)
  {
    if lot.Some? {
      WeightedCost(lot.value.shares, lot.value.avgPrice, t.shares.value, t.price.value);
    }
  }

  /** A purchase adds its shares. It leaves the average alone when it brings the position to exactly zero;
      otherwise shares times average is what they were, plus what is paid. */
  lemma {:induction false} PurchaseMeaning(l: Lot, t: Transaction)
    requires ValidTransaction(t) && IncreasesShares(t.kind)
    ensures var after := Increase(Some(l), t);
      && after.shares == l.shares + t.shares.value && after.currency == l.currency
      && (after.shares == 0.0 ==> after.avgPrice == l.avgPrice)
      && (after.shares != 0.0 ==>
        after.shares * after.avgPrice == l.shares * l.avgPrice + t.shares.value * t.price.value)
  {
    if l.shares + t.shares.value != 0.0 {
      WeightedCost(l.shares, l.avgPrice, t.shares.value, t.price.value);
    }
  }

  /** When a symbol is only ever bought, its average price is what was paid for all of it, divided by the shares. */
  lemma {:induction false} AverageIsCostPerShare(log: seq<Transaction>, symbol: string)
    requires ValidLog(log)
    requires forall i :: 0 <= i < |log| && Moves(log[i], symbol) ==> IncreasesShares(log[i].kind)
    ensures SymbolLot(log, symbol).Some? ==> SymbolLot(log, symbol).value.shares > 0.0
    ensures CostOf(SymbolLot(log, symbol)) == SumBy(LotCost(symbol), log)
  {
    if log != [] {
      var rest, t := log[..|log| - 1], log[|log| - 1];
      assert forall i :: 0 <= i < |rest| ==> rest[i] == log[i];
      AverageIsCostPerShare(rest, symbol);
      if Moves(t, symbol) {
        PurchaseAddsCost(SymbolLot(rest, symbol), t, symbol);
      }
    }
  }

  // ---------- when building a holding fails ----------

  lemma {:induction false} LotCurrency(log: seq<Transaction>, symbol: string)
    requires ValidLog(log)
    ensures SymbolLot(log, symbol).Some? ==> SymbolLot(log, symbol).value.currency != ""
  {
    if log != [] {
      LotCurrency(log[..|log| - 1], symbol);
    }
  }

  /** A lot is refused exactly when its average price is below minus half of a millionth, so that it rounds
      to a negative price. */
  lemma {:induction false} BuildableIff(log: seq<Transaction>, symbol: string)
    requires ValidLog(log) && SymbolLot(log, symbol).Some?
    ensures Buildable(symbol, ReplayLots(log)) <==> SymbolLot(log, symbol).value.avgPrice * SCALE_6 >= -0.5
  {
    LotsBySymbol(log, symbol);
    LotCurrency(log, symbol);
    RoundToNegative(SymbolLot(log, symbol).value.avgPrice, SCALE_6);
  }

  /** So a replay fails exactly when some symbol ends with such an average price. */
  lemma {:induction false} ReplayFailsIff(r: Result<ReplayResult, string>, log: seq<Transaction>, opening: real)
    requires ValidLog(log) && ValidLog(Ordered(log)) && IsReplayOf(r, log, opening)
    ensures r.Failure? <==> exists s :: NegativeAverage(Ordered(log), s)
    ensures r.Failure? ==> NegativeAverage(Ordered(log), r.error)
  {
    var o := Ordered(log);
    SeenAreKeys(o);
    forall s
      ensures NegativeAverage(o, s) <==> s in FirstSeen(o) && !Buildable(s, ReplayLots(o))
    {
      LotsBySymbol(o, s);
      if SymbolLot(o, s).Some? {
        BuildableIff(o, s);
      }
    }
  }

  predicate NegativeAverage(o: seq<Transaction>, s: string)
    requires ValidLog(o)
  {
    SymbolLot(o, s).Some? && SymbolLot(o, s).value.avgPrice * SCALE_6 < -0.5
  }

  lemma {:induction false} LowestPriceIsPositive(o: seq<Transaction>, s: string)
    requires ValidLog(o) && NeverShort(o, s) && SymbolLot(o, s).Some?
    ensures SymbolLot(o, s).value.avgPrice >= 0.0
  {
    var top := HighestPrice(o, s);
    AverageBetweenPrices(o, s, 0.0, top);
  }

  lemma {:induction false} HighestPrice(o: seq<Transaction>, s: string) returns (top: real)
    requires ValidLog(o)
    ensures PricesWithin(o, s, 0.0, top)
  {
    if o == [] {
      top := 0.0;
    } else {
      var rest, t := o[..|o| - 1], o[|o| - 1];
      var before := HighestPrice(rest, s);
      assert forall i :: 0 <= i < |rest| ==> rest[i] == o[i];
      top := if t.price.Some? && t.price.value > before then t.price.value else before;
    }
  }

  /** Which single purchase turns a sound average negative: the position was short, and the total cost and the
      resulting position have opposite signs. */
  lemma {:induction false} PurchaseTurnsNegative(l: Lot, t: Transaction)
    requires ValidTransaction(t) && IncreasesShares(t.kind) && l.avgPrice >= 0.0
    ensures var after := Increase(Some(l), t);
      var cost := l.shares * l.avgPrice + t.shares.value * t.price.value;
      && (after.avgPrice < 0.0 <==> (after.shares > 0.0 && cost < 0.0) || (after.shares < 0.0 && cost > 0.0))
      && (after.avgPrice < 0.0 ==> l.shares < 0.0)
  {
    var after := Increase(Some(l), t);
    var cost := l.shares * l.avgPrice + t.shares.value * t.price.value;
    if after.shares != 0.0 {
      assert after.avgPrice == cost / after.shares;
      QuotientSign(cost, after.shares);
    }
    if l.shares >= 0.0 {
      MulMonotone(0.0, l.avgPrice, l.shares);
      MulMonotone(0.0, t.price.value, t.shares.value);
      assert cost >= 0.0;
    }
  }

  lemma {:induction false} QuotientSign(x: real, d: real)
    requires d != 0.0
    ensures x / d < 0.0 <==> (d > 0.0 && x < 0.0) || (d < 0.0 && x > 0.0)
  {
    DivTimes(x, d);
  }

  lemma {:induction false} OversoldThenBoughtBack(sell: Transaction, buy: Transaction)
    requires ValidTransaction(sell) && sell.kind.Sell? && sell.shares == Some(5.0) && sell.price == Some(100.0)
    requires ValidTransaction(buy) && buy.kind.Buy? && buy.shares == Some(6.0) && buy.price == Some(1.0)
    requires sell.symbol == buy.symbol
    ensures SymbolLot([sell, buy], sell.symbol.value) == Some(Lot(1.0, -494.0, sell.currency))
  {
    var log, s := [sell, buy], sell.symbol.value;
    assert log[..1] == [sell] && [sell][..0] == [];
    assert SymbolLot([sell], s) == Some(Lot(-5.0, 100.0, sell.currency));
  }

  /** Overselling can raise after all: 5 sold at 100, then 6 bought at 1, average to -494. */
  lemma {:induction false} OversoldThenBoughtBackFails(r: Result<ReplayResult, string>, sell: Transaction,
      buy: Transaction)
    requires ValidTransaction(sell) && sell.kind.Sell? && sell.shares == Some(5.0) && sell.price == Some(100.0)
    requires ValidTransaction(buy) && buy.kind.Buy? && buy.shares == Some(6.0) && buy.price == Some(1.0)
    requires sell.symbol == buy.symbol && sell.date < buy.date
    requires ValidLog(Ordered([sell, buy])) && IsReplayOf(r, [sell, buy], 0.0)
    ensures r == Failure(sell.symbol.value)
  {
    var log, s := [sell, buy], sell.symbol.value;
    StableSortOfSorted(ByDate(), log);
    OversoldThenBoughtBack(sell, buy);
    assert NegativeAverage(log, s);
    ReplayFailsIff(r, log, 0.0);
    if r.Failure? {
      LotShares(log, r.error);
    }
  }

  // ---------- history before a flat position ----------

  lemma {:induction false} NetConcat(a: seq<Transaction>, b: seq<Transaction>, symbol: string)
    ensures NetShares(a + b, symbol) == NetShares(a, symbol) + NetShares(b, symbol)
  {
    SumByConcat(ShareEffect(symbol), a, b);
  }

  /** The same position and the same cost basis. */
  predicate SameBasis(a: Option<Lot>, b: Option<Lot>) {
    a.Some? && b.Some? && a.value.shares == b.value.shares && a.value.avgPrice == b.value.avgPrice
  }

  lemma {:induction false} StepSameBasis(a: Option<Lot>, b: Option<Lot>, t: Transaction)
    requires ValidTransaction(t) && MovesShares(t.kind) && SameBasis(a, b)
    ensures SameBasis(Some(Step(a, t)), Some(Step(b, t)))
  {}

  lemma {:induction false} FirstPurchase(a: Option<Lot>, t: Transaction)
    requires ValidTransaction(t) && IncreasesShares(t.kind)
    requires a.Some? ==> a.value.shares == 0.0
    ensures SameBasis(Some(Step(a, t)), Some(Step(None, t)))
  {
    if a.Some? {
      var q, p := t.shares.value, t.price.value;
      var zero := a.value.shares * a.value.avgPrice;
      assert zero == 0.0;
      QuotientCancels(q, p, WeightedAverage(a.value.shares, a.value.avgPrice, q, p));
    }
  }

  lemma {:induction false} QuotientCancels(q: real, p: real, avg: real)
    requires q > 0.0 && avg == (q * p) / q
    ensures avg == p
  {
    DivTimes(q * p, q);
    MulCancel(avg, p, q);
  }

  /** After a flat position the first movement has to be a purchase, and it sets the basis afresh. */
  lemma {:induction false} FirstMoveAfterFlat(past: seq<Transaction>, d: seq<Transaction>, t: Transaction,
      symbol: string)
    requires ValidLog(past) && ValidLog(d) && ValidLog(past + d) && ValidTransaction(t) && Moves(t, symbol)
    requires NetShares(past, symbol) == 0.0 && NetShares(past + d + [t], symbol) >= 0.0
    requires SymbolLot(d, symbol).None?
    ensures SameBasis(Some(Step(SymbolLot(past + d, symbol), t)), Some(Step(None, t)))
  {
    LotShares(d, symbol);
    LotShares(past + d, symbol);
    NetConcat(past, d, symbol);
    NetConcat(past + d, [t], symbol);
    assert [t][..0] == [];
    assert NetShares([t], symbol) == ShareEffect(symbol)(t);
    FirstPurchase(SymbolLot(past + d, symbol), t);
  }

  /** When the position is exactly zero after `past`, the past no longer matters, short or not: the rest of the
      log, replayed on its own, ends with the same shares at the same average price. */
  lemma {:induction false} FlatPositionForgets(past: seq<Transaction>, rest: seq<Transaction>, symbol: string)
    requires ValidLog(past) && ValidLog(rest) && ValidLog(past + rest)
    requires NetShares(past, symbol) == 0.0 && NeverShort(rest, symbol)
    requires SymbolLot(rest, symbol).Some?
    ensures SameBasis(SymbolLot(past + rest, symbol), SymbolLot(rest, symbol))
    decreases |rest|
  {
    var d, t := rest[..|rest| - 1], rest[|rest| - 1];
    assert rest == d + [t] && past + rest == past + d + [t];
    assert (past + rest)[..|past + rest| - 1] == past + d;
    LastStep(past + d, t, symbol);
    LastStep(d, t, symbol);
    if SymbolLot(d, symbol).Some? {
      NeverShortPrefix(rest, symbol, |rest| - 1);
      FlatPositionForgets(past, d, symbol);
      if Moves(t, symbol) {
        StepSameBasis(SymbolLot(past + d, symbol), SymbolLot(d, symbol), t);
      }
    } else {
      assert rest[..|rest|] == rest;
      NetConcat(past, rest, symbol);
      FirstMoveAfterFlat(past, d, t, symbol);
    }
  }

  lemma {:induction false} LastStep(d: seq<Transaction>, t: Transaction, symbol: string)
    requires ValidLog(d) && ValidTransaction(t)
    ensures ValidLog(d + [t])
    ensures SymbolLot(d + [t], symbol) ==
      if Moves(t, symbol) then Some(Step(SymbolLot(d, symbol), t)) else SymbolLot(d, symbol)
  {
    assert (d + [t])[..|d + [t]| - 1] == d;
  }

  // ---------- when a replay succeeds ----------

  /** After `k` transactions the position is flat; it is never short from then on, and it moves again. */
  ghost predicate FlatThenSound(o: seq<Transaction>, s: string, k: nat) {
    && k <= |o|
    && NetShares(o[..k], s) == 0.0 && NeverShort(o[k..], s)
    && exists t :: t in o[k..] && Moves(t, s)
  }

  lemma {:induction false} FlatThenSoundBuilds(o: seq<Transaction>, s: string, k: nat)
    requires ValidLog(o) && FlatThenSound(o, s, k)
    ensures SymbolLot(o, s).Some? && SymbolLot(o, s).value.avgPrice >= 0.0
  {
    var past, rest := o[..k], o[k..];
    assert o == past + rest;
    LotShares(rest, s);
    FlatPositionForgets(past, rest, s);
    LowestPriceIsPositive(rest, s);
  }

  /** A replay succeeds when every symbol that moves at all is flat at some moment, moves again after it, and is
      never short after it, whatever was oversold before. */
  lemma {:induction false} SoundSinceFlatSucceeds(r: Result<ReplayResult, string>, log: seq<Transaction>, opening: real)
    requires ValidLog(log) && ValidLog(Ordered(log)) && IsReplayOf(r, log, opening)
    requires forall t, s :: t in log && Moves(t, s) ==> exists k :: FlatThenSound(Ordered(log), s, k)
    ensures r.Success?
  {
    var o := Ordered(log);
    ReplayFailsIff(r, log, opening);
    OrderedFacts(log);
    SameElements(o, log);
    forall s ensures !NegativeAverage(o, s) {
      LotShares(o, s);
      if SymbolLot(o, s).Some? {
        var t :| t in o && Moves(t, s);
        assert t in log;
        var k :| FlatThenSound(o, s, k);
        FlatThenSoundBuilds(o, s, k);
      }
    }
  }

  /** In particular when no position is ever short. */
  lemma {:induction false} NeverShortSucceeds(r: Result<ReplayResult, string>, log: seq<Transaction>, opening: real)
    requires ValidLog(log) && ValidLog(Ordered(log)) && IsReplayOf(r, log, opening)
    requires forall s :: NeverShort(Ordered(log), s)
    ensures r.Success?
  {
    var o := Ordered(log);
    OrderedFacts(log);
    SameElements(o, log);
    forall t, s | t in log && Moves(t, s) ensures FlatThenSound(o, s, 0) {
      assert o[..0] == [] && o[0..] == o;
      assert NeverShort(o, s);
      assert t in o;
    }
    SoundSinceFlatSucceeds(r, log, opening);
  }

  /** It has to move again: sold out after overselling, a symbol keeps its negative average, and the replay fails
      although the position ends flat. */
  lemma {:induction false} FlatEndStillFails(r: Result<ReplayResult, string>, sell: Transaction, buy: Transaction,
      out: Transaction)
    requires ValidTransaction(sell) && sell.kind.Sell? && sell.shares == Some(5.0) && sell.price == Some(100.0)
    requires ValidTransaction(buy) && buy.kind.Buy? && buy.shares == Some(6.0) && buy.price == Some(1.0)
    requires ValidTransaction(out) && out.kind.Sell? && out.shares == Some(1.0)
    requires sell.symbol == buy.symbol == out.symbol && sell.date < buy.date < out.date
    requires ValidLog(Ordered([sell, buy, out])) && IsReplayOf(r, [sell, buy, out], 0.0)
    ensures r.Failure? && NetShares([sell, buy, out], sell.symbol.value) == 0.0
  {
    var log, s := [sell, buy, out], sell.symbol.value;
    StableSortOfSorted(ByDate(), log);
    OversoldThenBoughtBack(sell, buy);
    LastStep([sell, buy], out, s);
    assert [sell, buy] + [out] == log;
    assert SymbolLot(log, s) == Some(Lot(0.0, -494.0, sell.currency));
    assert NegativeAverage(log, s);
    ReplayFailsIff(r, log, 0.0);
    LotShares(log, s);
  }
}
