/** engine/calculators/reconciliation_calculator.py: the declared holdings and cash
    compared with what the transaction log implies. */
module Reconciliation {
  import opened Models
  import opened Replay
  import opened ReplayLaws
  import opened Rounding
  import opened TextOrder
  import opened Wrappers

  const TOLERANCE: real := 0.01

  datatype Field = SharesField | AvgPriceField | CashField

  /** `ReconciliationDiscrepancy` */
  datatype Discrepancy = Discrepancy(
    symbol: Option<string>, field: Field, declared: real, reconstructed: real, difference: real)

  datatype ReconciliationStatus = NoLog | Agrees | Disagrees

  datatype ReconciliationResult = ReconciliationResult(
    status: ReconciliationStatus, discrepancies: seq<Discrepancy>, considered: nat)

  predicate Close(declared: real, reconstructed: real) {
    -TOLERANCE <= declared - reconstructed <= TOLERANCE
  }

  function Entry(symbol: Option<string>, field: Field, declared: real, reconstructed: real): Discrepancy {
    Discrepancy(symbol, field, RoundTo(declared, SCALE_6), RoundTo(reconstructed, SCALE_6),
                RoundTo(declared - reconstructed, SCALE_6))
  }

  /** What comparing two figures adds to the list. */
  function Found(symbol: Option<string>, field: Field, declared: real, reconstructed: real): seq<Discrepancy> {
    if Close(declared, reconstructed) then [] else [Entry(symbol, field, declared, reconstructed)]
  }

  /** `_compare` */
  method Compare(discrepancies: seq<Discrepancy>, symbol: Option<string>, field: Field, declared: real,
      reconstructed: real)
    returns (r: seq<Discrepancy>)
    ensures r == discrepancies + Found(symbol, field, declared, reconstructed)
  {
    r := discrepancies;
    var difference := declared - reconstructed;
    var magnitude := if difference < 0.0 then -difference else difference;
    if magnitude > TOLERANCE {
      r := r + [Discrepancy(symbol, field, RoundTo(declared, SCALE_6), RoundTo(reconstructed, SCALE_6),
                            RoundTo(difference, SCALE_6))];
    }
  }

  /** A later position of the same symbol replaces an earlier one. */
  function DeclaredBySymbol(positions: seq<Position>): map<string, Holding> {
    if positions == [] then map[] else
    var h := positions[|positions| - 1].holding;
    DeclaredBySymbol(positions[..|positions| - 1])[h.symbol := h]
  }

  function SharesIn(holdings: map<string, Holding>, symbol: string): real {
    if symbol in holdings then holdings[symbol].shares else 0.0
  }

  /** `x` is a discrepancy about one symbol. */
  predicate AboutSymbol(x: Discrepancy, declared: map<string, Holding>, replayed: map<string, Holding>) {
    x.symbol.Some? &&
    var s := x.symbol.value;
    || (!Close(SharesIn(declared, s), SharesIn(replayed, s))
        && x == Entry(Some(s), SharesField, SharesIn(declared, s), SharesIn(replayed, s)))
    || (s in declared && s in replayed && !Close(declared[s].avgPrice, replayed[s].avgPrice)
        && x == Entry(Some(s), AvgPriceField, declared[s].avgPrice, replayed[s].avgPrice))
  }

  predicate AboutCash(x: Discrepancy, declared: real, replayed: real) {
    !Close(declared, replayed) && x == Entry(None, CashField, declared, replayed)
  }

  predicate SymbolAgrees(s: string, declared: map<string, Holding>, replayed: map<string, Holding>) {
    && Close(SharesIn(declared, s), SharesIn(replayed, s))
    && (s in declared && s in replayed ==> Close(declared[s].avgPrice, replayed[s].avgPrice))
  }

  /** Everything that is compared agrees to within the tolerance. */
  predicate Reconciled(declared: map<string, Holding>, cash: real, replay: ReplayResult) {
    && (forall s :: s in declared.Keys + replay.holdings.Keys ==> SymbolAgrees(s, declared, replay.holdings))
    && Close(cash, replay.cashBalance)
  }

  /** What the round of the loop for one symbol adds. */
  function FoundFor(s: string, declared: map<string, Holding>, replayed: map<string, Holding>): seq<Discrepancy> {
    Found(Some(s), SharesField, SharesIn(declared, s), SharesIn(replayed, s))
      + (if s in declared && s in replayed
         then Found(Some(s), AvgPriceField, declared[s].avgPrice, replayed[s].avgPrice)
         else [])
  }

  function FoundForAll(symbols: seq<string>, declared: map<string, Holding>, replayed: map<string, Holding>):
      seq<Discrepancy>
  {
    if symbols == [] then [] else
    var n := |symbols| - 1;
    FoundForAll(symbols[..n], declared, replayed) + FoundFor(symbols[n], declared, replayed)
  }

  lemma {:induction false} FoundForMeaning(s: string, declared: map<string, Holding>, replayed: map<string, Holding>)
    ensures forall x :: x in FoundFor(s, declared, replayed) <==>
      x.symbol == Some(s) && AboutSymbol(x, declared, replayed)
    ensures FoundFor(s, declared, replayed) == [] <==> SymbolAgrees(s, declared, replayed)
  {}

  /** Symbols ascend, and within a symbol the shares come before the average price; so no figure is listed twice. */
  predicate InListOrder(x: Discrepancy, y: Discrepancy) {
    && x.symbol.Some? && y.symbol.Some?
    && (Before(x.symbol.value, y.symbol.value)
        || (x.symbol == y.symbol && x.field.SharesField? && y.field.AvgPriceField?))
  }

  predicate Listed(d: seq<Discrepancy>) {
    forall i, j :: 0 <= i < j < |d| ==> InListOrder(d[i], d[j])
  }

  /** The list for ascending symbols holds exactly the disagreements about them, in order, each once. */
  lemma {:induction false} FoundForAllMeaning(symbols: seq<string>, declared: map<string, Holding>,
      replayed: map<string, Holding>)
    requires Ascending(symbols)
    ensures var d := FoundForAll(symbols, declared, replayed);
      && (forall x :: x in d <==> x.symbol.Some? && x.symbol.value in symbols && AboutSymbol(x, declared, replayed))
      && (d == [] <==> forall s :: s in symbols ==> SymbolAgrees(s, declared, replayed))
      && Listed(d)
  {
    if symbols != [] {
      var rest, s := symbols[..|symbols| - 1], symbols[|symbols| - 1];
      assert symbols == rest + [s];
      FoundForAllMeaning(rest, declared, replayed);
      FoundForMeaning(s, declared, replayed);
      ListedThen(FoundForAll(rest, declared, replayed), s, declared, replayed);
    }
  }

  lemma {:induction false} ListedThen(d: seq<Discrepancy>, s: string, declared: map<string, Holding>,
      replayed: map<string, Holding>)
    requires Listed(d) && forall x :: x in d ==> x.symbol.Some? && Before(x.symbol.value, s)
    ensures Listed(d + FoundFor(s, declared, replayed))
  {
    var more := FoundFor(s, declared, replayed);
    var all := d + more;
    FoundForMeaning(s, declared, replayed);
    forall i, j | 0 <= i < j < |all| ensures InListOrder(all[i], all[j]) {
      if i < |d| <= j {
        assert all[i] in d && all[j] in more;
      }
    }
  }

  /** One round of the loop. */
  method CompareSymbol(discrepancies: seq<Discrepancy>, s: string, declared: map<string, Holding>,
      replayed: map<string, Holding>)
    returns (r: seq<Discrepancy>)
    ensures r == discrepancies + FoundFor(s, declared, replayed)
  {
    r := Compare(discrepancies, Some(s), SharesField, SharesIn(declared, s), SharesIn(replayed, s));
    if s in declared && s in replayed {
      r := Compare(r, Some(s), AvgPriceField, declared[s].avgPrice, replayed[s].avgPrice);
    }
  }

  ghost predicate IsListOf(d: seq<Discrepancy>, declared: map<string, Holding>, replayed: map<string, Holding>) {
    exists symbols :: Arranges(symbols, declared.Keys + replayed.Keys) && d == FoundForAll(symbols, declared, replayed)
  }

  /** The loop over the sorted symbols. */
  method CompareSymbols(declared: map<string, Holding>, replayed: map<string, Holding>)
    returns (r: seq<Discrepancy>)
    ensures IsListOf(r, declared, replayed)
  {
    var symbols := Sorted(declared.Keys + replayed.Keys);
    r := [];
    for i := 0 to |symbols|
      invariant r == FoundForAll(symbols[..i], declared, replayed)
    {
      var s := symbols[i];
      assert symbols[..i + 1][..i] == symbols[..i];
      r := CompareSymbol(r, s, declared, replayed);
    }
    assert symbols[..|symbols|] == symbols;
  }

  /** What the list says: exactly the disagreements, by symbol, each once; and there is only one such list. */
  lemma {:induction false} ListMeaning(d: seq<Discrepancy>, declared: map<string, Holding>,
      replayed: map<string, Holding>)
    requires IsListOf(d, declared, replayed)
    ensures forall x :: x in d <==> AboutSymbol(x, declared, replayed)
    ensures d == [] <==> forall s :: s in declared.Keys + replayed.Keys ==> SymbolAgrees(s, declared, replayed)
    ensures Listed(d)
  {
    var symbols :| Arranges(symbols, declared.Keys + replayed.Keys) && d == FoundForAll(symbols, declared, replayed);
    FoundForAllMeaning(symbols, declared, replayed);
    forall x | AboutSymbol(x, declared, replayed) ensures x.symbol.value in symbols {
      assert x.symbol.value in declared.Keys + replayed.Keys;
    }
  }

  lemma {:induction false} ListUnique(d: seq<Discrepancy>, e: seq<Discrepancy>, declared: map<string, Holding>,
      replayed: map<string, Holding>)
    requires IsListOf(d, declared, replayed) && IsListOf(e, declared, replayed)
    ensures d == e
  {
    var all := declared.Keys + replayed.Keys;
    var a :| Arranges(a, all) && d == FoundForAll(a, declared, replayed);
    var b :| Arranges(b, all) && e == FoundForAll(b, declared, replayed);
    ArrangedOneWay(a, b, all);
  }

  /** The disagreements about symbols in their order, then the one about cash. */
  ghost predicate ReportsExactly(d: seq<Discrepancy>, declared: map<string, Holding>, cash: real,
      replay: ReplayResult) {
    && |Found(None, CashField, cash, replay.cashBalance)| <= |d|
    && var n := |d| - |Found(None, CashField, cash, replay.cashBalance)|;
      && d[n..] == Found(None, CashField, cash, replay.cashBalance)
      && IsListOf(d[..n], declared, replay.holdings)
  }

  /** The whole list holds exactly the disagreements, and it is empty exactly when there is none. */
  lemma {:induction false} ReportMeaning(d: seq<Discrepancy>, declared: map<string, Holding>, cash: real,
      replay: ReplayResult)
    requires ReportsExactly(d, declared, cash, replay)
    ensures forall x :: x in d <==> AboutSymbol(x, declared, replay.holdings) || AboutCash(x, cash, replay.cashBalance)
    ensures d == [] <==> Reconciled(declared, cash, replay)
  {
    var n := |d| - |Found(None, CashField, cash, replay.cashBalance)|;
    assert d == d[..n] + d[n..];
    ListMeaning(d[..n], declared, replay.holdings);
    assert forall x :: x in d <==> x in d[..n] || x in d[n..];
  }

  /** The outcome of comparing a portfolio with the replay of its log, or the replay's own failure. */
  ghost predicate IsReconciliationOf(r: Result<ReconciliationResult, string>, portfolio: Portfolio,
      positions: seq<Position>)
    requires ValidLog(Ordered(portfolio.transactions))
  {
    match r
    case Failure(s) => IsReplayOf(Failure(s), portfolio.transactions, 0.0)
    case Success(v) => exists replay: ReplayResult ::
      && IsReplayOf(Success(replay), portfolio.transactions, 0.0)
      && (v.status.Agrees? <==> Reconciled(DeclaredBySymbol(positions), portfolio.cashBalance, replay))
      && ReportsExactly(v.discrepancies, DeclaredBySymbol(positions), portfolio.cashBalance, replay)
  }

  /** `calculate`; a refused holding is passed on. */
  method Calculate(portfolio: Portfolio, positions: seq<Position>) returns (r: Result<ReconciliationResult, string>)
    requires ValidLog(portfolio.transactions)
    ensures r.Success? ==> r.value.considered == |portfolio.transactions|
    ensures r.Success? ==> (r.value.status.NoLog? <==> portfolio.transactions == [])
    ensures r.Success? ==> (r.value.status.Disagrees? <==> r.value.discrepancies != [])
    ensures portfolio.transactions != [] ==>
      ValidLog(Ordered(portfolio.transactions)) && IsReconciliationOf(r, portfolio, positions)
  {
    if portfolio.transactions == [] {
      return Success(ReconciliationResult(NoLog, [], 0));
    }
    var replayed := ReplayTransactions(portfolio.transactions, 0.0);
    if replayed.Failure? {
      return Failure(replayed.error);
    }
    var replay := replayed.value;
    var declared := DeclaredBySymbol(positions);
    var bySymbol := CompareSymbols(declared, replay.holdings);
    ListMeaning(bySymbol, declared, replay.holdings);
    var discrepancies := Compare(bySymbol, None, CashField, portfolio.cashBalance, replay.cashBalance);
    assert discrepancies[..|bySymbol|] == bySymbol;
    var status := if discrepancies != [] then Disagrees else Agrees;
    r := Success(ReconciliationResult(status, discrepancies, |portfolio.transactions|));
    assert IsReplayOf(Success(replay), portfolio.transactions, 0.0);
    assert ReportsExactly(discrepancies, declared, portfolio.cashBalance, replay);
  }

  // ---------- what agreement means ----------

  predicate UniqueSymbols(positions: seq<Position>) {
    forall i, j :: 0 <= i < j < |positions| ==> positions[i].holding.symbol != positions[j].holding.symbol
  }

  predicate Declares(positions: seq<Position>, s: string) {
    exists i :: 0 <= i < |positions| && positions[i].holding.symbol == s
  }

  lemma {:induction false} DeclaresNext(positions: seq<Position>, s: string)
    requires positions != []
    ensures Declares(positions, s) <==>
      Declares(positions[..|positions| - 1], s) || positions[|positions| - 1].holding.symbol == s
  {
    var rest, n := positions[..|positions| - 1], |positions| - 1;
    if Declares(rest, s) {
      var i :| 0 <= i < n && rest[i].holding.symbol == s;
      assert positions[i].holding.symbol == s;
    }
    if i :| 0 <= i < |positions| && positions[i].holding.symbol == s && i < n {
      assert rest[i].holding.symbol == s;
    }
  }

  /** With unique symbols the dictionary finds each position under its symbol, and nothing else. */
  lemma {:induction false} DeclaredLookup(positions: seq<Position>)
    requires UniqueSymbols(positions)
    ensures forall s :: s in DeclaredBySymbol(positions) <==> Declares(positions, s)
    ensures forall i :: 0 <= i < |positions| ==>
      positions[i].holding.symbol in DeclaredBySymbol(positions)
      && DeclaredBySymbol(positions)[positions[i].holding.symbol] == positions[i].holding
  {
    if positions != [] {
      var rest := positions[..|positions| - 1];
      DeclaredLookup(rest);
      forall s ensures s in DeclaredBySymbol(positions) <==> Declares(positions, s) {
        DeclaresNext(positions, s);
      }
      forall i | 0 <= i < |rest|
        ensures DeclaredBySymbol(positions)[positions[i].holding.symbol] == positions[i].holding
      {
        assert rest[i] == positions[i];
      }
    }
  }

  /** Two figures that differ by at most a hundredth, either way, are not listed; others are listed once, with the
      figures and their difference rounded to six places. */
  lemma {:induction false} FoundMeaning(symbol: Option<string>, field: Field, declared: real, reconstructed: real)
    ensures var d := Found(symbol, field, declared, reconstructed);
      && (d == [] <==> declared <= reconstructed + 0.01 && reconstructed <= declared + 0.01)
      && (d != [] ==>
        && |d| == 1 && d[0].symbol == symbol && d[0].field == field
        && -0.0000005 <= d[0].declared - declared <= 0.0000005
        && -0.0000005 <= d[0].reconstructed - reconstructed <= 0.0000005
        && -0.0000005 <= d[0].difference - (declared - reconstructed) <= 0.0000005)
  {
    RoundedClose(declared);
    RoundedClose(reconstructed);
    RoundedClose(declared - reconstructed);
  }

  /** Both holdings are within a hundredth in shares and in average price. */
  predicate HoldingsAgree(a: Holding, b: Holding) {
    && a.shares <= b.shares + 0.01 && b.shares <= a.shares + 0.01
    && a.avgPrice <= b.avgPrice + 0.01 && b.avgPrice <= a.avgPrice + 0.01
  }

  /** Everything agrees exactly when the cash is within a hundredth, the holdings that both sides have agree, and a
      holding that only one side has is of at most a hundredth of a share. */
  lemma {:induction false} ReconciledIff(declared: map<string, Holding>, cash: real, replay: ReplayResult)
    requires forall s :: s in declared ==> ValidHolding(declared[s])
    requires forall s :: s in replay.holdings ==> ValidHolding(replay.holdings[s])
    ensures Reconciled(declared, cash, replay) <==>
      && cash <= replay.cashBalance + 0.01 && replay.cashBalance <= cash + 0.01
      && (forall s :: s in declared && s in replay.holdings ==> HoldingsAgree(declared[s], replay.holdings[s]))
      && (forall s :: s in declared && s !in replay.holdings ==> declared[s].shares <= 0.01)
      && (forall s :: s in replay.holdings && s !in declared ==> replay.holdings[s].shares <= 0.01)
  {
    forall s | s in declared.Keys + replay.holdings.Keys
      ensures SymbolAgrees(s, declared, replay.holdings) <==>
        if s in declared && s in replay.holdings then HoldingsAgree(declared[s], replay.holdings[s])
        else if s in declared then declared[s].shares <= 0.01
        else replay.holdings[s].shares <= 0.01
    {}
  }

  /** Agreement, put in terms of the log: every declared position is within a hundredth of the net position that the log
      implies (never below zero), symbols that are not declared net to at most a hundredth, and so does the cash. */
  lemma {:induction false} AgreementMeansLog(positions: seq<Position>, cash: real, replay: ReplayResult,
      log: seq<Transaction>, symbol: string)
    requires ValidLog(log) && ValidLog(Ordered(log)) && IsReplayOf(Success(replay), log, 0.0)
    requires UniqueSymbols(positions) && Reconciled(DeclaredBySymbol(positions), cash, replay)
    ensures forall i :: 0 <= i < |positions| && positions[i].holding.symbol == symbol ==>
      Clamped(NetShares(log, symbol)) - 0.01 <= positions[i].holding.shares <= Clamped(NetShares(log, symbol)) + 0.01
    ensures (forall i :: 0 <= i < |positions| ==> positions[i].holding.symbol != symbol) ==>
      NetShares(log, symbol) <= 0.01
    ensures var implied := TotalOf(log, {Deposit, Sell, Dividend}) - TotalOf(log, {Buy, Withdrawal, Fee});
      -0.015 <= cash - implied <= 0.015
  {
    DeclaredLookup(positions);
    HoldingShares(replay, log, 0.0, symbol);
    ReplayCashByKind(replay, log, 0.0);
    NoMovesNoShares(log, symbol);
    var declared := DeclaredBySymbol(positions);
    assert symbol in declared.Keys + replay.holdings.Keys ==> SymbolAgrees(symbol, declared, replay.holdings);
    assert SharesIn(replay.holdings, symbol) == Clamped(NetShares(log, symbol));
  }

  function Clamped(shares: real): real { if shares < 0.0 then 0.0 else shares }

  lemma {:induction false} NoMovesNoShares(log: seq<Transaction>, symbol: string)
    requires ValidLog(log)
    ensures (forall t :: t in log ==> !Moves(t, symbol)) ==> NetShares(log, symbol) == 0.0
  {
    LotShares(log, symbol);
  }

  /** Declaring exactly what the replay reports always agrees. */
  lemma {:induction false} OwnOutputAgrees(positions: seq<Position>, cash: real, replay: ReplayResult)
    requires UniqueSymbols(positions)
    requires forall i :: 0 <= i < |positions| ==>
      positions[i].holding.symbol in replay.holdings
        && replay.holdings[positions[i].holding.symbol] == positions[i].holding
    requires forall s :: s in replay.holdings ==> Declares(positions, s)
    requires cash == replay.cashBalance
    ensures Reconciled(DeclaredBySymbol(positions), cash, replay)
  {
    DeclaredLookup(positions);
    var declared := DeclaredBySymbol(positions);
    forall s | s in declared.Keys + replay.holdings.Keys
      ensures SymbolAgrees(s, declared, replay.holdings)
    {
      var i :| 0 <= i < |positions| && positions[i].holding.symbol == s;
      assert declared[s] == replay.holdings[s];
    }
  }
}
