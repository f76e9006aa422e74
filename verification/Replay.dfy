/** engine/transaction_replay.py: a transaction log replayed, in date order, into
    weighted-average holdings and a cash balance. */
module Replay {
  import opened Models
  import opened Rounding
  import opened Sequences
  import opened Sorting
  import opened Wrappers

  // ---------- one symbol ----------

  /** The running total of one symbol; unlike a holding it may be short. */
  datatype Lot = Lot(shares: real, avgPrice: real, currency: string)

  /** The average price of two lots, weighted by their sizes. */
  function WeightedAverage(shares: real, avgPrice: real, qty: real, price: real): real
    requires shares + qty != 0.0
  {
    (shares * avgPrice + qty * price) / (shares + qty)
  }

  /** BUY or TRANSFER_IN: a new lot, with the cost basis averaged by weight. */
  function Increase(lot: Option<Lot>, t: Transaction): Lot
    requires ValidTransaction(t) && IncreasesShares(t.kind)
  {
    match lot
    case None => Lot(t.shares.value, t.price.value, t.currency)
    case Some(l) =>
      var newShares := l.shares + t.shares.value;
      var avg := if newShares != 0.0
                 then WeightedAverage(l.shares, l.avgPrice, t.shares.value, t.price.value)
                 else l.avgPrice;
      Lot(newShares, avg, l.currency)
  }

  /** SELL or TRANSFER_OUT: fewer shares, the cost basis stays. */
  function Decrease(lot: Option<Lot>, t: Transaction): Lot
    requires ValidTransaction(t) && DecreasesShares(t.kind)
  {
    match lot
    case None => Lot(-t.shares.value, t.price.value, t.currency)
    case Some(l) => l.(shares := l.shares - t.shares.value)
  }

  predicate Moves(t: Transaction, symbol: string) {
    MovesShares(t.kind) && t.symbol == Some(symbol)
  }

  function Moving(symbol: string): Transaction -> bool { (t: Transaction) => Moves(t, symbol) }

  function Step(lot: Option<Lot>, t: Transaction): Lot
    requires ValidTransaction(t) && MovesShares(t.kind)
  {
    if IncreasesShares(t.kind) then Increase(lot, t) else Decrease(lot, t)
  }

  /** What a log, read in the order given, makes of one symbol. */
  function SymbolLot(log: seq<Transaction>, symbol: string): Option<Lot>
    requires ValidLog(log)
  {
    if log == [] then None else
    var before := SymbolLot(log[..|log| - 1], symbol);
    var t := log[|log| - 1];
    if Moves(t, symbol) then Some(Step(before, t)) else before
  }

  // ---------- the table of accumulators ----------

  /** `_Accumulator` */
  class Accumulator {
    var shares: real
    var avgPrice: real
    var currency: string

    constructor (shares: real, avgPrice: real, currency: string)
      ensures View() == Lot(shares, avgPrice, currency)
    {
      this.shares, this.avgPrice, this.currency := shares, avgPrice, currency;
    }

    function View(): Lot
      reads this
    {
      Lot(shares, avgPrice, currency)
    }
  }

  function Lookup(lots: map<string, Lot>, symbol: string): Option<Lot> {
    if symbol in lots then Some(lots[symbol]) else None
  }

  /** A dictionary keeps the position of a key that is already there. */
  function Touch(keys: seq<string>, symbol: string): seq<string> {
    if symbol in keys then keys else keys + [symbol]
  }

  predicate Distinct<T(==)>(s: seq<T>) {
    forall i, j :: 0 <= i < j < |s| ==> s[i] != s[j]
  }

  /** The dictionary of accumulators, with its insertion order. */
  class AccumulatorTable {
    var keys: seq<string>
    var table: map<string, Accumulator>

    ghost predicate Valid()
      reads this
    {
      && Distinct(keys)
      && (forall s :: s in keys <==> s in table)
      && (forall s, t :: s in table && t in table && s != t ==> table[s] != table[t])
    }

    function Lots(): map<string, Lot>
      reads this, table.Values
    {
      map s | s in table :: table[s].View()
    }

    constructor ()
      ensures Valid() && keys == [] && table == map[] && Lots() == map[]
    {
      keys, table := [], map[];
    }

    method Add(symbol: string, shares: real, avgPrice: real, currency: string)
      requires Valid() && symbol !in table
      modifies this
      ensures Valid() && keys == old(keys) + [symbol]
      ensures Lots() == old(Lots())[symbol := Lot(shares, avgPrice, currency)]
      ensures forall a :: a in table.Values ==> a in old(table.Values) || fresh(a)
    {
      var accumulator := new Accumulator(shares, avgPrice, currency);
      ghost var lots := Lots();
      keys := keys + [symbol];
      table := table[symbol := accumulator];
      assert Lots() == lots[symbol := Lot(shares, avgPrice, currency)];
    }

    /** `_apply_increase` */
    method ApplyIncrease(t: Transaction)
      requires Valid() && ValidTransaction(t) && IncreasesShares(t.kind)
      modifies this, table.Values
      ensures Valid() && keys == Touch(old(keys), t.symbol.value)
      ensures Lots() == old(Lots())[t.symbol.value := Increase(Lookup(old(Lots()), t.symbol.value), t)]
      ensures forall a :: a in table.Values ==> a in old(table.Values) || fresh(a)
    {
      var symbol := t.symbol.value;
      if symbol !in table {
        Add(symbol, t.shares.value, t.price.value, t.currency);
        return;
      }
      var existing := table[symbol];
      var newShares := existing.shares + t.shares.value;
      if newShares != 0.0 {
        existing.avgPrice :=
          WeightedAverage(existing.shares, existing.avgPrice, t.shares.value, t.price.value);
      }
      existing.shares := newShares;
    }

    /** `_apply_decrease` */
    method ApplyDecrease(t: Transaction)
      requires Valid() && ValidTransaction(t) && DecreasesShares(t.kind)
      modifies this, table.Values
      ensures Valid() && keys == Touch(old(keys), t.symbol.value)
      ensures Lots() == old(Lots())[t.symbol.value := Decrease(Lookup(old(Lots()), t.symbol.value), t)]
      ensures forall a :: a in table.Values ==> a in old(table.Values) || fresh(a)
    {
      var symbol := t.symbol.value;
      if symbol !in table {
        Add(symbol, -t.shares.value, t.price.value, t.currency);
        return;
      }
      var existing := table[symbol];
      existing.shares := existing.shares - t.shares.value;
    }

    /** What the loop does with one transaction; the types that move no shares have no effect here. */
    method Apply(t: Transaction)
      requires Valid() && ValidTransaction(t)
      modifies this, table.Values
      ensures Valid() && keys == KeysAfter(old(keys), t) && Lots() == LotsAfter(old(Lots()), t)
      ensures forall a :: a in table.Values ==> a in old(table.Values) || fresh(a)
    {
      if IncreasesShares(t.kind) {
        ApplyIncrease(t);
      } else if DecreasesShares(t.kind) {
        ApplyDecrease(t);
      }
    }
  }

  // ---------- the whole replay ----------

  function LotsAfter(lots: map<string, Lot>, t: Transaction): map<string, Lot>
    requires ValidTransaction(t)
  {
    if MovesShares(t.kind) then lots[t.symbol.value := Step(Lookup(lots, t.symbol.value), t)] else lots
  }

  function KeysAfter(keys: seq<string>, t: Transaction): seq<string>
    requires ValidTransaction(t)
  {
    if MovesShares(t.kind) then Touch(keys, t.symbol.value) else keys
  }

  function ReplayLots(log: seq<Transaction>): map<string, Lot>
    requires ValidLog(log)
  {
    if log == [] then map[] else LotsAfter(ReplayLots(log[..|log| - 1]), log[|log| - 1])
  }

  /** The symbols in the order in which their first share movement comes up. */
  function FirstSeen(log: seq<Transaction>): seq<string>
    requires ValidLog(log)
  {
    if log == [] then [] else KeysAfter(FirstSeen(log[..|log| - 1]), log[|log| - 1])
  }

  function CashEffect(): Transaction -> real { (t: Transaction) => CashEffectSign(t.kind) * t.amount }

  datatype Warning = WentNegative(symbol: string, shares: real)

  /** `TransactionReplayResult`; `order` is the insertion order of the dictionary `holdings`. */
  datatype ReplayResult = ReplayResult(
    order: seq<string>,
    holdings: map<string, Holding>,
    cashBalance: real,
    warnings: seq<Warning>)

  /** The `Holding` that is built, or refused, for a lot: the shares clamped at zero, the average rounded. */
  function HoldingOf(symbol: string, lot: Lot): Holding {
    Holding(symbol, if lot.shares < 0.0 then 0.0 else lot.shares,
            RoundTo(lot.avgPrice, SCALE_6), lot.currency, "stock", None)
  }

  predicate Buildable(symbol: string, lots: map<string, Lot>) {
    symbol in lots && ValidHolding(HoldingOf(symbol, lots[symbol]))
  }

  function WarningOf(symbol: string, lots: map<string, Lot>): seq<Warning> {
    if symbol in lots && lots[symbol].shares < 0.0 then [WentNegative(symbol, lots[symbol].shares)] else []
  }

  function WarningsFor(keys: seq<string>, lots: map<string, Lot>): seq<Warning> {
    if keys == [] then []
    else WarningsFor(keys[..|keys| - 1], lots) + WarningOf(keys[|keys| - 1], lots)
  }

  function HoldingsFor(keys: seq<string>, lots: map<string, Lot>): map<string, Holding> {
    map s | s in keys && s in lots :: HoldingOf(s, lots[s])
  }

  lemma {:induction false} OneMoreKey(keys: seq<string>, i: nat, lots: map<string, Lot>)
    requires i < |keys| && keys[i] in lots
    ensures WarningsFor(keys[..i + 1], lots) == WarningsFor(keys[..i], lots) + WarningOf(keys[i], lots)
    ensures AllBuildable(keys[..i + 1], lots) <==> AllBuildable(keys[..i], lots) && Buildable(keys[i], lots)
    ensures HoldingsFor(keys[..i + 1], lots)
      == HoldingsFor(keys[..i], lots)[keys[i] := HoldingOf(keys[i], lots[keys[i]])]
  {
    assert keys[..i + 1][..i] == keys[..i];
    assert keys[..i + 1] == keys[..i] + [keys[i]];
  }

  /** The first of `keys` whose `Holding` is refused. */
  predicate FirstRefused(symbol: string, keys: seq<string>, lots: map<string, Lot>) {
    exists i :: 0 <= i < |keys| && keys[i] == symbol && RefusedAt(i, keys, lots)
  }

  predicate RefusedAt(i: int, keys: seq<string>, lots: map<string, Lot>) {
    0 <= i < |keys| && !Buildable(keys[i], lots) && AllBuildable(keys[..i], lots)
  }

  predicate AllBuildable(keys: seq<string>, lots: map<string, Lot>) {
    forall s :: s in keys ==> Buildable(s, lots)
  }

  /** Turns the accumulators into holdings; stops at the first one that `Holding` refuses. */
  method BuildHoldings(keys: seq<string>, lots: map<string, Lot>)
    returns (holdings: map<string, Holding>, warnings: seq<Warning>, refused: Option<string>)
    requires forall s :: s in keys ==> s in lots
    ensures refused.None? <==> AllBuildable(keys, lots)
    ensures refused.Some? ==> FirstRefused(refused.value, keys, lots)
    ensures refused.None? ==> holdings == HoldingsFor(keys, lots) && warnings == WarningsFor(keys, lots)
  {
    holdings, warnings, refused := map[], [], None;
    var i := 0;
    while i < |keys|
      invariant 0 <= i <= |keys|
      invariant AllBuildable(keys[..i], lots)
      invariant holdings == HoldingsFor(keys[..i], lots)
      invariant warnings == WarningsFor(keys[..i], lots)
    {
      var symbol := keys[i];
      var lot := lots[symbol];
      OneMoreKey(keys, i, lots);
      if lot.shares < 0.0 {
        warnings := warnings + [WentNegative(symbol, lot.shares)];
      }
      if !ValidHolding(HoldingOf(symbol, lot)) {
        assert RefusedAt(i, keys, lots);
        refused := Some(symbol);
        return;
      }
      holdings := holdings[symbol := HoldingOf(symbol, lot)];
      i := i + 1;
    }
    assert keys[..i] == keys;
  }

  function Ordered(log: seq<Transaction>): seq<Transaction> { StableSort(ByDate(), log) }

  lemma {:induction false} OrderedFacts(log: seq<Transaction>)
    requires ValidLog(log)
    ensures ValidLog(Ordered(log)) && multiset(Ordered(log)) == multiset(log)
    ensures SortedBy(ByDate(), Ordered(log))
  {
    StableSortPermutes(ByDate(), log);
    StableSortSpec(ByDate(), log);
    forall i | 0 <= i < |Ordered(log)| ensures ValidTransaction(Ordered(log)[i]) {
      assert Ordered(log)[i] in log;
    }
  }

  lemma {:induction false} SeenAreKeys(log: seq<Transaction>)
    requires ValidLog(log)
    ensures forall s :: s in FirstSeen(log) <==> s in ReplayLots(log)
    ensures Distinct(FirstSeen(log))
  {
    if log != [] {
      SeenAreKeys(log[..|log| - 1]);
    }
  }

  /** The result of replaying an ordered log, or `Failure` with the first symbol whose `Holding` is refused. */
  predicate IsReplayInOrder(r: Result<ReplayResult, string>, o: seq<Transaction>, opening: real)
    requires ValidLog(o)
  {
    match r
    case Success(v) =>
      && AllBuildable(FirstSeen(o), ReplayLots(o))
      && v == ReplayResult(FirstSeen(o), HoldingsFor(FirstSeen(o), ReplayLots(o)),
                           RoundTo(opening + SumBy(CashEffect(), o), SCALE_2),
                           WarningsFor(FirstSeen(o), ReplayLots(o)))
    case Failure(s) =>
      FirstRefused(s, FirstSeen(o), ReplayLots(o))
  }

  /** The same for a log in any order. */
  predicate IsReplayOf(r: Result<ReplayResult, string>, log: seq<Transaction>, opening: real)
    requires ValidLog(Ordered(log))
  {
    IsReplayInOrder(r, Ordered(log), opening)
  }

  lemma {:induction false} OneMoreTransaction(log: seq<Transaction>, i: nat)
    requires ValidLog(log) && i < |log|
    ensures ReplayLots(log[..i + 1]) == LotsAfter(ReplayLots(log[..i]), log[i])
    ensures FirstSeen(log[..i + 1]) == KeysAfter(FirstSeen(log[..i]), log[i])
    ensures SumBy(CashEffect(), log[..i + 1]) == SumBy(CashEffect(), log[..i]) + CashEffect()(log[i])
  {
    assert log[..i + 1][..i] == log[..i];
  }

  /** One pass over the ordered log. */
  method ApplyAll(log: seq<Transaction>, opening: real)
    returns (accumulators: AccumulatorTable, cashBalance: real)
    requires ValidLog(log)
    ensures fresh(accumulators) && accumulators.Valid()
    ensures accumulators.keys == FirstSeen(log) && accumulators.Lots() == ReplayLots(log)
    ensures cashBalance == opening + SumBy(CashEffect(), log)
  {
    accumulators := new AccumulatorTable();
    cashBalance := opening;
    var i := 0;
    while i < |log|
      invariant 0 <= i <= |log|
      invariant fresh(accumulators) && accumulators.Valid()
      invariant forall a :: a in accumulators.table.Values ==> fresh(a)
      invariant accumulators.keys == FirstSeen(log[..i]) && accumulators.Lots() == ReplayLots(log[..i])
      invariant cashBalance == opening + SumBy(CashEffect(), log[..i])
    {
      var t := log[i];
      OneMoreTransaction(log, i);
      cashBalance := cashBalance + CashEffect()(t);
      accumulators.Apply(t);
      i := i + 1;
    }
    assert log[..i] == log;
  }

  method ReplayInOrder(ordered: seq<Transaction>, opening: real) returns (r: Result<ReplayResult, string>)
    requires ValidLog(ordered)
    ensures IsReplayInOrder(r, ordered, opening)
  {
    var accumulators, cashBalance := ApplyAll(ordered, opening);
    SeenAreKeys(ordered);
    var holdings, warnings, refused := BuildHoldings(accumulators.keys, accumulators.Lots());
    if refused.Some? {
      return Failure(refused.value);
    }
    r := Success(ReplayResult(accumulators.keys, holdings, RoundTo(cashBalance, SCALE_2), warnings));
  }

  /** `replay_transactions` */
  method ReplayTransactions(log: seq<Transaction>, opening: real) returns (r: Result<ReplayResult, string>)
    requires ValidLog(log)
    ensures ValidLog(Ordered(log)) && IsReplayOf(r, log, opening)
  {
    OrderedFacts(log);
    r := ReplayInOrder(Ordered(log), opening);
  }
}
