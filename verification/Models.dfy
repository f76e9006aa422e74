/** The validated records of engine/models.py. A `Transaction` or `Holding` object
    exists in the program only if its constructor accepted it, so every log and
    every holding below is taken to satisfy the corresponding predicate. */
module Models {
  import opened Wrappers

  /** An aware timestamp, as microseconds on the UTC time line. */
  type Instant = int

  const MICROS_PER_DAY: int := 86_400_000_000

  /** The UTC calendar date of a timestamp. */
  function DateOf(t: Instant): int { t / MICROS_PER_DAY }

  predicate WithinDay(day: int, t: Instant) { day * 86_400_000_000 <= t < (day + 1) * 86_400_000_000 }

  /** Two moments have the same date exactly when one day of 24 hours holds both. */
  lemma {:induction false} SameDateIff(s: Instant, t: Instant)
    ensures DateOf(s) == DateOf(t) <==> exists day :: WithinDay(day, s) && WithinDay(day, t)
  {
    assert WithinDay(DateOf(s), s) && WithinDay(DateOf(t), t);
  }

  datatype TransactionType =
    | Buy | Sell | Dividend | Deposit | Withdrawal | Fee | TransferIn | TransferOut

  datatype Transaction = Transaction(
    id: string,
    portfolioId: string,
    kind: TransactionType,
    date: Instant,
    currency: string,
    amount: real,
    symbol: Option<string>,
    shares: Option<real>,
    price: Option<real>,
    notes: Option<string>)

  predicate IncreasesShares(k: TransactionType) { k.Buy? || k.TransferIn? }

  predicate DecreasesShares(k: TransactionType) { k.Sell? || k.TransferOut? }

  predicate MovesShares(k: TransactionType) { IncreasesShares(k) || DecreasesShares(k) }

  predicate IsTransfer(k: TransactionType) { k.TransferIn? || k.TransferOut? }

  /** CASH_EFFECT_SIGN */
  function CashEffectSign(k: TransactionType): real {
    match k
    case Buy | Withdrawal | Fee => -1.0
    case Sell | Deposit | Dividend => 1.0
    case TransferIn | TransferOut => 0.0
  }

  /** What `Transaction.__post_init__` accepts. */
  predicate ValidTransaction(t: Transaction) {
    && t.id != "" && t.portfolioId != "" && t.currency != ""
    && (if IsTransfer(t.kind) then t.amount == 0.0 else t.amount > 0.0)
    && (if MovesShares(t.kind)
        then
          && t.symbol.Some? && t.symbol.value != ""
          && t.shares.Some? && t.shares.value > 0.0
          && t.price.Some? && t.price.value > 0.0
        else
          && (if t.kind.Dividend? then t.symbol.Some? && t.symbol.value != "" else t.symbol.None?)
          && t.shares.None? && t.price.None?)
  }

  /** A named position with a positive number of shares at a positive price. */
  predicate HasLot(t: Transaction) {
    match (t.symbol, t.shares, t.price)
    case (Some(symbol), Some(shares), Some(price)) => symbol != "" && shares > 0.0 && price > 0.0
    case _ => false
  }

  /** What a transaction needs, type by type. */
  predicate MeetsItsType(t: Transaction) {
    match t.kind
    case Buy | Sell => t.amount > 0.0 && HasLot(t)
    case TransferIn | TransferOut => t.amount == 0.0 && HasLot(t)
    case Dividend => t.amount > 0.0 && t.symbol.Some? && t.symbol != Some("") && t.shares.None? && t.price.None?
    case Deposit | Withdrawal | Fee => t.amount > 0.0 && t.symbol.None? && t.shares.None? && t.price.None?
  }

  /** Nothing else is refused than a transaction that lacks its id, its portfolio, its currency, or what its type
      needs. */
  lemma {:induction false} AcceptedIff(t: Transaction)
    ensures ValidTransaction(t) <==> t.id != "" && t.portfolioId != "" && t.currency != "" && MeetsItsType(t)
  {}

  predicate ValidLog(log: seq<Transaction>) {
    forall i :: 0 <= i < |log| ==> ValidTransaction(log[i])
  }

  predicate IdIn(id: string, log: seq<Transaction>) {
    exists i :: 0 <= i < |log| && log[i].id == id
  }

  predicate DistinctIds(log: seq<Transaction>) {
    forall i, j :: 0 <= i < j < |log| ==> log[i].id != log[j].id
  }

  function ByDate(): Transaction -> int { (t: Transaction) => t.date }

  datatype Holding = Holding(
    symbol: string,
    shares: real,
    avgPrice: real,
    currency: string,
    assetType: string,
    account: Option<string>)

  /** What `Holding.__post_init__` accepts. */
  predicate ValidHolding(h: Holding) {
    h.shares >= 0.0 && h.avgPrice >= 0.0 && h.currency != "" && h.assetType != ""
  }

  lemma {:induction false} HoldingRefusedIff(h: Holding)
    ensures !ValidHolding(h) <==> h.shares < 0.0 || h.avgPrice < 0.0 || h.currency == "" || h.assetType == ""
  {}

  /** A holding together with the figures that the calculators read from a position. */
  datatype Position = Position(holding: Holding, marketValueBase: real, gainPct: real)

  function MarketValue(): Position -> real { (p: Position) => p.marketValueBase }

  datatype HoldingSnapshot = HoldingSnapshot(symbol: string, shares: real, marketValueBase: real)

  /** What `HoldingSnapshot.__post_init__` accepts. */
  predicate ValidHoldingSnapshot(h: HoldingSnapshot) {
    h.symbol != "" && h.shares >= 0.0 && h.marketValueBase >= 0.0
  }

  /** The id is a UUID; its fixed-width text sorts like the number it spells. */
  datatype Snapshot = Snapshot(
    id: nat,
    portfolioId: string,
    timestamp: Instant,
    portfolioValue: real,
    cashBalance: real,
    invested: real,
    baseCurrency: string,
    holdings: seq<HoldingSnapshot>)

  /** What `Snapshot.__post_init__` accepts. */
  predicate ValidSnapshot(s: Snapshot) {
    && s.portfolioId != "" && s.baseCurrency != ""
    && s.portfolioValue >= 0.0 && s.cashBalance >= 0.0 && s.invested >= 0.0
  }

  function ByTimestamp(): Snapshot -> int { (s: Snapshot) => s.timestamp }

  datatype Portfolio = Portfolio(
    id: string,
    baseCurrency: string,
    cashBalance: real,
    transactions: seq<Transaction>,
    snapshots: seq<Snapshot>)
}
