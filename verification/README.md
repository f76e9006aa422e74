# Verification model of the portfolio engine

A Dafny 4.11 model of the parts of the portfolio engine that decide what an investor is told: period
returns and the time-weighted return, the XIRR solver behind the money-weighted return, the replay of the
transaction log and its reconciliation with declared holdings, the two-step broker import with its files,
the daily snapshot collection, the drawdown pass and the concentration figures.

Check it with `dafny verify dfyconfig.toml`.

## How the model reads the program

* Amounts, prices and rates are exact reals; `round(x, n)` is modelled exactly, to the nearest multiple of
  10^-n with ties to even (`Rounding.RoundTo`), so statements about reported figures include the rounding.
* A timestamp is a whole number of microseconds on the UTC line, a calendar date is its day number.
* `Transaction`, `Holding` and `Snapshot` objects exist in the program only if their constructor accepted
  them; the corresponding predicates in `Models` spell out what the constructors accept.
* `sorted` and `list.sort` are `Sorting.StableSort`: ordered, a permutation, and stable.
* `(1 + r) ** (days / 365)` is `Pow(g(r), days)`, where `g(r)` is any function with `g(r) > 0` and
  `Pow(g(r), 365) == 1 + r` for all r > -1. Its monotonicity is proved from that. In the same way
  `cumulative ** (365 / days)` is `h(cumulative, days)` with `Pow(h(x, d), d) == Pow(x, 365)` for x >= 0.
* Loops and objects that the program updates are methods and classes (`AccumulatorTable`,
  `PortfolioFile`, `ImportReportStore`, `ImportService`, `InMemorySnapshotRepository`), each proved
  against a specification function; the laws are lemmas about those functions.
* Storage failures, crash points, generated UUIDs, the clock and the YAML text codec are parameters.

| module | file of the program |
|---|---|
| CashFlows | engine/external_cash_flows.py |
| PeriodReturns, TimeWeighted, AnnualReturn | engine/period_returns.py, engine/calculators/twr_calculator.py |
| Npv, Xirr, NewtonSteps, Accuracy, MoneyWeighted | engine/xirr.py, engine/calculators/mwr_calculator.py |
| Replay, ReplayLaws, Reconciliation, TextOrder | engine/transaction_replay.py, engine/calculators/reconciliation_calculator.py |
| ImportReports | importers/duplicate_detection.py, importers/report.py |
| YamlLog, AtomicFiles | repositories/yaml_portfolio_writer.py, repositories/yaml_repository.py |
| ImportProtocol, ImportLaws | custom_components/portfolio_engine/services.py, custom_components/portfolio_engine/import_report_store.py |
| Snapshots | engine/snapshot_policy.py, repositories/in_memory_snapshot_repository.py, custom_components/portfolio_engine/update_logic.py |
| Drawdown, Concentration | engine/calculators/drawdown_calculator.py, engine/calculators/position_analytics_calculator.py |

## Where the code and its documentation differ

The model follows the code. Each difference is a lemma with a concrete input, next to a lemma that says exactly
when the documented behaviour holds.

* Overselling is documented never to raise (`engine/transaction_replay.py:101`). Selling 5 at 100 and buying
  6 back at 1 gives an average price of -494, which `Holding` refuses (`ReplayLaws.OversoldThenBoughtBackFails`).
  A replay fails exactly when some final average price rounds to a negative one (`ReplayLaws.ReplayFailsIff`), never
  when every symbol is flat at some moment, moves again and is not short after it (`ReplayLaws.SoundSinceFlatSucceeds`);
  ending flat is not enough (`ReplayLaws.FlatEndStillFails`). `ReplayLaws.PurchaseTurnsNegative` names the purchases that
  turn an average negative.
* The time-weighted return has no documented failure. When a portfolio loses more than it held before a deposit, the
  compounded factor is negative, and its fractional power is a complex number that `round` refuses
  (`TimeWeighted.LossBelowDepositRaises`). It raises exactly when the factor is negative over at least a day and the days do
  not divide 365 (`TimeWeighted.TwrRaisesIff`).
* `imported + duplicates + rejected == transactions_read` is documented to hold always (`importers/report.py:128`). It fails
  for two rows that share an id of which one matches (`ImportReports.SharedIdLosesARow`); `ImportReports.CountsAddUpIff` is
  the exact condition.
* Applying a report twice after a crash, or importing the same file again before the view is refreshed, makes the log unreadable
  exactly when the report had new rows (`ImportLaws.RetryAfterCrash`, `ImportLaws.StaleViewBreaks`). So does applying a report
  from a fresh view exactly when two of its new rows share an id (`ImportLaws.RepeatedIdsBreak`), as equal rows without an id
  do (`ImportLaws.RowTwiceBreaks`).
* The rate that is returned is meant to solve the flows. Its tolerance is on the value, so how close it is depends on how steeply
  the value falls (`Accuracy.ValueExit`, `Accuracy.AnswerIsClose`); whether it is within any given distance is decided exactly by
  the signs of two more values (`Accuracy.CloseIff`), and flows that are steep enough are always answered to within the tolerance
  (`Accuracy.SteepFlowsAreAccurate`). The guess itself is the answer exactly when its value is within the
  tolerance (`Xirr.GuessAcceptedIff`), as it is for all small flows (`Accuracy.SmallFlowsAcceptTheGuess`): 5% of
  growth is answered with the guess of 10% (`Accuracy.SmallGrowthMissed`). `Accuracy.GuessMissesIff` says exactly when the guess
  is answered although it is off.
* Flows at different moments of one day pass the guard for "no time spread" although the solver counts whole days; what is
  returned then is the guess exactly when they balance, and no rate otherwise (`MoneyWeighted.WithinADayIsNotARate`).
* The recovery status compares a rounded figure with an unrounded one. It errs in two ways: after a fall from 3 to 2 the deepest
  point is reported as recovering (`Drawdown.TroughReportedAsRecovering`), and a portfolio risen above its deepest point can be
  reported as still there (`Drawdown.RecoveryReportedAsTrough`). `Drawdown.StatusExactIff` is the exact condition, and
  `Drawdown.AtPeakIff` says how far the "at peak" band really reaches.
* The one-pass drawdown is meant to be the deepest fall. Stored values are never negative, but the current value can be, when a
  position is quoted below zero (`Drawdown.NegativeValueMissesAPair`). The figure is the deepest fall exactly when the last value
  is not negative or every positive value before it equals the peak (`Drawdown.OnePassExactIff`).
* The five largest shares are summed after rounding and can be reported as 100.0002% (`Concentration.Top5AboveHundred`), which
  is the most they can reach (`Concentration.Top5AtMost`). They exceed 100% exactly when rounding adds more to them than the
  other positions are worth, and not when the others are worth 0.00025% or more (`Concentration.Top5AboveHundredIff`).

## Model

| member | source | states |
|---|---|---|
| Sorting.StableSortSpec | repositories/yaml_repository.py:100-104 | the sort is ordered and keeps, within every group of equal keys, the elements and their order |
| Sorting.StableSortDetermined | repositories/yaml_repository.py:100-104 | two lists with the same order inside every group of equal keys sort to the same list |
| Sorting.NoTiesDetermined | repositories/yaml_repository.py:100-104 | with distinct keys every permutation sorts to the same list |
| Rounding.RoundHalfEvenIff | engine/calculators/drawdown_calculator.py:64 | rounding gives the nearest number, and of two equally near ones the even one |
| Models.SameDateIff | engine/snapshot_policy.py:24-25 | two moments share a date iff one day of 24 hours holds both |
| Models.AcceptedIff | engine/models.py:176-220 | what each of the eight types of transaction needs, and that nothing else is refused |
| Models.HoldingRefusedIff | engine/models.py:46-54 | what a holding is refused for, and nothing else |
| CashFlows.FlowSign | engine/external_cash_flows.py:16-50 | exactly deposits, withdrawals and transfers give a flow; it is negative exactly for capital in, positive exactly for capital out |
| CashFlows.TransferCountsAsCash | engine/external_cash_flows.py:28-37 | a transfer gives the very flow of a deposit or withdrawal of shares times price |
| CashFlows.TransferFlow | engine/external_cash_flows.py:28-37 | the flow of a transfer is shares times price, negative in and positive out |
| CashFlows.InternalIgnored | engine/external_cash_flows.py:16-25 | a buy, sell, dividend or fee anywhere in the log leaves the list of flows as it was |
| CashFlows.NoExternalFlows | engine/external_cash_flows.py:40-50 | there are no flows exactly when the log holds only internal transactions |
| CashFlows.FlowsOfLog | engine/external_cash_flows.py:40-50 | the flows are exactly those of the transactions in the log |
| CashFlows.ExtractPermutes | engine/external_cash_flows.py:41-45 | reordering the log reorders the flows and nothing else |
| PeriodReturns.BoundariesChronological | engine/period_returns.py:55-66 | the boundaries, including the synthetic last one, are in time order |
| PeriodReturns.BoundariesEnd | engine/period_returns.py:55-66 | the series is empty iff no snapshot is dated by then; otherwise it ends at `as_of`, with the current value unless a snapshot has that very moment |
| PeriodReturns.TakeFlows | engine/period_returns.py:86-89 | the inner loop consumes exactly the flows up to t1 and its sum is the sum over all flows with t0 < date <= t1 |
| PeriodReturns.InjectionOfOne | engine/period_returns.py:86-89 | a flow belongs to the period it is dated in, the end included and the start not, with the opposite sign |
| PeriodReturns.MergePeriods | engine/period_returns.py:76-95 | the single merge pass over sorted flows returns what bucketing every flow into its period returns |
| PeriodReturns.ComputePeriodReturns | engine/period_returns.py:41-95 | the whole function equals the bucketed definition on the flows in log order, with all four statuses |
| PeriodReturns.PeriodsMeaning | engine/period_returns.py:82-95 | not computable iff some non-final boundary is <= 0, with exactly the periods before the first such one; each return explains the change left after the flows of exactly its period |
| PeriodReturns.FlowsConserved | engine/period_returns.py:71-93 | the capital that the reported periods attribute to flows is all capital in (first boundary, last reported boundary], nothing lost or counted twice |
| PeriodReturns.BucketedReturnsOrderFree | engine/period_returns.py:71 | the order of the flows plays no part in the result |
| TimeWeighted.CompoundPeriods | engine/calculators/twr_calculator.py:44-46 | the loop computes the compounded growth of all periods |
| TimeWeighted.Calculate | engine/calculators/twr_calculator.py:37-60 | the whole result, annualised figure and failure included, is that of the bucketed periods |
| TimeWeighted.TwrMeaning | engine/calculators/twr_calculator.py:40-47 | a figure exists iff there are two boundaries and every non-final one is positive; it is then the product of (end - flows) / begin |
| TimeWeighted.ReportMeaning | engine/calculators/twr_calculator.py:40-60 | figures exist iff there are two boundaries and every one divided by is positive; they are the growth over all of it and that growth taken to a year |
| TimeWeighted.ReportedFigures | engine/calculators/twr_calculator.py:47-52 | the figures are 100 times the growth less one, and 100 times the yearly factor less one, to within 0.00005; the second exists iff the first does and a day has passed |
| TimeWeighted.UnchangedIsZero | engine/calculators/twr_calculator.py:44-52 | without flows an unchanged value is reported as 0% and as 0% a year |
| TimeWeighted.TenPercent | engine/calculators/twr_calculator.py:44-52 | 100, worth 110 after 365 days, is reported as 10% and as 10% a year |
| TimeWeighted.TwrRaisesIff | engine/calculators/twr_calculator.py:49-52 | the calculation raises iff the growth is negative over at least a day and the days do not divide 365 |
| TimeWeighted.CoveredFlowsNeverRaise | engine/calculators/twr_calculator.py:49-52 | it does not raise while no period ends below what was paid in during it |
| TimeWeighted.LossBelowDepositRaises | engine/calculators/twr_calculator.py:49-52 | 100 paid into 100, worth 50 after ten days: it raises |
| TimeWeighted.NeutralBoundary | engine/calculators/twr_calculator.py:44-47 | a positive value inserted into a period before any of its flows changes neither status nor cumulative return |
| TimeWeighted.NeutralReport | engine/calculators/twr_calculator.py:40-60 | nor does it change the annualised figure or a failure |
| TimeWeighted.NeutralSnapshot | engine/period_returns.py:82-93 | the same for one more snapshot anywhere in the list, if every flow up to it is already covered by a strictly earlier snapshot |
| TimeWeighted.NeutralSnapshotReport | engine/calculators/twr_calculator.py:40-60 | the whole report is the same, failure included, but for the number of periods |
| TimeWeighted.NewSnapshotRedundant | custom_components/portfolio_engine/update_logic.py:62-67 | a snapshot of the current value taken now is redundant with the synthetic closing boundary |
| TimeWeighted.InternalTransactionNeutral | engine/external_cash_flows.py:16-25 | recording a buy, sell, dividend or fee never changes the period returns, nor what is reported from them |
| TimeWeighted.LogOrderNeutral | engine/period_returns.py:71-93 | neither does reordering the log |
| TimeWeighted.NoFlowsTelescope | engine/calculators/twr_calculator.py:44-47 | without external flows the cumulative growth is the last value over the first |
| AnnualReturn.YearlyFactorMeaning | engine/calculators/twr_calculator.py:49-52 | the yearly factor compounded over the elapsed days is the growth compounded over a year, and exists unless the growth is negative and the days do not divide 365 |
| AnnualReturn.OneYearIsItself | engine/calculators/twr_calculator.py:49-52 | over exactly 365 days the annualised factor is the cumulative one |
| AnnualReturn.YearlyFactorOrder | engine/calculators/twr_calculator.py:49-52 | over the same days more growth is a higher yearly factor, and it exceeds 1 iff the growth does |
| Npv.GrowthIncreases | engine/xirr.py:101-104 | the discount base increases strictly with the rate |
| Npv.SignChangesOnce | engine/xirr.py:101-104 | for conventional flows on several days, once the net present value is not positive it is negative at every higher rate |
| Npv.RootUnique | engine/xirr.py:47-57 | such flows have at most one solution over all rates above -100% |
| Npv.UnconventionalTwoRoots | engine/xirr.py:47-57 | without the hypothesis there can be two: 0% and 100% both solve -1, +3, -2 |
| Xirr.Newton | engine/xirr.py:116-134 | a returned rate ends the path of Newton steps from the guess, within 100 steps and within tolerance, above the floor or equal to the guess; no result means the path gives up |
| Xirr.NewtonDecides | engine/xirr.py:116-134 | Newton cannot both find a rate and give up |
| Xirr.GivesUpIff | engine/xirr.py:120-131 | a step gives up iff the value is not within the tolerance and the line is flat or meets zero at or below -0.9999 |
| Xirr.GuessAcceptedIff | engine/xirr.py:118-121 | for any flows the guess is the answer, after one iteration, iff its value is within the tolerance |
| Xirr.ThirtyHalvings | engine/xirr.py:24-30 | thirty halvings bring the search bracket below the tolerance, twenty-nine do not |
| Xirr.Bisection | engine/xirr.py:137-163 | for any flows it returns within 30 iterations or finds nothing, the latter iff both bracket ends have the same strict sign; a returned rate is an exact end, within tolerance, or the middle of a bracketing interval narrower than twice the tolerance |
| Xirr.BisectionIsAccurate | engine/xirr.py:137-163 | for conventional flows a rate returned by the width test is within 1e-7 of the only root |
| Xirr.Solve | engine/xirr.py:46-98 | the errors; no rate iff Newton gave up and both bracket ends have the same strict sign; every rate was found by one of the methods; never below -0.9999 unless it is the guess |
| Xirr.EarliestDate | engine/xirr.py:84 | the first date is attained and precedes all |
| Xirr.InDays | engine/xirr.py:85 | every flow keeps its amount and lies at least its number of days after the first date, and less than one day more |
| Xirr.WithinOneDayOutcome | engine/xirr.py:116-147 | flows within a day of the first: the guess is returned iff they balance to within the tolerance, otherwise nothing is found |
| NewtonSteps.PowerInequality | engine/xirr.py:107-113 | the inequality of powers behind the slope, for all exponents |
| NewtonSteps.CurveAboveTangent | engine/xirr.py:107-113 | for an ordinary investment the value at every rate lies on or above the line through any rate with the computed derivative as slope |
| NewtonSteps.SlopeIsNegative | engine/xirr.py:123-125 | the computed derivative is negative everywhere, so the flat-slope exit is not taken |
| NewtonSteps.NewtonNeverOvershoots | engine/xirr.py:127-132 | one step from anywhere lands at a rate of non-negative value that no root lies below, and moves forward from a positive value |
| NewtonSteps.NewtonClimbs | engine/xirr.py:118-134 | after its first step Newton increases, stays on one side of the root, and gives up only at the iteration limit |
| Accuracy.SideOfRoot | engine/xirr.py:101-104 | for conventional flows the sign of the value tells on which side of the solution a rate lies |
| Accuracy.CloseIff | engine/xirr.py:116-163 | a rate, however found, is within a given distance of the solution iff the value that far below it is positive and that far above it negative |
| Accuracy.NoRateMeansOutside | engine/xirr.py:88-98 | when Newton has given up on conventional flows, no rate is returned iff the solution lies outside the search bracket |
| Accuracy.GuessMissesIff | engine/xirr.py:118-121 | the guess is answered although it is at least a given distance off iff its value is within the tolerance and a value that far beside it has the wrong sign |
| Accuracy.ValueSize | engine/xirr.py:101-113 | the value at a rate lies between the distance to the solution times the slope at the higher and at the lower of the two rates |
| Accuracy.ValueExit | engine/xirr.py:118-121 | a rate accepted by its value is within the tolerance divided by the slope at the higher rate; one within the tolerance divided by the slope at the lower rate is accepted |
| Accuracy.AnswerIsClose | engine/xirr.py:46-98 | every rate returned for an ordinary investment, by any exit of either method, is within the tolerance of the solution in the rate or in the value |
| Accuracy.SteepnessFalls | engine/xirr.py:107-113 | at a higher rate the value of an ordinary investment is lower, and falls less steeply |
| Accuracy.SteepFlowsAreAccurate | engine/xirr.py:46-98 | if at some rate the value is below zero by the tolerance and still falls by at least 1 per unit of rate, every answer from any guess is within 1e-7 of the solution |
| Accuracy.SmallFlowsAcceptTheGuess | engine/xirr.py:118-121 | flows of less than 1e-7 in all are answered with any guess that is not negative |
| Accuracy.SmallGrowthMissed | engine/xirr.py:118-121 | two such flows that grow by 5% are answered with 10% |
| MoneyWeighted.AllAtOnceMeaning | engine/calculators/mwr_calculator.py:41 | the guard on the set of dates means that all flows share one moment |
| MoneyWeighted.SolveAndReport | engine/calculators/mwr_calculator.py:55-66 | past the guards the solver never raises; a percentage is reported iff a rate is found, and is never below -99.99 |
| MoneyWeighted.Calculate | engine/calculators/mwr_calculator.py:30-66 | which of the four statuses is reported, and the flow count, for every portfolio |
| MoneyWeighted.StatusMeaning | engine/calculators/mwr_calculator.py:33-53 | no data iff nothing moves capital; too little data iff capital moved at this moment only, or nothing was paid in and nothing is owed, or nothing was paid out and nothing is left |
| MoneyWeighted.CountMeaning | engine/calculators/mwr_calculator.py:33-66 | the count is that of the transactions that pay in or out and one for the current value, or zero |
| MoneyWeighted.PaidInIsEnough | engine/calculators/mwr_calculator.py:38-53 | a portfolio that was only paid into and is worth something later is never short of data |
| MoneyWeighted.ReportedRateSolves | engine/calculators/mwr_calculator.py:38-66 | the percentage is, to within 0.00005, 100 times a rate found for flows that at every rate are worth the external flows plus the discounted current value |
| MoneyWeighted.OneDepositOneYear | engine/calculators/mwr_calculator.py:38-55 | a deposit of 365 days ago is solved by exactly value over deposit, less one |
| MoneyWeighted.WithinADayIsNotARate | engine/calculators/mwr_calculator.py:41-46 | flows within a day pass the guard; the answer is the guess if they balance and no rate otherwise |
| Replay.AccumulatorTable.ApplyIncrease | engine/transaction_replay.py:153-173 | the table after a purchase: one lot averaged by weight or created, every other lot and the insertion order kept |
| Replay.AccumulatorTable.ApplyDecrease | engine/transaction_replay.py:176-193 | the table after a sale: fewer shares at the same average, or a new short lot |
| Replay.ApplyAll | engine/transaction_replay.py:114-125 | the loop over mutable accumulators computes the fold on values, the insertion order and the cash sum |
| Replay.BuildHoldings | engine/transaction_replay.py:127-146 | clamped, rounded holdings and the warnings, or the first symbol in insertion order that `Holding` refuses, the latter iff there is one |
| Replay.ReplayTransactions | engine/transaction_replay.py:72-150 | the whole replay of the date-sorted log, or the first symbol that is refused |
| ReplayLaws.LotsBySymbol | engine/transaction_replay.py:157-168 | the table holds for each symbol what its own transactions make of it |
| ReplayLaws.SymbolsIndependent | engine/transaction_replay.py:118-125 | transactions of other symbols, and cash events, can be left out |
| ReplayLaws.LotShares | engine/transaction_replay.py:168-193 | a running position is total in minus total out |
| ReplayLaws.HoldingShares | engine/transaction_replay.py:127-146 | reported shares are max(0, in minus out), and a symbol is reported iff the log moves it |
| ReplayLaws.HoldingFigures | engine/transaction_replay.py:139-146 | a reported holding is a stock in the currency of the symbol's first movement, its average within half a millionth of the running one |
| ReplayLaws.FirstSeenInOrder | engine/transaction_replay.py:127-128 | symbols are listed in the order of their first movements |
| ReplayLaws.ReplayWarnings | engine/transaction_replay.py:130-138 | exactly one warning for each symbol whose net is negative, with the net, and no other |
| ReplayLaws.ReplayCash | engine/transaction_replay.py:115-119 | cash is the opening balance plus the signed amounts, in any order, rounded |
| ReplayLaws.CashByKind | engine/models.py:115-124 | cash is deposits, sales and dividends less purchases, withdrawals and fees |
| ReplayLaws.ReplayCashByKind | engine/transaction_replay.py:115-119 | the replayed balance is the opening balance plus that, to within half a cent |
| ReplayLaws.RecordingMoves | engine/transaction_replay.py:118-125 | what one more transaction of each of the eight types does to the cash and to the position, wherever it stands |
| ReplayLaws.CashMirrorsFlow | engine/external_cash_flows.py:16-25 | the cash of a deposit or withdrawal is its external flow with the opposite sign |
| ReplayLaws.ReplayOrderIndependent | engine/transaction_replay.py:112-125 | a reordering that keeps equal-date transactions in relative order changes nothing, not even a refusal |
| ReplayLaws.DistinctDatesAnyOrder | engine/transaction_replay.py:112-125 | with distinct dates no permutation changes anything |
| ReplayLaws.AverageBetweenPrices | engine/transaction_replay.py:168-173 | while never short, the average price lies between the lowest and the highest price paid |
| ReplayLaws.AverageIsCostPerShare | engine/transaction_replay.py:168-173 | for a symbol that is only bought, shares times average is what was paid for it |
| ReplayLaws.PurchaseMeaning | engine/transaction_replay.py:168-173 | a purchase adds its shares and its cost; one that closes a short position exactly leaves the average |
| ReplayLaws.FlatPositionForgets | engine/transaction_replay.py:168-193 | everything before a moment of zero position, short or not, can be dropped without changing final shares and average price, if the rest is never short |
| ReplayLaws.BuildableIff | engine/models.py:46-54 | a lot becomes a `Holding` iff its average is at least minus half of a millionth |
| ReplayLaws.ReplayFailsIff | engine/transaction_replay.py:139-146 | a replay fails iff some symbol ends with an average below that |
| ReplayLaws.SoundSinceFlatSucceeds | engine/transaction_replay.py:101-110 | a replay succeeds if every symbol that moves is flat at some moment, moves again and is never short after it |
| ReplayLaws.NeverShortSucceeds | engine/transaction_replay.py:101-110 | a log in which no position is ever short replays without failure |
| ReplayLaws.PurchaseTurnsNegative | engine/transaction_replay.py:168-173 | a purchase turns a sound average negative iff total cost and resulting position have opposite signs, which needs a short position |
| ReplayLaws.OversoldThenBoughtBackFails | engine/transaction_replay.py:101-110 | 5 sold at 100, then 6 bought at 1: the replay fails |
| ReplayLaws.FlatEndStillFails | engine/transaction_replay.py:101-110 | 5 sold at 100, 6 bought at 1, 1 sold: flat at the end, and the replay fails |
| Reconciliation.Compare | engine/calculators/reconciliation_calculator.py:72-89 | an entry is added iff the values differ by more than 0.01 |
| Reconciliation.FoundMeaning | engine/calculators/reconciliation_calculator.py:79-89 | figures that differ by at most 0.01 either way are not listed; others are, with both figures and their difference rounded to six places |
| Reconciliation.CompareSymbols | engine/calculators/reconciliation_calculator.py:45-60 | the loop over the sorted symbols returns the list that `ListMeaning` and `ListUnique` characterise |
| Reconciliation.ListMeaning | engine/calculators/reconciliation_calculator.py:45-60 | the list holds exactly the disagreements in shares, and in average price where both sides hold the symbol, by symbol, each once; it is empty iff there is none |
| Reconciliation.ListUnique | engine/calculators/reconciliation_calculator.py:45-60 | there is only one such list |
| Reconciliation.ReportMeaning | engine/calculators/reconciliation_calculator.py:45-64 | the whole list holds exactly the disagreements, cash last, and is empty iff everything agrees |
| Reconciliation.Calculate | engine/calculators/reconciliation_calculator.py:30-69 | ok iff cash, shares and average prices all agree within tolerance; the list of disagreements in its order; no data iff the log is empty; a refused holding is passed on |
| Reconciliation.DeclaredLookup | engine/calculators/reconciliation_calculator.py:41 | with unique symbols the dictionary of declared holdings is the list of positions |
| Reconciliation.ReconciledIff | engine/calculators/reconciliation_calculator.py:45-64 | everything agrees iff cash, and the shares and average prices of common holdings, differ by at most 0.01 either way, and a one-sided holding is of at most 0.01 shares |
| Reconciliation.AgreementMeansLog | engine/calculators/reconciliation_calculator.py:45-62 | agreement puts every declared position within 0.01 of the log's net position, undeclared nets at most at 0.01, and cash within 0.01 of the signed sum |
| Reconciliation.OwnOutputAgrees | engine/calculators/reconciliation_calculator.py:45-64 | declaring the replay's own output is always ok |
| TextOrder.BeforeMeaning | engine/calculators/reconciliation_calculator.py:45 | text comes before text that goes on where it ends, or that has the larger character at the first difference |
| TextOrder.ArrangedOneWay | engine/calculators/reconciliation_calculator.py:45 | a set of symbols has only one sorted arrangement |
| ImportReports.FirstLike | importers/duplicate_detection.py:50-63 | a match is found iff some entry agrees in type, date, symbol, shares and amount, and it is such an entry |
| ImportReports.FindHeuristicMatch | importers/duplicate_detection.py:50-63 | the search returns the first such entry |
| ImportReports.DetectDuplicates | importers/duplicate_detection.py:26-47 | the loop returns the matches of the duplicate rows in row order |
| ImportReports.IsDuplicateIff | importers/duplicate_detection.py:26-63 | a row is a duplicate iff an entry has its id, or its type, date and symbol with amount and shares within 0.01 either way |
| ImportReports.DuplicateRowsIff | importers/duplicate_detection.py:26-47 | these rows are the ones reported as duplicates |
| ImportReports.OtherAmountIsNew | importers/duplicate_detection.py:60 | a row that differs from an entry in id and amount, by more than 0.01, is new |
| ImportReports.OtherSymbolIsNew | importers/duplicate_detection.py:55-60 | so is one that differs in id and symbol |
| ImportReports.DuplicatesMeaning | importers/duplicate_detection.py:26-47 | the matched rows are exactly the duplicates, in order; every match points at a recorded id |
| ImportReports.NewRows | importers/report.py:133-135 | a row is new iff neither it nor a row with its id is a duplicate |
| ImportReports.ReportPartitions | importers/report.py:128-146 | with distinct ids the report splits the rows, in order, into duplicates and others, and the counts add up |
| ImportReports.ReportCarries | importers/report.py:137-146 | name, portfolio, date, rejected rows, warnings and the number of rows read are passed on |
| ImportReports.CountsAddUpIff | importers/report.py:128-131 | the counts add up iff every row that shares its id with a duplicate is a duplicate |
| ImportReports.SharedIdLosesARow | importers/report.py:133-135 | two rows with one id of which one matches are both dropped |
| ImportReports.DetectionMonotone | importers/duplicate_detection.py:26-63 | a larger log never makes a duplicate new |
| ImportReports.ImportIdempotent | importers/report.py:133-135 | once the new rows are recorded, importing the same rows yields nothing new, even with repeated ids |
| ImportReports.NewIdsAreNew | importers/report.py:133-135 | no new row carries a recorded id |
| YamlLog.TransactionToEntry | repositories/yaml_portfolio_writer.py:125-141 | optional keys are written exactly when they have a value |
| YamlLog.BatchEntries | repositories/yaml_portfolio_writer.py:84-85 | the new entries follow the existing ones in order |
| YamlLog.LoadTransactions | repositories/yaml_repository.py:67-105 | the loop returns the sorted transactions or the first error |
| YamlLog.ParseEntry | repositories/yaml_repository.py:85-98 | an accepted entry is a valid transaction of this portfolio under the given id |
| YamlLog.ParseEntryMeaning | repositories/yaml_repository.py:85-98 | which error a bad entry raises, and that every field of a good one is taken over |
| YamlLog.NaiveIsUtc | repositories/yaml_repository.py:116-125 | a date without an offset is read as the same wall time in UTC |
| YamlLog.MissingIdIsGenerated | repositories/yaml_repository.py:78 | an entry without an id, or with an empty one, is read under a generated id |
| YamlLog.StoredNames | engine/models.py:98-105 | the names under which the eight types are stored |
| YamlLog.ReaderAccepts | repositories/yaml_repository.py:75-98 | the file is accepted iff every entry is sound and no id occurs twice, and then it is read completely and in order |
| YamlLog.EntryRoundTrip | repositories/yaml_portfolio_writer.py:125-141 | what is written for a transaction reads back as that transaction |
| YamlLog.AppendThenLoad | repositories/yaml_repository.py:67-105 | reading after appending gives the stable date sort of the old transactions followed by the new ones, every field equal |
| YamlLog.AppendedDuplicateRejects | repositories/yaml_repository.py:79-82 | an appended duplicate id makes the file unreadable |
| AtomicFiles.PortfolioFile.WriteAtomically | repositories/yaml_portfolio_writer.py:88-105 | what the three files hold after a write cut short anywhere; a completed overwrite leaves the prior content in the backup |
| AtomicFiles.PortfolioFile.AppendTransactions | repositories/yaml_portfolio_writer.py:72-86 | the batch is in the file entirely or not at all, if the text of the extended list is read back as it |
| AtomicFiles.PortfolioFile.CreateOnce | repositories/yaml_portfolio_writer.py:55-70 | an existing file is refused and nothing is touched |
| AtomicFiles.TargetIsWhole | repositories/yaml_portfolio_writer.py:88-105 | the target is entirely the old or entirely the new content, decided by the replacement alone |
| AtomicFiles.BackupIsPrior | repositories/yaml_portfolio_writer.py:97-101 | once the file is replaced the backup is the prior content; a partial backup goes with an untouched target |
| AtomicFiles.OnlyTempIsPartial | repositories/yaml_portfolio_writer.py:102-105 | only the temporary file ever holds a part of the new content, and then the target is untouched |
| AtomicFiles.RunKeepsWholeBatches | repositories/yaml_portfolio_writer.py:72-105 | over any run of interrupted appends the file holds its starting entries followed by the committed batches, whole and in order, if each text written is read back as what it stands for |
| AtomicFiles.RunAccountsForBackup | repositories/yaml_portfolio_writer.py:88-105 | over any such run the backup is the one from the start, a whole content that the file had, or the beginning of its present one |
| ImportProtocol.ImportReportStore.SaveReport | custom_components/portfolio_engine/import_report_store.py:42-45 | the report of one portfolio is replaced, the others stay |
| ImportProtocol.ImportReportStore.ClearReport | custom_components/portfolio_engine/import_report_store.py:47-58 | one report is removed, the others stay |
| ImportProtocol.ImportService.RefreshView | custom_components/portfolio_engine/services.py:244 | the view is read again; a rejected file leaves it as it was |
| ImportProtocol.ImportService.ImportTransactions | custom_components/portfolio_engine/services.py:232-244 | the handler performs the import step of the protocol and touches no other portfolio's report |
| ImportProtocol.ImportService.ApplyImport | custom_components/portfolio_engine/services.py:293-313 | the handler, with a write cut short anywhere, performs the corresponding apply step |
| ImportLaws.AppendReadableIff | repositories/yaml_repository.py:75-83 | after an append the file is readable iff all ids are distinct, and then holds old followed by new |
| ImportLaws.ImportOnlyPends | custom_components/portfolio_engine/services.py:232-244 | an import changes nothing but the pending report, whose new rows are parsed and not recorded under their ids |
| ImportLaws.ApplyEffects | custom_components/portfolio_engine/services.py:302-313 | an apply appends exactly the new rows and drops the report, unless it stops in between |
| ImportLaws.FailedWriteRetries | custom_components/portfolio_engine/services.py:302-311 | a failed write leaves file, view and report, so that a retry applies it |
| ImportLaws.RefreshMeaning | custom_components/portfolio_engine/services.py:244 | a refresh shows the file as read, or changes nothing when the reader refuses it |
| ImportLaws.OutcomeMeaning | custom_components/portfolio_engine/services.py:302-313 | an apply fails iff the file keeps its old content; it stops before clearing iff cut after the replacement |
| ImportLaws.SafeStep | custom_components/portfolio_engine/services.py:232-313 | each step of the discipline keeps the file readable, the pending rows appendable and the log a prefix |
| ImportLaws.DisciplinedRun | custom_components/portfolio_engine/services.py:232-313 | in every state that a disciplined run reaches, the file is readable with unique ids, pending ids are disjoint from it, and nothing stored is lost |
| ImportLaws.LogOnlyGrows | custom_components/portfolio_engine/services.py:302-306 | each earlier log of a run is a prefix of every later one, in its entries and as read |
| ImportLaws.EntriesReadAlike | repositories/yaml_repository.py:76-98 | whatever ids two readings generate, the second sees the transactions of the first in their places, the same but for such ids |
| ImportLaws.ReimportFindsNothing | custom_components/portfolio_engine/services.py:232-313 | import, apply, refresh and import again: the second report has nothing new |
| ImportLaws.RetryAfterCrash | custom_components/portfolio_engine/services.py:304-313 | applying again after a crash between append and clear breaks the file iff the report had new rows |
| ImportLaws.StaleViewBreaks | custom_components/portfolio_engine/services.py:234-244 | repeating import and apply without a refresh in between breaks the file iff the first import had new rows |
| ImportLaws.RepeatedIdsBreak | repositories/yaml_repository.py:75-83 | from a fresh view, import and apply leave the file readable iff the new rows have distinct ids |
| ImportLaws.RowTwiceBreaks | importers/id_generation.py:11-29 | a new row that is listed twice, under one id, makes the file unreadable |
| Snapshots.InMemorySnapshotRepository.GetSnapshots | repositories/in_memory_snapshot_repository.py:24-31 | the snapshots held for one portfolio, all and only they, by timestamp and then by id |
| Snapshots.InMemorySnapshotRepository.AppendSnapshot | repositories/in_memory_snapshot_repository.py:33-39 | a known id is refused, anything else is added at the end of its portfolio |
| Snapshots.ReadInOrder | repositories/in_memory_snapshot_repository.py:26-31 | reading orders by timestamp, then by id |
| Snapshots.ReadingOrderDetermined | repositories/in_memory_snapshot_repository.py:26-31 | with unique ids there is only one such order |
| Snapshots.BuildSnapshot | engine/snapshot_policy.py:28-57 | the figures and holdings recorded, and exactly which figures make no record |
| Snapshots.CollectSnapshot | custom_components/portfolio_engine/update_logic.py:98-138 | what a refresh stores and reports, for every combination of read failure, write failure and invalid figures |
| Snapshots.TickStoresIff | custom_components/portfolio_engine/update_logic.py:98-133 | a refresh stores its snapshot, at the end, iff the read succeeded, today and the id are not taken, the figures make a record and the write took effect |
| Snapshots.RunKeepsSnapshots | custom_components/portfolio_engine/update_logic.py:98-138 | over any run of refreshes with arbitrary failures, at most one snapshot per date, unique ids, and stored snapshots never change or move |
| Snapshots.TickKeepsSnapshots | engine/snapshot_policy.py:24-25 | the same for one refresh, which leaves other portfolios alone |
| Snapshots.TodayIsRecorded | engine/snapshot_policy.py:16-25 | a refresh whose write takes effect leaves exactly one snapshot for today, even if the write then reports failure |
| Drawdown.PeakPass | engine/calculators/drawdown_calculator.py:50-60 | the loop finds the first highest point and the deepest drop below the peak so far |
| Drawdown.PeakIndex | engine/calculators/drawdown_calculator.py:50-57 | the running peak is the highest value so far, at its earliest position |
| Drawdown.ReportOn | engine/calculators/drawdown_calculator.py:50-82 | the reported figures and status for a series of points |
| Drawdown.Calculate | engine/calculators/drawdown_calculator.py:34-82 | no data iff there is no point, otherwise the report on the same points that the period returns use |
| Drawdown.OnePassIsAllPairs | engine/calculators/drawdown_calculator.py:50-60 | the one-pass maximum is the minimum over all pairs i <= j with a positive start, capped at 0 |
| Drawdown.OnePassExactIff | engine/calculators/drawdown_calculator.py:50-60 | after values that are not negative it is so iff the last value is not negative or every positive value before it equals the peak |
| Drawdown.OnlyCurrentCanBeNegative | engine/calculators/drawdown_calculator.py:43-48 | of the points only the current value can be negative |
| Drawdown.NegativeValueMissesAPair | engine/calculators/drawdown_calculator.py:50-60 | snapshots of 1 and 2 and a current value of -1: the one-pass maximum is not the deepest fall |
| Drawdown.ReportBounds | engine/calculators/drawdown_calculator.py:62-82 | after rounding maximum <= current <= 0, and -100 <= maximum for values that are not negative; the peak is the highest value at its earliest date |
| Drawdown.ReportedFigures | engine/calculators/drawdown_calculator.py:50-82 | for non-negative values the maximum is the deepest fall over all pairs and the current figure the change from the first highest point to the last, to within 0.00005 |
| Drawdown.PartialRecovery | engine/calculators/drawdown_calculator.py:50-82 | 100, 50, now 90: maximum -50%, current -10%, recovering |
| Drawdown.AtPeakIff | engine/calculators/drawdown_calculator.py:62-68 | "at peak" is reported iff the current figure is at least -0.01005% |
| Drawdown.StatusExactIff | engine/calculators/drawdown_calculator.py:62-72 | below that, "in drawdown" is reported exactly at the deepest point iff rounding does not carry the current figure across the deepest; the two ways it can fail |
| Drawdown.TroughReportedAsRecovering | engine/calculators/drawdown_calculator.py:62-72 | a fall from 3 to 2: at the deepest point and reported as recovering |
| Drawdown.RecoveryReportedAsTrough | engine/calculators/drawdown_calculator.py:62-72 | values 100000000, 66666720, 66666740: above the deepest point and reported in drawdown |
| Drawdown.StatusExactWithoutRounding | engine/calculators/drawdown_calculator.py:67-72 | where rounding changes nothing, "in drawdown" means at the deepest point |
| Drawdown.ClearRecoveryIsReported | engine/calculators/drawdown_calculator.py:67-72 | clearly above the deepest point is never reported as being at it |
| Concentration.HerfindahlLowerBound | engine/calculators/position_analytics_calculator.py:59-60 | the index is at least 1/n, with equality iff all positions have equal value |
| Concentration.HerfindahlUpperBound | engine/calculators/position_analytics_calculator.py:59-60 | the index is at most 1, with equality iff one position is everything |
| Concentration.Top5Outweighs | engine/calculators/position_analytics_calculator.py:40-57 | as reported, the five largest shares are at least every choice of at most five positions |
| Concentration.Top5AgainstExact | engine/calculators/position_analytics_calculator.py:40-57 | against unrounded shares the reported sum falls short by at most 0.00005 per chosen position |
| Concentration.Top5AtMost | engine/calculators/position_analytics_calculator.py:57 | the reported sum is at most 100.0002 |
| Concentration.Top5AboveHundredIff | engine/calculators/position_analytics_calculator.py:40-57 | the reported sum exceeds 100 iff rounding adds more to the top shares than the other positions are worth, and never when these are worth 0.00025% or more |
| Concentration.Top5AboveHundred | engine/calculators/position_analytics_calculator.py:57 | and reaches 100.0002 for five concrete positions |
| Concentration.ReportedBounds | engine/calculators/position_analytics_calculator.py:40-72 | all reported figures in range, the largest share first, winner and loser extreme |
| Concentration.NoDataIff | engine/calculators/position_analytics_calculator.py:36-42 | no data iff there is no position or they are worth nothing together |
| Concentration.IndexAndScore | engine/calculators/position_analytics_calculator.py:59-61 | the index is the sum of squared weights to within 0.0000005, the score 100 times one less the index to within 0.005 |
| Concentration.ScoreFalls | engine/calculators/position_analytics_calculator.py:61 | the score never rises with the index |
| Concentration.OnePositionScoresZero | engine/calculators/position_analytics_calculator.py:59-61 | a single position has index 1 and score 0 |
| Concentration.FourEqualPositions | engine/calculators/position_analytics_calculator.py:59-61 | four equal ones have index 0.25 and score 75 |
| Concentration.Standouts | engine/calculators/position_analytics_calculator.py:44-55 | largest, winner and loser describe positions: no share exceeds the largest beyond rounding, no gain the winner's, none is below the loser's |

## Left out

- IEEE floating point, NaN, infinity and overflow: arithmetic is exact, so Newton's check for a finite next rate has no counterpart.
- Existence of a root between two opposite signs: it needs the completeness of the reals, which the verifier does not have; uniqueness and accuracy around a root are proved.
- Volatility: square roots.
- CSV, XML, YAML and ISO-date text, and the hash that generates ids: the model starts from parsed rows, abstract dates and a codec assumed to round-trip on the lists that are written; values of the wrong YAML type are not modelled.
- The JSON form of a report inside its store: the store keeps the report itself.
- Files changed by hand between protocol steps, and two handlers running at the same time.
- ImportLaws.DisciplinedRun: one generator of ids serves all reads of a run, where the program draws new ids for entries without one on each read; `ImportLaws.EntriesReadAlike` says what two such reads share.
- Replay.BuildHoldings: keeps the symbol and the share count of a warning, not its wording.
- Snapshots.CollectSnapshot: the quote and FX fetches before the snapshot read, and the engine run between the read and the write, are not modelled; their figures are parameters.
- Home Assistant configuration flow, sensors and diagnostics, market-data providers, export and search services.
- Dividend, performance, transaction-count, allocation and summary calculators: simple sums that would only add easy members.
