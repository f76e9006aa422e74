/** importers/duplicate_detection.py and importers/report.py: which parsed rows are new. */
module ImportReports {
  import opened Models
  import opened Sequences
  import opened Wrappers

  const HEURISTIC_TOLERANCE: real := 0.01

  datatype Reason = ById | ByHeuristic

  datatype DuplicateMatch = DuplicateMatch(imported: Transaction, matchedExistingId: string, reason: Reason)

  /** Rows that did not become a transaction; only their number matters here. */
  datatype RejectedRow = RejectedRow(sourceLine: nat, error: string)

  datatype ParseResult = ParseResult(transactions: seq<Transaction>, rejected: seq<RejectedRow>, warnings: seq<string>)

  datatype ImportReport = ImportReport(
    providerName: string,
    portfolioId: string,
    asOf: Instant,
    transactionsRead: nat,
    imported: seq<Transaction>,
    duplicates: seq<DuplicateMatch>,
    rejected: seq<RejectedRow>,
    warnings: seq<string>)

  /** `_close` */
  predicate Close(a: Option<real>, b: Option<real>) {
    match (a, b)
    case (None, None) => true
    case (Some(x), Some(y)) => -HEURISTIC_TOLERANCE <= x - y <= HEURISTIC_TOLERANCE
    case _ => false
  }

  predicate LooksLike(candidate: Transaction, t: Transaction) {
    && candidate.kind == t.kind
    && candidate.date == t.date
    && candidate.symbol == t.symbol
    && Close(candidate.shares, t.shares)
    && Close(Some(candidate.amount), Some(t.amount))
  }

  /** `_find_heuristic_match`: the first existing transaction that looks like `t`. */
  method FindHeuristicMatch(t: Transaction, existing: seq<Transaction>) returns (r: Option<Transaction>)
    ensures r == FirstLike(t, existing)
  {
    var i := 0;
    while i < |existing|
      invariant 0 <= i <= |existing|
      invariant FirstLike(t, existing) == FirstLike(t, existing[i..])
    {
      if LooksLike(existing[i], t) {
        return Some(existing[i]);
      }
      assert existing[i..][1..] == existing[i + 1..];
      i := i + 1;
    }
    r := None;
  }

  function FirstLike(t: Transaction, existing: seq<Transaction>): (r: Option<Transaction>)
    ensures r.Some? <==> exists i :: 0 <= i < |existing| && LooksLike(existing[i], t)
    ensures r.Some? ==> r.value in existing && LooksLike(r.value, t)
  {
    if existing == [] then None
    else if LooksLike(existing[0], t) then Some(existing[0])
    else
      assert forall i :: 1 <= i < |existing| ==> existing[i] == existing[1..][i - 1];
      FirstLike(t, existing[1..])
  }

  /** `t` is already recorded: under its id, or as an entry that looks like it. */
  predicate IsDuplicate(t: Transaction, existing: seq<Transaction>) {
    IdIn(t.id, existing) || FirstLike(t, existing).Some?
  }

  function MatchOf(t: Transaction, existing: seq<Transaction>): DuplicateMatch
    requires IsDuplicate(t, existing)
  {
    if IdIn(t.id, existing) then DuplicateMatch(t, t.id, ById)
    else DuplicateMatch(t, FirstLike(t, existing).value.id, ByHeuristic)
  }

  function Duplicates(rows: seq<Transaction>, existing: seq<Transaction>): seq<DuplicateMatch> {
    if rows == [] then [] else
    var t := rows[|rows| - 1];
    var rest := Duplicates(rows[..|rows| - 1], existing);
    if IsDuplicate(t, existing) then rest + [MatchOf(t, existing)] else rest
  }

  /** `detect_duplicates` */
  method DetectDuplicates(rows: seq<Transaction>, existing: seq<Transaction>) returns (matches: seq<DuplicateMatch>)
    ensures matches == Duplicates(rows, existing)
  {
    matches := [];
    var i := 0;
    while i < |rows|
      invariant 0 <= i <= |rows|
      invariant matches == Duplicates(rows[..i], existing)
    {
      var t := rows[i];
      assert rows[..i + 1][..i] == rows[..i];
      if IdIn(t.id, existing) {
        matches := matches + [DuplicateMatch(t, t.id, ById)];
      } else {
        var like := FindHeuristicMatch(t, existing);
        if like.Some? {
          matches := matches + [DuplicateMatch(t, like.value.id, ByHeuristic)];
        }
      }
      i := i + 1;
    }
    assert rows[..i] == rows;
  }

  function Duplicated(existing: seq<Transaction>): Transaction -> bool {
    (t: Transaction) => IsDuplicate(t, existing)
  }

  function Imported(d: seq<DuplicateMatch>): (r: seq<Transaction>)
    ensures |r| == |d| && forall i :: 0 <= i < |d| ==> r[i] == d[i].imported
  {
    seq(|d|, i requires 0 <= i < |d| => d[i].imported)
  }

  /** The ids of the rows that were found to be duplicates. */
  predicate IdMatched(id: string, d: seq<DuplicateMatch>) {
    exists i :: 0 <= i < |d| && d[i].imported.id == id
  }

  function NotMatched(d: seq<DuplicateMatch>): Transaction -> bool {
    (t: Transaction) => !IdMatched(t.id, d)
  }

  /** `build_import_report`, once the duplicates are known: a row is new unless a duplicate has its id. */
  function BuildReport(provider: string, portfolioId: string, parsed: ParseResult, existing: seq<Transaction>,
      asOf: Instant): ImportReport {
    var duplicates := Duplicates(parsed.transactions, existing);
    ImportReport(provider, portfolioId, asOf, |parsed.transactions| + |parsed.rejected|,
                 Filter(NotMatched(duplicates), parsed.transactions), duplicates, parsed.rejected, parsed.warnings)
  }

  /** What the report passes on unchanged. */
  lemma {:induction false} ReportCarries(provider: string, portfolioId: string, parsed: ParseResult,
      existing: seq<Transaction>, asOf: Instant)
    ensures var r := BuildReport(provider, portfolioId, parsed, existing, asOf);
      && r.providerName == provider && r.portfolioId == portfolioId && r.asOf == asOf
      && r.rejected == parsed.rejected && r.warnings == parsed.warnings
      && r.transactionsRead == |parsed.transactions| + |parsed.rejected|
  {}

  // ---------- what is a duplicate ----------

  lemma {:induction false} DuplicatesMeaning(rows: seq<Transaction>, existing: seq<Transaction>)
    ensures Imported(Duplicates(rows, existing)) == Filter(Duplicated(existing), rows)
    ensures forall m :: m in Duplicates(rows, existing) ==>
      && IdIn(m.matchedExistingId, existing)
      && (m.reason.ById? <==> IdIn(m.imported.id, existing))
      && (m.reason.ById? ==> m.matchedExistingId == m.imported.id)
  {
    if rows != [] {
      DuplicatesMeaning(rows[..|rows| - 1], existing);
      var t := rows[|rows| - 1];
      if IsDuplicate(t, existing) && !IdIn(t.id, existing) {
        var like := FirstLike(t, existing).value;
        var i :| 0 <= i < |existing| && existing[i] == like;
        assert existing[i].id == like.id;
      }
    }
  }

  /** Which ids are matched: those of rows that are duplicates. */
  lemma {:induction false} MatchedIds(rows: seq<Transaction>, existing: seq<Transaction>, id: string)
    ensures IdMatched(id, Duplicates(rows, existing)) <==>
      exists t :: t in rows && t.id == id && IsDuplicate(t, existing)
  {
    var d := Duplicates(rows, existing);
    DuplicatesMeaning(rows, existing);
    if IdMatched(id, d) {
      var i :| 0 <= i < |d| && d[i].imported.id == id;
      assert Imported(d)[i] in Filter(Duplicated(existing), rows);
    }
    if t :| t in rows && t.id == id && IsDuplicate(t, existing) {
      assert t in Imported(d);
      var i :| 0 <= i < |d| && Imported(d)[i] == t;
      assert d[i].imported.id == id;
    }
  }

  /** A new row is a parsed row that is no duplicate and shares its id with none. */
  lemma {:induction false} NewRows(rows: seq<Transaction>, existing: seq<Transaction>, t: Transaction)
    ensures t in Filter(NotMatched(Duplicates(rows, existing)), rows) <==>
      t in rows && !exists u :: u in rows && u.id == t.id && IsDuplicate(u, existing)
  {
    MatchedIds(rows, existing, t.id);
  }

  /** A recorded entry has the id of the row, or agrees with it in kind, date and symbol, and to within a cent
      either way in the amount and, where there are shares, to within a hundredth in these. */
  predicate Matches(c: Transaction, t: Transaction) {
    || c.id == t.id
    || (c.kind == t.kind && c.date == t.date && c.symbol == t.symbol
        && c.amount - t.amount <= 0.01 && t.amount - c.amount <= 0.01
        && (c.shares.None? <==> t.shares.None?)
        && (c.shares.Some? && t.shares.Some? ==>
          c.shares.value - t.shares.value <= 0.01 && t.shares.value - c.shares.value <= 0.01))
  }

  /** A row is a duplicate exactly when some recorded entry matches it. */
  lemma {:induction false} IsDuplicateIff(t: Transaction, existing: seq<Transaction>)
    ensures IsDuplicate(t, existing) <==> exists c :: c in existing && Matches(c, t)
  {
    if c :| c in existing && Matches(c, t) {
      var i :| 0 <= i < |existing| && existing[i] == c;
      assert existing[i].id == t.id || LooksLike(existing[i], t);
    }
    if IdIn(t.id, existing) {
      var i :| 0 <= i < |existing| && existing[i].id == t.id;
      assert existing[i] in existing;
    }
  }

  /** Which rows are reported as duplicates. */
  lemma {:induction false} DuplicateRowsIff(rows: seq<Transaction>, existing: seq<Transaction>, t: Transaction)
    ensures t in Imported(Duplicates(rows, existing)) <==> t in rows && exists c :: c in existing && Matches(c, t)
  {
    DuplicatesMeaning(rows, existing);
    IsDuplicateIff(t, existing);
  }

  lemma {:induction false} UnmatchedIsNew(provider: string, portfolioId: string, t: Transaction, c: Transaction,
      asOf: Instant)
    requires !Matches(c, t)
    ensures BuildReport(provider, portfolioId, ParseResult([t], [], []), [c], asOf).imported == [t]
  {
    IsDuplicateIff(t, [c]);
    MatchedIds([t], [c], t.id);
    FilterAll(NotMatched(Duplicates([t], [c])), [t]);
  }

  /** A row is new next to an entry that differs from it only in the id and in the amount, by more than a cent. */
  lemma {:induction false} OtherAmountIsNew(provider: string, portfolioId: string, c: Transaction, id: string,
      amount: real, asOf: Instant)
    requires id != c.id && (amount < c.amount - 0.01 || c.amount + 0.01 < amount)
    ensures var t := c.(id := id, amount := amount);
      BuildReport(provider, portfolioId, ParseResult([t], [], []), [c], asOf).imported == [t]
  {
    UnmatchedIsNew(provider, portfolioId, c.(id := id, amount := amount), c, asOf);
  }

  /** And next to one that differs from it only in the id and in the symbol. */
  lemma {:induction false} OtherSymbolIsNew(provider: string, portfolioId: string, c: Transaction, id: string,
      symbol: Option<string>, asOf: Instant)
    requires id != c.id && symbol != c.symbol
    ensures var t := c.(id := id, symbol := symbol);
      BuildReport(provider, portfolioId, ParseResult([t], [], []), [c], asOf).imported == [t]
  {
    UnmatchedIsNew(provider, portfolioId, c.(id := id, symbol := symbol), c, asOf);
  }

  lemma {:induction false} SameIdSameRow(rows: seq<Transaction>, t: Transaction, u: Transaction)
    requires DistinctIds(rows) && t in rows && u in rows && t.id == u.id
    ensures t == u
  {
    var i :| 0 <= i < |rows| && rows[i] == t;
    var j :| 0 <= j < |rows| && rows[j] == u;
  }

  function NotDuplicated(existing: seq<Transaction>): Transaction -> bool {
    (t: Transaction) => !IsDuplicate(t, existing)
  }

  predicate CountsAddUp(r: ImportReport) {
    |r.imported| + |r.duplicates| + |r.rejected| == r.transactionsRead
  }

  /** When the parsed ids are distinct, the report splits the rows in order into those that are duplicates
      and those that are not. */
  lemma {:induction false} ReportPartitions(provider: string, portfolioId: string, parsed: ParseResult,
      existing: seq<Transaction>, asOf: Instant)
    requires DistinctIds(parsed.transactions)
    ensures var r := BuildReport(provider, portfolioId, parsed, existing, asOf);
      && r.imported == Filter(NotDuplicated(existing), parsed.transactions)
      && Imported(r.duplicates) == Filter(Duplicated(existing), parsed.transactions)
      && CountsAddUp(r)
  {
    var rows := parsed.transactions;
    var d := Duplicates(rows, existing);
    DuplicatesMeaning(rows, existing);
    forall t | t in rows
      ensures NotMatched(d)(t) == NotDuplicated(existing)(t)
    {
      MatchedIds(rows, existing, t.id);
      if u :| u in rows && u.id == t.id && IsDuplicate(u, existing) {
        SameIdSameRow(rows, t, u);
      }
    }
    FilterCongruence(NotMatched(d), NotDuplicated(existing), rows);
    FilterSplitLength(NotMatched(d), Duplicated(existing), rows);
  }

  /** No row is dropped silently: whoever shares an id with a duplicate is a duplicate. */
  predicate SharersAreDuplicates(rows: seq<Transaction>, existing: seq<Transaction>) {
    forall t, u :: t in rows && u in rows && t.id == u.id && IsDuplicate(u, existing) ==> IsDuplicate(t, existing)
  }

  lemma {:induction false} NoneDropped(rows: seq<Transaction>, existing: seq<Transaction>)
    ensures var p, q := NotMatched(Duplicates(rows, existing)), NotDuplicated(existing);
      && (forall t :: t in rows && p(t) ==> q(t))
      && ((forall t :: t in rows ==> p(t) == q(t)) <==> SharersAreDuplicates(rows, existing))
  {
    var p, q := NotMatched(Duplicates(rows, existing)), NotDuplicated(existing);
    forall t | t in rows
      ensures p(t) <==> !exists u :: u in rows && u.id == t.id && IsDuplicate(u, existing)
    {
      MatchedIds(rows, existing, t.id);
    }
  }

  /** The counts add up exactly when no new-looking row shares its id with a duplicate; such a row is dropped
      without being counted anywhere. */
  lemma {:induction false} CountsAddUpIff(provider: string, portfolioId: string, parsed: ParseResult,
      existing: seq<Transaction>, asOf: Instant)
    ensures CountsAddUp(BuildReport(provider, portfolioId, parsed, existing, asOf)) <==>
      SharersAreDuplicates(parsed.transactions, existing)
  {
    var rows := parsed.transactions;
    DuplicatesMeaning(rows, existing);
    FilterSplitLength(NotDuplicated(existing), Duplicated(existing), rows);
    NoneDropped(rows, existing);
    FilterStronger(NotMatched(Duplicates(rows, existing)), NotDuplicated(existing), rows);
  }

  /** A stronger test keeps as many elements only if it keeps the same ones. */
  lemma {:induction false} FilterStronger(p: Transaction -> bool, q: Transaction -> bool, s: seq<Transaction>)
    requires forall t :: t in s && p(t) ==> q(t)
    ensures |Filter(p, s)| <= |Filter(q, s)|
    ensures |Filter(p, s)| == |Filter(q, s)| <==> forall t :: t in s ==> p(t) == q(t)
  {
    if s != [] {
      assert s == s[..|s| - 1] + [s[|s| - 1]];
      FilterStronger(p, q, s[..|s| - 1]);
    }
  }

  lemma {:induction false} OnlyFirstMatches(a: Transaction, b: Transaction, c: Transaction)
    requires a.id != c.id && b.id != c.id && LooksLike(c, a) && !LooksLike(c, b)
    ensures Duplicates([a, b], [c]) == [DuplicateMatch(a, c.id, ByHeuristic)]
  {
    assert [c][0] == c;
    assert !IsDuplicate(b, [c]) && IsDuplicate(a, [c]);
    assert [a, b][..1] == [a] && [a][..0] == [];
    assert Duplicates([a], [c]) == [MatchOf(a, [c])];
  }

  /** The documented sum fails for two rows sharing an id of which only one matches: both are dropped. */
  lemma {:induction false} SharedIdLosesARow(a: Transaction, b: Transaction, c: Transaction, asOf: Instant)
    requires a.id == b.id && a.id != c.id && LooksLike(c, a) && !LooksLike(c, b)
    ensures var r := BuildReport("generic_csv", "main", ParseResult([a, b], [], []), [c], asOf);
      r.imported == [] && Imported(r.duplicates) == [a] && r.transactionsRead == 2 && !CountsAddUp(r)
  {
    OnlyFirstMatches(a, b, c);
    var d := Duplicates([a, b], [c]);
    assert d[0].imported.id == a.id;
    FilterNone(NotMatched(d), [a, b]);
  }

  // ---------- importing twice ----------

  /** More recorded transactions never make a duplicate new again. */
  lemma {:induction false} DetectionMonotone(t: Transaction, small: seq<Transaction>, large: seq<Transaction>)
    requires IsDuplicate(t, small) && forall x :: x in small ==> x in large
    ensures IsDuplicate(t, large)
  {
    if IdIn(t.id, small) {
      var i :| 0 <= i < |small| && small[i].id == t.id;
      assert small[i] in large;
      var j :| 0 <= j < |large| && large[j] == small[i];
      assert large[j].id == t.id;
    } else {
      var c := FirstLike(t, small).value;
      assert c in large;
      var j :| 0 <= j < |large| && large[j] == c;
      assert LooksLike(large[j], t);
    }
  }

  /** Importing is idempotent: once the new rows are recorded, in whatever order, importing the same file again
      finds nothing new. Repeated ids within the file do not matter. */
  lemma {:induction false} ImportIdempotent(provider: string, portfolioId: string, parsed: ParseResult,
                                           existing: seq<Transaction>, later: seq<Transaction>,
                                           asOf: Instant, again: Instant)
    requires forall x :: x in existing ==> x in later
    requires forall x :: x in BuildReport(provider, portfolioId, parsed, existing, asOf).imported ==> x in later
    ensures BuildReport(provider, portfolioId, parsed, later, again).imported == []
  {
    var rows := parsed.transactions;
    var r2 := BuildReport(provider, portfolioId, parsed, later, again);
    assert r2.imported != [] ==> r2.imported[0] in r2.imported && r2.imported[0] in rows;
    forall t | t in rows
      ensures t !in r2.imported
    {
      NewRows(rows, existing, t);
      NewRows(rows, later, t);
      if u :| u in rows && u.id == t.id && IsDuplicate(u, existing) {
        DetectionMonotone(u, existing, later);
      } else {
        assert t in later;
        var j :| 0 <= j < |later| && later[j] == t;
        assert IdIn(t.id, later);
      }
    }
  }

  /** What is reported as new carries no id that is already recorded. */
  lemma {:induction false} NewIdsAreNew(provider: string, portfolioId: string, parsed: ParseResult,
      existing: seq<Transaction>, asOf: Instant)
    ensures forall t :: t in BuildReport(provider, portfolioId, parsed, existing, asOf).imported ==>
      t in parsed.transactions && !IdIn(t.id, existing)
  {
    var r := BuildReport(provider, portfolioId, parsed, existing, asOf);
    forall t | t in r.imported
      ensures t in parsed.transactions && !IdIn(t.id, existing)
    {
      NewRows(parsed.transactions, existing, t);
    }
  }
}
