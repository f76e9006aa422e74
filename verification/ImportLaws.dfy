/** What every run of the import protocol keeps, and exactly when a run breaks the log. */
module ImportLaws {
  import opened AtomicFiles
  import opened ImportProtocol
  import opened ImportReports
  import opened Models
  import opened Sequences
  import opened Sorting
  import opened Wrappers
  import opened YamlLog

  /** Where the protocol runs: the portfolio, and the ids the reader generates for entries without one. */
  datatype Site = Site(portfolioId: string, uuid: nat -> string)

  /** The reader does not reject the file. */
  predicate Readable(s: State, site: Site) {
    ParseAll(s.entries, site.portfolioId, site.uuid).Success?
  }

  /** The transactions in the file, in file order. */
  function Stored(s: State, site: Site): seq<Transaction>
    requires Readable(s, site)
  {
    ParseAll(s.entries, site.portfolioId, site.uuid).value
  }

  /** Sound transactions of this portfolio with distinct ids, as one file is parsed into. */
  predicate SoundRows(rows: seq<Transaction>, site: Site) {
    && ValidLog(rows)
    && (forall i :: 0 <= i < |rows| ==> rows[i].portfolioId == site.portfolioId)
    && DistinctIds(rows)
  }

  predicate Disjoint(rows: seq<Transaction>, log: seq<Transaction>) {
    forall t :: t in rows ==> !IdIn(t.id, log)
  }

  /** The invariant: the file is readable, and the pending rows can be appended to it. */
  predicate Inv(s: State, site: Site) {
    && Readable(s, site)
    && (s.pending.Some? ==>
      SoundRows(s.pending.value.imported, site) && Disjoint(s.pending.value.imported, Stored(s, site)))
  }

  /** The cached view is what a read of the file would return now. */
  predicate Fresh(s: State, site: Site) {
    Readable(s, site) && s.view == StableSort(ByDate(), Stored(s, site))
  }

  lemma {:induction false} StoredIdsDistinct(s: State, site: Site)
    requires Readable(s, site)
    ensures DistinctIds(Stored(s, site))
  {
    ReaderAccepts(s.entries, Stored(s, site), site.portfolioId, site.uuid);
  }

  lemma {:induction false} FilterKeepsSound(p: Transaction -> bool, rows: seq<Transaction>, site: Site)
    requires SoundRows(rows, site)
    ensures SoundRows(Filter(p, rows), site)
  {
    if rows != [] {
      var d, t := rows[..|rows| - 1], rows[|rows| - 1];
      FilterKeepsSound(p, d, site);
      forall u | u in Filter(p, d) ensures u.id != t.id {
        var i :| 0 <= i < |d| && d[i] == u;
        assert rows[i].id != rows[|rows| - 1].id;
      }
    }
  }

  lemma {:induction false} AppendKeepsDistinct(log: seq<Transaction>, rows: seq<Transaction>)
    requires DistinctIds(log) && DistinctIds(rows) && Disjoint(rows, log)
    ensures DistinctIds(log + rows)
  {
    var all := log + rows;
    forall i, j | 0 <= i < j < |all| ensures all[i].id != all[j].id {
      if i < |log| <= j {
        assert all[j] in rows;
        assert log[i].id == all[i].id;
      }
    }
  }

  /** What a fresh view reports as new is parsed, and none of it is in the file. */
  lemma {:induction false} NewRowsAreNew(s: State, site: Site, provider: string, parsed: ParseResult, asOf: Instant)
    requires Fresh(s, site)
    ensures var rows := BuildReport(provider, site.portfolioId, parsed, s.view, asOf).imported;
      Disjoint(rows, Stored(s, site)) && forall t :: t in rows ==> t in parsed.transactions
  {
    NewIdsAreNew(provider, site.portfolioId, parsed, s.view, asOf);
    forall t | t in BuildReport(provider, site.portfolioId, parsed, s.view, asOf).imported
      ensures !IdIn(t.id, Stored(s, site))
    {
      SortKeepsIds(Stored(s, site), t.id);
    }
  }

  /** A report built from a fresh view can be appended. */
  lemma {:induction false} FreshImportIsSound(s: State, site: Site, provider: string, parsed: ParseResult,
      asOf: Instant)
    requires Fresh(s, site) && SoundRows(parsed.transactions, site)
    ensures Inv(After(s, Import(provider, parsed, asOf), site.portfolioId, site.uuid), site)
  {
    var r := BuildReport(provider, site.portfolioId, parsed, s.view, asOf);
    NewRowsAreNew(s, site, provider, parsed, asOf);
    FilterKeepsSound(NotMatched(r.duplicates), parsed.transactions, site);
  }

  lemma {:induction false} SortKeepsIds(log: seq<Transaction>, id: string)
    ensures IdIn(id, StableSort(ByDate(), log)) <==> IdIn(id, log)
  {
    var sorted := StableSort(ByDate(), log);
    StableSortPermutes(ByDate(), log);
    if IdIn(id, log) {
      var i :| 0 <= i < |log| && log[i].id == id;
      assert log[i] in sorted;
      var j :| 0 <= j < |sorted| && sorted[j] == log[i];
      assert sorted[j].id == id;
    }
    if IdIn(id, sorted) {
      var i :| 0 <= i < |sorted| && sorted[i].id == id;
      assert sorted[i] in log;
      var j :| 0 <= j < |log| && log[j] == sorted[i];
      assert log[j].id == id;
    }
  }

  /** After rows are appended the file is readable exactly when all ids, old and new, are distinct; it then holds the
      old transactions followed by the new ones. */
  lemma {:induction false} AppendReadableIff(s: State, site: Site, rows: seq<Transaction>)
    requires Readable(s, site) && ValidLog(rows)
      && forall i :: 0 <= i < |rows| ==> rows[i].portfolioId == site.portfolioId
    ensures var after := s.(entries := s.entries + EntriesOf(rows));
      && (Readable(after, site) <==> DistinctIds(Stored(s, site) + rows))
      && (Readable(after, site) ==> Stored(after, site) == Stored(s, site) + rows)
  {
    var stored := Stored(s, site);
    if DistinctIds(stored + rows) {
      ReaderAccepts(s.entries, stored, site.portfolioId, site.uuid);
      ReadsAppended(s.entries, stored, rows, site.portfolioId, site.uuid);
      ReaderAccepts(s.entries + EntriesOf(rows), stored + rows, site.portfolioId, site.uuid);
    } else {
      AppendedDuplicateRejects(s.entries, stored, rows, site.portfolioId, site.uuid);
    }
  }

  // ---------- what each step does ----------

  /** An import changes nothing but the pending report, whose new rows are parsed rows. */
  lemma {:induction false} ImportOnlyPends(s: State, site: Site, provider: string, parsed: ParseResult, asOf: Instant)
    ensures var after := After(s, Import(provider, parsed, asOf), site.portfolioId, site.uuid);
      && after.entries == s.entries && after.view == s.view && after.pending.Some?
      && (forall t :: t in after.pending.value.imported ==> t in parsed.transactions && !IdIn(t.id, s.view))
  {
    NewIdsAreNew(provider, site.portfolioId, parsed, s.view, asOf);
  }

  /** An apply appends the new rows of the pending report and nothing else, and drops the report unless it stops
      before; the cached view stays. */
  lemma {:induction false} ApplyEffects(s: State, site: Site)
    requires s.pending.Some?
    ensures var done := After(s, Apply(Completes), site.portfolioId, site.uuid);
      done == State(s.entries + EntriesOf(s.pending.value.imported), s.view, None)
    ensures After(s, Apply(StopsAfterAppend), site.portfolioId, site.uuid)
      == After(s, Apply(Completes), site.portfolioId, site.uuid).(pending := s.pending)
  {}

  /** A write that fails changes nothing, so that applying again does what the first attempt should have done. */
  lemma {:induction false} FailedWriteRetries(s: State, site: Site)
    ensures After(s, Apply(WriteFails), site.portfolioId, site.uuid) == s
    ensures var failed := After(s, Apply(WriteFails), site.portfolioId, site.uuid);
      After(failed, Apply(Completes), site.portfolioId, site.uuid)
      == After(s, Apply(Completes), site.portfolioId, site.uuid)
  {}

  /** A refresh shows the file as it is read, or, when the reader refuses it, leaves everything as it was. */
  lemma {:induction false} RefreshMeaning(s: State, site: Site)
    ensures var after := After(s, Refresh, site.portfolioId, site.uuid);
      && (Readable(s, site) ==> after == s.(view := StableSort(ByDate(), Stored(s, site))))
      && (!Readable(s, site) ==> after == s)
  {}

  /** What a crash inside the write means for the apply: it fails exactly when the file still has its old content,
      and a crash between the replacement and the clearing leaves the report. */
  lemma {:induction false} OutcomeMeaning(before: Files, content: string, crash: Crash, after: Files)
    requires WriteOutcome(before, content, crash, after)
    ensures OutcomeOf(before.target.Some?, crash).WriteFails? ==> after.target == before.target
    ensures !OutcomeOf(before.target.Some?, crash).WriteFails? ==> after.target == Some(content)
    ensures OutcomeOf(before.target.Some?, crash).StopsAfterAppend? <==> crash.AfterReplace?
    ensures crash.Never? ==> OutcomeOf(before.target.Some?, crash).Completes?
  {}

  // ---------- what every disciplined run keeps ----------

  /** One step that keeps the invariant: an import needs a fresh view, and an apply must not stop between
      appending and clearing. */
  predicate SafeEvent(s: State, e: Event, site: Site) {
    match e
    case Import(_, parsed, _) => Fresh(s, site) && SoundRows(parsed.transactions, site)
    case Apply(outcome) => !outcome.StopsAfterAppend?
    case Refresh => true
  }

  lemma {:induction false} SafeStep(s: State, e: Event, site: Site)
    requires Inv(s, site) && SafeEvent(s, e, site)
    ensures var after := After(s, e, site.portfolioId, site.uuid);
      && Inv(after, site)
      && s.entries <= after.entries && Stored(s, site) <= Stored(after, site)
  {
    match e
    case Import(provider, parsed, asOf) =>
      FreshImportIsSound(s, site, provider, parsed, asOf);
    case Apply(outcome) =>
      if s.pending.Some? && outcome.Completes? {
        var rows := s.pending.value.imported;
        StoredIdsDistinct(s, site);
        AppendKeepsDistinct(Stored(s, site), rows);
        AppendReadableIff(s, site, rows);
      }
    case Refresh =>
  }

  /** The events of one run, oldest first. */
  function Run(s: State, events: seq<Event>, site: Site): State {
    if events == [] then s
    else After(Run(s, events[..|events| - 1], site), events[|events| - 1], site.portfolioId, site.uuid)
  }

  /** Whether a refresh has followed every completed apply. */
  function UpToDate(events: seq<Event>): bool {
    if events == [] then true else
    match events[|events| - 1]
    case Refresh => true
    case Apply(outcome) => outcome.WriteFails? && UpToDate(events[..|events| - 1])
    case Import(_, _, _) => UpToDate(events[..|events| - 1])
  }

  /** The discipline that callers have to keep: parsed ids are distinct, a completed apply is followed by a refresh
      before the next import, and no apply stops between appending and clearing. */
  predicate Disciplined(events: seq<Event>, site: Site) {
    events != [] ==>
      var past := events[..|events| - 1];
      && Disciplined(past, site)
      && match events[|events| - 1]
         case Import(_, parsed, _) => UpToDate(past) && SoundRows(parsed.transactions, site)
         case Apply(outcome) => !outcome.StopsAfterAppend?
         case Refresh => true
  }

  lemma {:induction false} RefreshMakesFresh(s: State, site: Site)
    requires Readable(s, site)
    ensures Fresh(After(s, Refresh, site.portfolioId, site.uuid), site)
  {}

  /** In every state a disciplined run reaches, the reader accepts the file, its ids are distinct, the pending
      rows are disjoint from it, and everything stored before is still there, in place. */
  lemma {:induction false} DisciplinedRun(s: State, events: seq<Event>, site: Site)
    requires Inv(s, site) && Fresh(s, site) && Disciplined(events, site)
    ensures var end := Run(s, events, site);
      && Inv(end, site) && DistinctIds(Stored(end, site))
      && s.entries <= end.entries && Stored(s, site) <= Stored(end, site)
      && (UpToDate(events) ==> Fresh(end, site))
  {
    if events == [] {
      StoredIdsDistinct(s, site);
    } else {
      var past, e := events[..|events| - 1], events[|events| - 1];
      DisciplinedRun(s, past, site);
      var mid := Run(s, past, site);
      SafeStep(mid, e, site);
      StoredIdsDistinct(After(mid, e, site.portfolioId, site.uuid), site);
      if e.Refresh? {
        RefreshMakesFresh(mid, site);
      }
    }
  }

  /** An earlier state of a disciplined run is a prefix of every later one, entry by entry and as it is read. */
  lemma {:induction false} LogOnlyGrows(s: State, events: seq<Event>, k: nat, site: Site)
    requires Inv(s, site) && Fresh(s, site) && Disciplined(events, site) && k <= |events|
    ensures Disciplined(events[..k], site)
    ensures Run(s, events[..k], site).entries <= Run(s, events, site).entries
    ensures Inv(Run(s, events[..k], site), site) && Inv(Run(s, events, site), site)
    ensures Stored(Run(s, events[..k], site), site) <= Stored(Run(s, events, site), site)
    decreases |events|
  {
    DisciplinedRun(s, events, site);
    if k == |events| {
      assert events[..k] == events;
    } else {
      var past, e := events[..|events| - 1], events[|events| - 1];
      LogOnlyGrows(s, past, k, site);
      assert past[..k] == events[..k];
      DisciplinedRun(s, past, site);
      SafeStep(Run(s, past, site), e, site);
    }
  }

  /** An entry without an id gets a new one whenever it is read. Whatever ids two readings generate, what the first one
      sees is where it was for the second, the same in every field but such an id. */
  lemma {:induction false} EntriesReadAlike(earlier: seq<Entry>, later: seq<Entry>, portfolioId: string,
      uuid: nat -> string, other: nat -> string)
    requires earlier <= later
    requires ParseAll(earlier, portfolioId, uuid).Success? && ParseAll(later, portfolioId, other).Success?
    ensures var a, b := ParseAll(earlier, portfolioId, uuid).value, ParseAll(later, portfolioId, other).value;
      |a| <= |b| && forall i :: 0 <= i < |a| ==> ReadsAlike(earlier[i], a[i], b[i])
  {
    var a, b := ParseAll(earlier, portfolioId, uuid).value, ParseAll(later, portfolioId, other).value;
    ReaderAccepts(earlier, a, portfolioId, uuid);
    ReaderAccepts(later, b, portfolioId, other);
    forall i | 0 <= i < |a| ensures ReadsAlike(earlier[i], a[i], b[i]) {
      assert EntryParse(earlier, i, portfolioId, uuid) == Success(a[i]);
      assert EntryParse(later, i, portfolioId, other) == Success(b[i]);
    }
  }

  predicate ReadsAlike(e: Entry, t: Transaction, u: Transaction) {
    u == t.(id := u.id) && (e.id.Some? && e.id.value != "" ==> t.id == u.id == e.id.value)
  }

  // ---------- importing the same file again ----------

  /** A completed apply stores the pending rows behind what was stored. */
  lemma {:induction false} AppliedStored(s: State, site: Site)
    requires Inv(s, site) && s.pending.Some?
    ensures var applied := After(s, Apply(Completes), site.portfolioId, site.uuid);
      Readable(applied, site) && Stored(applied, site) == Stored(s, site) + s.pending.value.imported
  {
    StoredIdsDistinct(s, site);
    AppendKeepsDistinct(Stored(s, site), s.pending.value.imported);
    AppendReadableIff(s, site, s.pending.value.imported);
  }

  /** After an apply and a refresh the view shows what was stored and what was pending. */
  lemma {:induction false} ViewAfterApply(s: State, site: Site)
    requires Inv(s, site) && s.pending.Some?
    ensures var applied := After(s, Apply(Completes), site.portfolioId, site.uuid);
      var view := After(applied, Refresh, site.portfolioId, site.uuid).view;
      forall t :: t in view <==> t in Stored(s, site) || t in s.pending.value.imported
  {
    AppliedStored(s, site);
    RefreshMakesFresh(After(s, Apply(Completes), site.portfolioId, site.uuid), site);
    StableSortPermutes(ByDate(), Stored(s, site) + s.pending.value.imported);
  }

  /** Import, apply, refresh, and import the same rows again: nothing is new. */
  lemma {:induction false} ReimportFindsNothing(s: State, site: Site, provider: string, parsed: ParseResult,
      asOf: Instant, again: Instant)
    requires Inv(s, site) && Fresh(s, site) && SoundRows(parsed.transactions, site)
    ensures var end := Run(s,
      [Import(provider, parsed, asOf), Apply(Completes), Refresh, Import(provider, parsed, again)], site);
      end.pending.Some? && end.pending.value.imported == []
  {
    var s1 := After(s, Import(provider, parsed, asOf), site.portfolioId, site.uuid);
    var s2 := After(s1, Apply(Completes), site.portfolioId, site.uuid);
    var s3 := After(s2, Refresh, site.portfolioId, site.uuid);
    FreshImportIsSound(s, site, provider, parsed, asOf);
    ViewAfterApply(s1, site);
    StableSortPermutes(ByDate(), Stored(s, site));
    ImportIdempotent(provider, site.portfolioId, parsed, s.view, s3.view, asOf, again);
    FourSteps(s, Import(provider, parsed, asOf), Apply(Completes), Refresh, Import(provider, parsed, again), site);
  }

  lemma {:induction false} FourSteps(s: State, a: Event, b: Event, c: Event, d: Event, site: Site)
    ensures var id, uuid := site.portfolioId, site.uuid;
      Run(s, [a, b, c, d], site) == After(After(After(After(s, a, id, uuid), b, id, uuid), c, id, uuid), d, id, uuid)
  {
    assert [a, b, c, d][..3] == [a, b, c] && [a, b, c][..2] == [a, b] && [a, b][..1] == [a] && [a][..0] == [];
    assert Run(s, [a], site) == After(s, a, site.portfolioId, site.uuid);
    assert Run(s, [a, b], site) == After(Run(s, [a], site), b, site.portfolioId, site.uuid);
    assert Run(s, [a, b, c], site) == After(Run(s, [a, b], site), c, site.portfolioId, site.uuid);
  }

  // ---------- exactly when the discipline matters ----------

  /** Rows appended a second time break the file, unless there were none. */
  lemma {:induction false} SecondAppendBreaks(s: State, site: Site, rows: seq<Transaction>)
    requires Readable(s, site) && SoundRows(rows, site)
    requires DistinctIds(Stored(s, site) + rows)
    ensures Readable(s.(entries := s.entries + EntriesOf(rows) + EntriesOf(rows)), site) <==> rows == []
  {
    var once := s.(entries := s.entries + EntriesOf(rows));
    AppendReadableIff(s, site, rows);
    AppendReadableIff(once, site, rows);
    var all := Stored(s, site) + rows + rows;
    if rows == [] {
      assert all == Stored(s, site) + rows;
    } else {
      var n := |Stored(s, site)|;
      assert all[n] == rows[0] && all[n + |rows|] == rows[0];
    }
  }

  /** A crash after the append and before the report is cleared leaves the report pending; applying it again makes
      the file unreadable, unless the report had nothing new. */
  lemma {:induction false} RetryAfterCrash(s: State, site: Site)
    requires Inv(s, site) && s.pending.Some?
    ensures var crashed := After(s, Apply(StopsAfterAppend), site.portfolioId, site.uuid);
      && Readable(crashed, site) && crashed.pending == s.pending
      && (Readable(After(crashed, Apply(Completes), site.portfolioId, site.uuid), site) <==>
        s.pending.value.imported == [])
  {
    var rows := s.pending.value.imported;
    StoredIdsDistinct(s, site);
    AppendKeepsDistinct(Stored(s, site), rows);
    AppendReadableIff(s, site, rows);
    SecondAppendBreaks(s, site, rows);
    var crashed := After(s, Apply(StopsAfterAppend), site.portfolioId, site.uuid);
    var twice := s.(entries := s.entries + EntriesOf(rows) + EntriesOf(rows));
    assert After(crashed, Apply(Completes), site.portfolioId, site.uuid) == twice.(pending := None);
    assert Readable(twice.(pending := None), site) == Readable(twice, site);
  }

  /** Without the refresh in between, importing the same file again and applying it makes the file unreadable,
      unless the file had nothing new the first time. */
  lemma {:induction false} StaleViewBreaks(s: State, site: Site, provider: string, parsed: ParseResult, asOf: Instant)
    requires Inv(s, site) && Fresh(s, site) && SoundRows(parsed.transactions, site)
    ensures var i := Import(provider, parsed, asOf);
      Readable(Run(s, [i, Apply(Completes), i, Apply(Completes)], site), site)
      <==> BuildReport(provider, site.portfolioId, parsed, s.view, asOf).imported == []
  {
    var id, uuid := site.portfolioId, site.uuid;
    var i := Import(provider, parsed, asOf);
    var s1 := After(s, i, id, uuid);
    var rows := s1.pending.value.imported;
    FreshImportIsSound(s, site, provider, parsed, asOf);
    StoredIdsDistinct(s, site);
    AppendKeepsDistinct(Stored(s, site), rows);
    SecondAppendBreaks(s, site, rows);
    FourSteps(s, i, Apply(Completes), i, Apply(Completes), site);
    var s2 := After(s1, Apply(Completes), id, uuid);
    assert s2.view == s.view;
    var end := Run(s, [i, Apply(Completes), i, Apply(Completes)], site);
    assert end.entries == s.entries + EntriesOf(rows) + EntriesOf(rows);
  }

  /** The discipline also asks for distinct parsed ids: from a fresh view, importing rows of this portfolio and
      applying the report leaves the file readable exactly when the new rows have distinct ids. */
  lemma {:induction false} RepeatedIdsBreak(s: State, site: Site, provider: string, parsed: ParseResult, asOf: Instant)
    requires Fresh(s, site) && ValidLog(parsed.transactions)
    requires forall i :: 0 <= i < |parsed.transactions| ==> parsed.transactions[i].portfolioId == site.portfolioId
    ensures Readable(Run(s, [Import(provider, parsed, asOf), Apply(Completes)], site), site)
      <==> DistinctIds(BuildReport(provider, site.portfolioId, parsed, s.view, asOf).imported)
  {
    var rows := BuildReport(provider, site.portfolioId, parsed, s.view, asOf).imported;
    NewRowsAreNew(s, site, provider, parsed, asOf);
    forall i | 0 <= i < |rows| ensures ValidTransaction(rows[i]) && rows[i].portfolioId == site.portfolioId {
      assert rows[i] in rows;
    }
    StoredIdsDistinct(s, site);
    AppendReadableIff(s, site, rows);
    if DistinctIds(rows) {
      AppendKeepsDistinct(Stored(s, site), rows);
    } else {
      RepeatedIdStays(Stored(s, site), rows);
    }
    TwoSteps(s, Import(provider, parsed, asOf), Apply(Completes), site);
    assert Run(s, [Import(provider, parsed, asOf), Apply(Completes)], site).entries == s.entries + EntriesOf(rows);
  }

  lemma {:induction false} RepeatedIdStays(log: seq<Transaction>, rows: seq<Transaction>)
    requires !DistinctIds(rows)
    ensures !DistinctIds(log + rows)
  {
    var i, j :| 0 <= i < j < |rows| && rows[i].id == rows[j].id;
    assert (log + rows)[|log| + i].id == (log + rows)[|log| + j].id;
  }

  lemma {:induction false} TwoSteps(s: State, a: Event, b: Event, site: Site)
    ensures Run(s, [a, b], site) == After(After(s, a, site.portfolioId, site.uuid), b, site.portfolioId, site.uuid)
  {
    assert [a, b][..1] == [a] && [a][..0] == [];
    assert Run(s, [a], site) == After(s, a, site.portfolioId, site.uuid);
  }

  /** It happens: a row listed twice, as equal rows without an id are, is reported new twice, and applying that report
      makes the file unreadable. */
  lemma {:induction false} RowTwiceBreaks(s: State, site: Site, provider: string, t: Transaction, asOf: Instant)
    requires Fresh(s, site) && ValidTransaction(t) && t.portfolioId == site.portfolioId && !IsDuplicate(t, s.view)
    ensures !Readable(Run(s, [Import(provider, ParseResult([t, t], [], []), asOf), Apply(Completes)], site), site)
  {
    var parsed := ParseResult([t, t], [], []);
    NewRowTwice(provider, site.portfolioId, t, s.view, asOf);
    assert [t, t][0].id == [t, t][1].id;
    RepeatedIdsBreak(s, site, provider, parsed, asOf);
  }

  lemma {:induction false} NewRowTwice(provider: string, portfolioId: string, t: Transaction,
      existing: seq<Transaction>, asOf: Instant)
    requires !IsDuplicate(t, existing)
    ensures BuildReport(provider, portfolioId, ParseResult([t, t], [], []), existing, asOf).imported == [t, t]
  {
    MatchedIds([t, t], existing, t.id);
    FilterAll(NotMatched(Duplicates([t, t], existing)), [t, t]);
  }
}
