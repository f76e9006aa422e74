/** The two-step import of custom_components/portfolio_engine/services.py: build and keep a
    report, later append its new rows to the file. Between the two the coordinator's cached
    view of the log may or may not be refreshed. */
module ImportProtocol {
  import opened AtomicFiles
  import opened ImportReports
  import opened Models
  import opened Wrappers
  import opened YamlLog

  /** import_report_store.py: the pending report of every portfolio. */
  class ImportReportStore {
    var data: map<string, ImportReport>

    constructor ()
      ensures data == map[]
    {
      data := map[];
    }

    method GetLastReport(portfolioId: string) returns (r: Option<ImportReport>)
      ensures r == if portfolioId in data then Some(data[portfolioId]) else None
    {
      r := if portfolioId in data then Some(data[portfolioId]) else None;
    }

    method SaveReport(report: ImportReport)
      modifies this
      ensures data == old(data)[report.portfolioId := report]
    {
      data := data[report.portfolioId := report];
    }

    method ClearReport(portfolioId: string)
      modifies this
      ensures data == old(data) - {portfolioId}
    {
      data := data - {portfolioId};
    }
  }

  // ---------- the protocol on values ----------

  /** One portfolio: the entries of its file, the log as the coordinator last read it, and the pending report. */
  datatype State = State(entries: seq<Entry>, view: seq<Transaction>, pending: Option<ImportReport>)

  datatype ApplyOutcome =
    | WriteFails               // the append is not committed
    | StopsAfterAppend         // committed, but the report is not cleared
    | Completes

  datatype Event =
    | Import(provider: string, parsed: ParseResult, asOf: Instant)
    | Apply(outcome: ApplyOutcome)
    | Refresh

  /** A refresh reads the file again; if the reader rejects it the old view stays. */
  function Refreshed(s: State, portfolioId: string, uuid: nat -> string): State {
    match Load(s.entries, portfolioId, uuid)
    case Success(log) => s.(view := log)
    case Failure(_) => s
  }

  function After(s: State, e: Event, portfolioId: string, uuid: nat -> string): State {
    match e
    case Import(provider, parsed, asOf) => s.(pending := Some(BuildReport(provider, portfolioId, parsed, s.view, asOf)))
    case Apply(outcome) =>
      if s.pending.None? || outcome.WriteFails? then s
      else
        var appended := s.(entries := s.entries + EntriesOf(s.pending.value.imported));
        if outcome.StopsAfterAppend? then appended else appended.(pending := None)
    case Refresh => Refreshed(s, portfolioId, uuid)
  }

  // ---------- the handlers ----------

  datatype ApplyError = NoPendingReport | CouldNotWrite

  /** What a crash inside the write means for the apply that asked for it. */
  function OutcomeOf(existed: bool, crash: Crash): ApplyOutcome {
    if !Commits(existed, crash) then WriteFails
    else if crash.AfterReplace? then StopsAfterAppend
    else Completes
  }

  /** What a handler works on. */
  class ImportService {
    const portfolioId: string
    const uuid: nat -> string
    const store: ImportReportStore
    const file: PortfolioFile
    var view: seq<Transaction>

    constructor (portfolioId: string, uuid: nat -> string, store: ImportReportStore,
        file: PortfolioFile, view: seq<Transaction>)
      ensures this.portfolioId == portfolioId && this.uuid == uuid && this.store == store && this.file == file
      ensures this.view == view
    {
      this.portfolioId, this.uuid, this.store, this.file, this.view := portfolioId, uuid, store, file, view;
    }

    function Current(): State
      reads this, store, file
    {
      State(file.Entries(), view, if portfolioId in store.data then Some(store.data[portfolioId]) else None)
    }

    /** `coordinator.async_request_refresh`, when it takes place. */
    method RefreshView()
      modifies this
      ensures Current() == After(old(Current()), Refresh, portfolioId, uuid)
    {
      var loaded := LoadTransactions(file.Entries(), portfolioId, uuid);
      if loaded.Success? {
        view := loaded.value;
      }
    }

    /** `_async_import_transactions`; the refresh it requests may be postponed. */
    method ImportTransactions(provider: string, parsed: ParseResult, asOf: Instant, refreshNow: bool)
      returns (report: ImportReport)
      modifies this, store
      ensures var saved := After(old(Current()), Import(provider, parsed, asOf), portfolioId, uuid);
        Current() == if refreshNow then After(saved, Refresh, portfolioId, uuid) else saved
      ensures Some(report) == Current().pending
      ensures store.data == old(store.data)[portfolioId := report]
    {
      report := BuildReport(provider, portfolioId, parsed, view, asOf);
      store.SaveReport(report);
      if refreshNow {
        RefreshView();
      }
    }

    /** `_async_apply_import`, with a write that may be cut short; only the report's new rows are ever written. */
    method ApplyImport(crash: Crash, refreshNow: bool) returns (r: Result<nat, ApplyError>)
      requires portfolioId in store.data ==> file.KeepsAppended(store.data[portfolioId].imported)
      modifies this, store, file
      ensures var outcome := OutcomeOf(old(file.target).Some?, crash);
        var applied := After(old(Current()), Apply(outcome), portfolioId, uuid);
        Current() == if refreshNow && r.Success? && outcome.Completes?
                     then After(applied, Refresh, portfolioId, uuid)
                     else applied
      ensures r == if old(Current()).pending.None? then Failure(NoPendingReport)
                   else if OutcomeOf(old(file.target).Some?, crash).WriteFails? then Failure(CouldNotWrite)
                   else Success(|old(Current()).pending.value.imported|)
      ensures store.data == old(store.data) || store.data == old(store.data) - {portfolioId}
    {
      var report := store.GetLastReport(portfolioId);
      if report.None? {
        return Failure(NoPendingReport);
      }
      var rows := report.value.imported;
      var outcome := OutcomeOf(file.target.Some?, crash);
      file.AppendTransactions(rows, crash);
      if outcome.WriteFails? {
        return Failure(CouldNotWrite);
      }
      r := Success(|rows|);
      if outcome.StopsAfterAppend? {
        return;
      }
      store.ClearReport(portfolioId);
      if refreshNow {
        RefreshView();
      }
    }
  }
}
