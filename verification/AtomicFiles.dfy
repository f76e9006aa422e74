/** repositories/yaml_portfolio_writer.py: one portfolio file, its `.bak` and its `.tmp`,
    written so that a crash at any moment leaves the file whole. */
module AtomicFiles {
  import opened Models
  import opened Sequences
  import opened Wrappers
  import opened YamlLog

  /** The contents of the target, the backup and the temporary file; `None` when there is no such file. */
  datatype Files = Files(target: Option<string>, backup: Option<string>, temp: Option<string>)

  /** Where a write is cut short. A write in progress has put down the first `written` characters. */
  datatype Crash =
    | Never
    | BeforeAnything
    | InBackup(written: nat)
    | AfterBackup
    | InTemp(written: nat)
    | BeforeReplace
    | AfterReplace

  function Prefix(content: string, n: nat): (p: string)
    ensures p <= content && |p| == if n < |content| then n else |content|
  {
    if n < |content| then content[..n] else content
  }

  /** The replacement took place; a crash inside the backup step needs a file to back up. */
  predicate Commits(existed: bool, crash: Crash) {
    match crash
    case Never | AfterReplace => true
    case InBackup(_) | AfterBackup => !existed
    case _ => false
  }

  /** Every way in which `_write_atomically` can leave the three files. */
  predicate WriteOutcome(before: Files, content: string, crash: Crash, after: Files) {
    var existed := before.target.Some?;
    var backedUp := if existed then before.target else before.backup;
    match crash
    case BeforeAnything => after == before
    case InBackup(n) =>
      if existed then after == before.(backup := Some(Prefix(before.target.value, n)))
      else after == Files(Some(content), backedUp, None)
    case AfterBackup =>
      if existed then after == before.(backup := backedUp) else after == Files(Some(content), backedUp, None)
    case InTemp(n) => after == Files(before.target, backedUp, Some(Prefix(content, n)))
    case BeforeReplace => after == Files(before.target, backedUp, Some(content))
    case AfterReplace => after == Files(Some(content), backedUp, None)
    case Never => after == Files(Some(content), backedUp, None)
  }

  /** The text written for these entries is read back as them. */
  predicate RoundTrips(dump: seq<Entry> -> string, load: string -> seq<Entry>, es: seq<Entry>) {
    load(dump(es)) == es
  }

  datatype CreateError = AlreadyExists

  class PortfolioFile {
    var target: Option<string>
    var backup: Option<string>
    var temp: Option<string>

    /** `yaml.safe_dump` and `yaml.safe_load` on lists of entries. */
    const dump: seq<Entry> -> string
    const load: string -> seq<Entry>

    /** What the file would hold after a batch is appended survives being written and read. */
    predicate KeepsAppended(txns: seq<Transaction>)
      reads this
    {
      RoundTrips(dump, load, Entries() + EntriesOf(txns))
    }

    function State(): Files
      reads this
    {
      Files(target, backup, temp)
    }

    constructor (dump: seq<Entry> -> string, load: string -> seq<Entry>)
      ensures State() == Files(None, None, None) && this.dump == dump && this.load == load
    {
      this.dump, this.load := dump, load;
      target, backup, temp := None, None, None;
    }

    /** `_write_atomically` */
    method WriteAtomically(content: string, crash: Crash)
      modifies this
      ensures WriteOutcome(old(State()), content, crash, State())
      ensures target == if Commits(old(target.Some?), crash) then Some(content) else old(target)
      ensures crash.Never? ==> temp.None?
      ensures crash.Never? ==> backup == if old(target).Some? then old(target) else old(backup)
    {
      if crash.BeforeAnything? {
        return;
      }
      if target.Some? {
        if crash.InBackup? {
          backup := Some(Prefix(target.value, crash.written));
          return;
        }
        backup := Some(target.value);
        if crash.AfterBackup? {
          return;
        }
      }
      if crash.InTemp? {
        temp := Some(Prefix(content, crash.written));
        return;
      }
      temp := Some(content);
      if crash.BeforeReplace? {
        return;
      }
      target, temp := temp, None;
    }

    function Entries(): seq<Entry>
      reads this
    {
      StoredEntries(load, State())
    }

    /** `_append_transactions_sync`: the batch ends up in the file entirely or not at all. */
    method AppendTransactions(txns: seq<Transaction>, crash: Crash)
      requires KeepsAppended(txns)
      modifies this
      ensures AppendOutcome(dump, load, old(State()), txns, crash, State())
      ensures Entries()
        == if Commits(old(target.Some?), crash) then old(Entries()) + EntriesOf(txns) else old(Entries())
    {
      var existing: seq<Entry> := [];
      if target.Some? {
        existing := load(target.value);
      }
      var entries := BatchEntries(existing, txns);
      WriteAtomically(dump(entries), crash);
    }

    /** `_create_portfolio_sync` refuses to touch a file that is there. */
    method CreateOnce(content: string, crash: Crash) returns (r: Result<(), CreateError>)
      modifies this
      ensures r.Failure? <==> old(target).Some?
      ensures r.Failure? ==> State() == old(State())
      ensures r.Success? ==> WriteOutcome(old(State()), content, crash, State())
    {
      if target.Some? {
        return Failure(AlreadyExists);
      }
      WriteAtomically(content, crash);
      r := Success(());
    }
  }

  function StoredEntries(load: string -> seq<Entry>, f: Files): seq<Entry> {
    if f.target.Some? then load(f.target.value) else []
  }

  ghost predicate AppendOutcome(dump: seq<Entry> -> string, load: string -> seq<Entry>, before: Files,
                                txns: seq<Transaction>, crash: Crash, after: Files)
  {
    WriteOutcome(before, dump(StoredEntries(load, before) + EntriesOf(txns)), crash, after)
  }

  // ---------- crash safety of one write ----------

  /** Whatever the crash, the target is entirely the old content or entirely the new one, and which of the two is
      decided by the replacement alone. */
  lemma {:induction false} TargetIsWhole(before: Files, content: string, crash: Crash, after: Files)
    requires WriteOutcome(before, content, crash, after)
    ensures after.target == before.target || after.target == Some(content)
    ensures after.target == if Commits(before.target.Some?, crash) then Some(content) else before.target
  {}

  /** Once the file has been replaced, the backup is the content it had before; only a crash inside the backup step
      itself leaves a backup that is neither this nor the older one, and then the target is untouched. */
  lemma {:induction false} BackupIsPrior(before: Files, content: string, crash: Crash, after: Files)
    requires WriteOutcome(before, content, crash, after) && before.target.Some?
    ensures Commits(true, crash) ==> after.backup == before.target && after.temp.None?
    ensures after.backup == before.target || after.backup == before.backup
      || (crash.InBackup? && after.target == before.target)
    ensures after.backup != before.backup ==> after.backup == before.target || crash.InBackup?
  {}

  /** Only the temporary file ever holds a part of the new content. */
  lemma {:induction false} OnlyTempIsPartial(before: Files, content: string, crash: Crash, after: Files)
    requires WriteOutcome(before, content, crash, after)
    ensures after.temp == before.temp || after.temp == None || (after.temp.Some? && after.temp.value <= content)
    ensures after.temp != before.temp && after.temp.Some? ==> after.target == before.target
  {}

  // ---------- runs of interrupted appends ----------

  datatype Attempt = Attempt(batch: seq<Transaction>, crash: Crash)

  /** `states` is a run of `attempts`, each possibly cut short. */
  ghost predicate IsRun(dump: seq<Entry> -> string, load: string -> seq<Entry>, attempts: seq<Attempt>,
      states: seq<Files>) {
    && |states| == |attempts| + 1
    && forall i :: 0 <= i < |attempts| ==>
      AppendOutcome(dump, load, states[i], attempts[i].batch, attempts[i].crash, states[i + 1])
  }

  /** The entries of the batches that were committed, in order. */
  function Committed(attempts: seq<Attempt>, states: seq<Files>): seq<Entry>
    requires |states| == |attempts| + 1
  {
    if attempts == [] then [] else
    var n := |attempts| - 1;
    Committed(attempts[..n], states[..n + 1])
      + (if Commits(states[n].target.Some?, attempts[n].crash) then EntriesOf(attempts[n].batch) else [])
  }

  /** Every content that the run sets out to write survives being written and read. */
  predicate WritesRoundTrip(dump: seq<Entry> -> string, load: string -> seq<Entry>, attempts: seq<Attempt>,
      states: seq<Files>)
    requires |states| == |attempts| + 1
  {
    forall i :: 0 <= i < |attempts| ==>
      RoundTrips(dump, load, StoredEntries(load, states[i]) + EntriesOf(attempts[i].batch))
  }

  /** One attempt adds its whole batch or nothing. */
  lemma {:induction false} AttemptIsWhole(dump: seq<Entry> -> string, load: string -> seq<Entry>, before: Files,
      a: Attempt, after: Files)
    requires RoundTrips(dump, load, StoredEntries(load, before) + EntriesOf(a.batch))
    requires AppendOutcome(dump, load, before, a.batch, a.crash, after)
    ensures StoredEntries(load, after) == StoredEntries(load, before)
      + (if Commits(before.target.Some?, a.crash) then EntriesOf(a.batch) else [])
  {
    TargetIsWhole(before, dump(StoredEntries(load, before) + EntriesOf(a.batch)), a.crash, after);
  }

  lemma {:induction false} RunPrefix(dump: seq<Entry> -> string, load: string -> seq<Entry>,
      attempts: seq<Attempt>, states: seq<Files>)
    requires IsRun(dump, load, attempts, states) && attempts != []
    ensures IsRun(dump, load, attempts[..|attempts| - 1], states[..|attempts|])
  {
    var a, s := attempts[..|attempts| - 1], states[..|attempts|];
    forall i | 0 <= i < |a| ensures AppendOutcome(dump, load, s[i], a[i].batch, a[i].crash, s[i + 1]) {
      assert AppendOutcome(dump, load, states[i], attempts[i].batch, attempts[i].crash, states[i + 1]);
    }
  }

  /** Over any run of interrupted appends the file holds its starting entries followed by whole batches. */
  lemma {:induction false} RunKeepsWholeBatches(dump: seq<Entry> -> string, load: string -> seq<Entry>,
                                               attempts: seq<Attempt>, states: seq<Files>)
    requires IsRun(dump, load, attempts, states) && WritesRoundTrip(dump, load, attempts, states)
    ensures StoredEntries(load, states[|attempts|]) == StoredEntries(load, states[0]) + Committed(attempts, states)
  {
    if attempts != [] {
      var n := |attempts| - 1;
      RunPrefix(dump, load, attempts, states);
      RunKeepsWholeBatches(dump, load, attempts[..n], states[..n + 1]);
      AttemptIsWhole(dump, load, states[n], attempts[n], states[n + 1]);
      Reassociate(StoredEntries(load, states[0]), Committed(attempts[..n], states[..n + 1]),
                  if Commits(states[n].target.Some?, attempts[n].crash) then EntriesOf(attempts[n].batch) else []);
    }
  }

  // ---------- the backup over such runs ----------

  predicate WholeBackup(backup: Option<string>, states: seq<Files>) {
    exists i :: 0 <= i < |states| && states[i].target.Some? && backup == states[i].target
  }

  ghost predicate CutBackup(f: Files) {
    f.target.Some? && exists n: nat :: f.backup == Some(Prefix(f.target.value, n))
  }

  /** The backup is what it was at the start, or a whole content that the file had, or the beginning of its present
      one. */
  ghost predicate BackupIsAccountedFor(states: seq<Files>)
    requires states != []
  {
    var f := states[|states| - 1];
    f.backup == states[0].backup || WholeBackup(f.backup, states) || CutBackup(f)
  }

  lemma {:induction false} AttemptKeepsBackup(past: seq<Files>, content: string, crash: Crash, after: Files)
    requires past != [] && BackupIsAccountedFor(past) && WriteOutcome(past[|past| - 1], content, crash, after)
    ensures BackupIsAccountedFor(past + [after])
  {
    var before := past[|past| - 1];
    var all := past + [after];
    if WholeBackup(before.backup, past) {
      var i :| 0 <= i < |past| && past[i].target.Some? && before.backup == past[i].target;
      assert all[i] == past[i];
    }
    if before.target.Some? {
      assert all[|past| - 1] == before;
    }
  }

  /** Over any run of interrupted appends the backup is never anything else. */
  lemma {:induction false} RunAccountsForBackup(dump: seq<Entry> -> string, load: string -> seq<Entry>,
                                               attempts: seq<Attempt>, states: seq<Files>)
    requires IsRun(dump, load, attempts, states)
    ensures BackupIsAccountedFor(states)
  {
    if attempts != [] {
      var n := |attempts| - 1;
      RunPrefix(dump, load, attempts, states);
      RunAccountsForBackup(dump, load, attempts[..n], states[..n + 1]);
      assert AppendOutcome(dump, load, states[n], attempts[n].batch, attempts[n].crash, states[n + 1]);
      AttemptKeepsBackup(states[..n + 1], dump(StoredEntries(load, states[n]) + EntriesOf(attempts[n].batch)),
                         attempts[n].crash, states[n + 1]);
      assert states[..n + 1] + [states[n + 1]] == states;
    }
  }
}
