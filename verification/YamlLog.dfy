/** repositories/yaml_portfolio_writer.py and repositories/yaml_repository.py: the
    entries of transactions.yaml, written and read back. */
module YamlLog {
  import opened Models
  import opened Sorting
  import opened Wrappers

  /** The ISO text of a date, which may lack an offset. */
  datatype DateText = Aware(instant: Instant) | Naive(wall: int)

  /** One mapping of transactions.yaml; a key that is absent is `None`. */
  datatype Entry = Entry(
    id: Option<string>,
    kind: Option<string>,
    date: Option<DateText>,
    currency: Option<string>,
    amount: Option<real>,
    symbol: Option<string>,
    shares: Option<real>,
    price: Option<real>,
    notes: Option<string>)

  function TypeName(k: TransactionType): string {
    match k
    case Buy => "buy"
    case Sell => "sell"
    case Dividend => "dividend"
    case Deposit => "deposit"
    case Withdrawal => "withdrawal"
    case Fee => "fee"
    case TransferIn => "transfer_in"
    case TransferOut => "transfer_out"
  }

  /** `TransactionType(value)` */
  function TypeOf(name: string): Option<TransactionType> {
    if name == "buy" then Some(Buy)
    else if name == "sell" then Some(Sell)
    else if name == "dividend" then Some(Dividend)
    else if name == "deposit" then Some(Deposit)
    else if name == "withdrawal" then Some(Withdrawal)
    else if name == "fee" then Some(Fee)
    else if name == "transfer_in" then Some(TransferIn)
    else if name == "transfer_out" then Some(TransferOut)
    else None
  }

  // ---------- writing ----------

  /** `_transaction_to_yaml_dict`: the portfolio id is not written, and optional keys only when they have a value. */
  function EntryOf(t: Transaction): Entry {
    Entry(Some(t.id), Some(TypeName(t.kind)), Some(Aware(t.date)), Some(t.currency), Some(t.amount),
          t.symbol, t.shares, t.price, t.notes)
  }

  method TransactionToEntry(t: Transaction) returns (data: Entry)
    ensures data == EntryOf(t)
  {
    data := Entry(Some(t.id), Some(TypeName(t.kind)), Some(Aware(t.date)), Some(t.currency), Some(t.amount),
                  None, None, None, None);
    if t.symbol.Some? {
      data := data.(symbol := Some(t.symbol.value));
    }
    if t.shares.Some? {
      data := data.(shares := Some(t.shares.value));
    }
    if t.price.Some? {
      data := data.(price := Some(t.price.value));
    }
    if t.notes.Some? {
      data := data.(notes := Some(t.notes.value));
    }
  }

  function EntriesOf(txns: seq<Transaction>): seq<Entry> {
    if txns == [] then [] else EntriesOf(txns[..|txns| - 1]) + [EntryOf(txns[|txns| - 1])]
  }

  /** The entries of a batch, as `_append_transactions_sync` puts them behind the existing ones. */
  method BatchEntries(existing: seq<Entry>, txns: seq<Transaction>) returns (entries: seq<Entry>)
    ensures entries == existing + EntriesOf(txns)
  {
    var added := [];
    for i := 0 to |txns|
      invariant added == EntriesOf(txns[..i])
    {
      assert txns[..i + 1][..i] == txns[..i];
      var data := TransactionToEntry(txns[i]);
      added := added + [data];
    }
    assert txns[..|txns|] == txns;
    entries := existing + added;
  }

  // ---------- reading ----------

  datatype LoadError = DuplicateId(id: string) | MissingKey | UnknownType | Refused

  /** `_parse_date`: a date without an offset is taken as UTC. */
  function ParseDate(d: DateText): Instant {
    match d
    case Aware(t) => t
    case Naive(wall) => wall
  }

  /** The entry's own id, or a generated one when it has none. */
  function IdOf(e: Entry, generated: string): string {
    if e.id.Some? && e.id.value != "" then e.id.value else generated
  }

  /** The `Transaction` that one entry becomes, or the error it raises. */
  function ParseEntry(e: Entry, id: string, portfolioId: string): (r: Result<Transaction, LoadError>)
    ensures r.Success? ==> ValidTransaction(r.value) && r.value.id == id && r.value.portfolioId == portfolioId
  {
    if e.kind.None? || e.date.None? || e.currency.None? || e.amount.None? then
      if e.kind.Some? && TypeOf(e.kind.value).None? then Failure(UnknownType) else Failure(MissingKey)
    else match TypeOf(e.kind.value)
      case None => Failure(UnknownType)
      case Some(k) =>
        var t := Transaction(id, portfolioId, k, ParseDate(e.date.value), e.currency.value, e.amount.value,
                             e.symbol, e.shares, e.price, e.notes);
        if ValidTransaction(t) then Success(t) else Failure(Refused)
  }

  /** What is required of an entry, what the transaction takes from it, and which error is raised otherwise. */
  lemma {:induction false} ParseEntryMeaning(e: Entry, id: string, portfolioId: string)
    ensures var r := ParseEntry(e, id, portfolioId);
      && (r == Failure(UnknownType) <==> e.kind.Some? && TypeOf(e.kind.value).None?)
      && (r == Failure(MissingKey) <==>
        (e.kind.None? || (TypeOf(e.kind.value).Some? && (e.date.None? || e.currency.None? || e.amount.None?))))
      && (r.Success? ==>
        && e.kind == Some(TypeName(r.value.kind)) && e.currency == Some(r.value.currency)
        && e.amount == Some(r.value.amount) && e.symbol == r.value.symbol && e.shares == r.value.shares
        && e.price == r.value.price && e.notes == r.value.notes)
  {}

  /** A date without an offset is read as the same wall time in UTC. */
  lemma {:induction false} NaiveIsUtc(e: Entry, wall: int, id: string, portfolioId: string)
    requires e.date == Some(Naive(wall))
    ensures ParseEntry(e, id, portfolioId) == ParseEntry(e.(date := Some(Aware(wall))), id, portfolioId)
    ensures ParseEntry(e, id, portfolioId).Success? ==> ParseEntry(e, id, portfolioId).value.date == wall
  {}

  /** An entry without an id, or with an empty one, is read under a generated id. */
  lemma {:induction false} MissingIdIsGenerated(e: Entry, generated: string)
    ensures e.id.None? || e.id == Some("") ==> IdOf(e, generated) == generated
    ensures e.id.Some? && e.id.value != "" ==> IdOf(e, generated) == e.id.value
  {}

  /** The names under which the types are stored. */
  lemma {:induction false} StoredNames()
    ensures TypeOf("buy") == Some(Buy) && TypeOf("sell") == Some(Sell) && TypeOf("dividend") == Some(Dividend)
    ensures TypeOf("deposit") == Some(Deposit) && TypeOf("withdrawal") == Some(Withdrawal) && TypeOf("fee") == Some(Fee)
    ensures TypeOf("transfer_in") == Some(TransferIn) && TypeOf("transfer_out") == Some(TransferOut)
  {}

  /** Entry by entry, in file order; `uuid(i)` is the id generated for the i-th entry. */
  function ParseAll(entries: seq<Entry>, portfolioId: string, uuid: nat -> string): (r: Result<seq<Transaction>,
      LoadError>)
    ensures r.Success? ==> |r.value| == |entries|
  {
    if entries == [] then Success([]) else
    var n := |entries| - 1;
    var id := IdOf(entries[n], uuid(n));
    match ParseAll(entries[..n], portfolioId, uuid)
    case Failure(e) => Failure(e)
    case Success(ts) =>
      if IdIn(id, ts) then Failure(DuplicateId(id)) else
      match ParseEntry(entries[n], id, portfolioId)
      case Failure(e) => Failure(e)
      case Success(t) => Success(ts + [t])
  }

  function Load(entries: seq<Entry>, portfolioId: string, uuid: nat -> string): Result<seq<Transaction>, LoadError> {
    match ParseAll(entries, portfolioId, uuid)
    case Failure(e) => Failure(e)
    case Success(ts) => Success(StableSort(ByDate(), ts))
  }

  /** An error on a prefix is the error of the whole. */
  lemma {:induction false} FirstErrorWins(entries: seq<Entry>, k: nat, portfolioId: string, uuid: nat -> string)
    requires k <= |entries| && ParseAll(entries[..k], portfolioId, uuid).Failure?
    ensures ParseAll(entries, portfolioId, uuid) == ParseAll(entries[..k], portfolioId, uuid)
    decreases |entries|
  {
    if k < |entries| {
      var d := entries[..|entries| - 1];
      assert d[..k] == entries[..k];
      FirstErrorWins(d, k, portfolioId, uuid);
    } else {
      assert entries[..k] == entries;
    }
  }

  /** `_load_transactions` */
  method LoadTransactions(entries: seq<Entry>, portfolioId: string, uuid: nat -> string)
    returns (r: Result<seq<Transaction>, LoadError>)
    ensures r == Load(entries, portfolioId, uuid)
  {
    var seenIds: set<string> := {};
    var transactions: seq<Transaction> := [];
    var i := 0;
    while i < |entries|
      invariant 0 <= i <= |entries|
      invariant ParseAll(entries[..i], portfolioId, uuid) == Success(transactions)
      invariant forall id :: id in seenIds <==> IdIn(id, transactions)
    {
      var entry := entries[i];
      var id := IdOf(entry, uuid(i));
      assert entries[..i + 1][..i] == entries[..i];
      if id in seenIds {
        FirstErrorWins(entries, i + 1, portfolioId, uuid);
        return Failure(DuplicateId(id));
      }
      seenIds := seenIds + {id};
      var parsed := ParseEntry(entry, id, portfolioId);
      if parsed.Failure? {
        FirstErrorWins(entries, i + 1, portfolioId, uuid);
        return Failure(parsed.error);
      }
      IdsAfterAppend(transactions, parsed.value);
      transactions := transactions + [parsed.value];
      i := i + 1;
    }
    assert entries[..i] == entries;
    r := Success(StableSort(ByDate(), transactions));
  }

  lemma {:induction false} IdsAfterAppend(ts: seq<Transaction>, t: Transaction)
    ensures forall id :: IdIn(id, ts + [t]) <==> IdIn(id, ts) || id == t.id
  {
    forall id
      ensures IdIn(id, ts + [t]) <==> IdIn(id, ts) || id == t.id
    {
      if IdIn(id, ts) {
        var i :| 0 <= i < |ts| && ts[i].id == id;
        assert (ts + [t])[i].id == id;
      }
      assert (ts + [t])[|ts|] == t;
    }
  }

  // ---------- what reading accepts ----------

  /** Which transaction the i-th entry stands for. */
  function EntryParse(entries: seq<Entry>, i: nat, portfolioId: string, uuid: nat -> string): Result<Transaction,
      LoadError>
    requires i < |entries|
  {
    ParseEntry(entries[i], IdOf(entries[i], uuid(i)), portfolioId)
  }

  /** `ts` is what the entries say: one transaction per entry, in order, and no id twice. */
  ghost predicate Reads(entries: seq<Entry>, ts: seq<Transaction>, portfolioId: string, uuid: nat -> string) {
    && |ts| == |entries|
    && DistinctIds(ts)
    && forall i :: 0 <= i < |entries| ==> EntryParse(entries, i, portfolioId, uuid) == Success(ts[i])
  }

  lemma {:induction false} ReadsPrefix(entries: seq<Entry>, ts: seq<Transaction>, portfolioId: string,
      uuid: nat -> string)
    requires entries != [] && Reads(entries, ts, portfolioId, uuid)
    ensures Reads(entries[..|entries| - 1], ts[..|ts| - 1], portfolioId, uuid)
  {
    var d := entries[..|entries| - 1];
    forall i | 0 <= i < |d| ensures EntryParse(d, i, portfolioId, uuid) == Success(ts[..|ts| - 1][i]) {
      assert EntryParse(entries, i, portfolioId, uuid) == Success(ts[i]);
    }
  }

  lemma {:induction false} ReadsExtend(entries: seq<Entry>, d: seq<Transaction>, t: Transaction,
      portfolioId: string, uuid: nat -> string)
    requires entries != [] && Reads(entries[..|entries| - 1], d, portfolioId, uuid)
    requires EntryParse(entries, |entries| - 1, portfolioId, uuid) == Success(t) && !IdIn(t.id, d)
    ensures Reads(entries, d + [t], portfolioId, uuid)
  {
    var n := |entries| - 1;
    forall i | 0 <= i < n ensures EntryParse(entries, i, portfolioId, uuid) == Success(d[i]) {
      assert EntryParse(entries[..n], i, portfolioId, uuid) == Success(d[i]);
    }
  }

  lemma {:induction false} AcceptedReads(entries: seq<Entry>, ts: seq<Transaction>, portfolioId: string,
      uuid: nat -> string)
    requires ParseAll(entries, portfolioId, uuid) == Success(ts)
    ensures Reads(entries, ts, portfolioId, uuid)
  {
    if entries != [] {
      var n := |entries| - 1;
      AcceptedReads(entries[..n], ParseAll(entries[..n], portfolioId, uuid).value, portfolioId, uuid);
      ReadsExtend(entries, ParseAll(entries[..n], portfolioId, uuid).value, ts[n], portfolioId, uuid);
    }
  }

  lemma {:induction false} ReadsAccepted(entries: seq<Entry>, ts: seq<Transaction>, portfolioId: string,
      uuid: nat -> string)
    requires Reads(entries, ts, portfolioId, uuid)
    ensures ParseAll(entries, portfolioId, uuid) == Success(ts)
  {
    if entries != [] {
      var n := |entries| - 1;
      ReadsPrefix(entries, ts, portfolioId, uuid);
      ReadsAccepted(entries[..n], ts[..n], portfolioId, uuid);
      assert EntryParse(entries, n, portfolioId, uuid) == Success(ts[n]);
      assert !IdIn(ts[n].id, ts[..n]);
      assert ts[..n] + [ts[n]] == ts;
    }
  }

  /** The reader accepts a file exactly when every entry is sound by itself and no id occurs twice; it then has every
      transaction once, in file order, and nothing else. */
  lemma {:induction false} ReaderAccepts(entries: seq<Entry>, ts: seq<Transaction>, portfolioId: string,
      uuid: nat -> string)
    ensures ParseAll(entries, portfolioId, uuid) == Success(ts) <==> Reads(entries, ts, portfolioId, uuid)
  {
    if ParseAll(entries, portfolioId, uuid) == Success(ts) {
      AcceptedReads(entries, ts, portfolioId, uuid);
    }
    if Reads(entries, ts, portfolioId, uuid) {
      ReadsAccepted(entries, ts, portfolioId, uuid);
    }
  }

  lemma {:induction false} TypeNamesRoundTrip(k: TransactionType)
    ensures TypeOf(TypeName(k)) == Some(k)
  {}

  /** What is written for a transaction reads back as that transaction. */
  lemma {:induction false} EntryRoundTrip(t: Transaction, generated: string)
    requires ValidTransaction(t)
    ensures IdOf(EntryOf(t), generated) == t.id
    ensures ParseEntry(EntryOf(t), t.id, t.portfolioId) == Success(t)
  {
    TypeNamesRoundTrip(t.kind);
  }

  lemma {:induction false} ReadsAppended(entries: seq<Entry>, stored: seq<Transaction>, txns: seq<Transaction>,
                                        portfolioId: string, uuid: nat -> string)
    requires Reads(entries, stored, portfolioId, uuid)
    requires ValidLog(txns) && forall i :: 0 <= i < |txns| ==> txns[i].portfolioId == portfolioId
    requires DistinctIds(stored + txns)
    ensures Reads(entries + EntriesOf(txns), stored + txns, portfolioId, uuid)
  {
    EntriesOfIndex(txns);
    var written, all := entries + EntriesOf(txns), stored + txns;
    forall i | 0 <= i < |written| ensures EntryParse(written, i, portfolioId, uuid) == Success(all[i]) {
      if i < |entries| {
        assert EntryParse(entries, i, portfolioId, uuid) == Success(stored[i]);
      } else {
        EntryRoundTrip(txns[i - |entries|], uuid(i));
      }
    }
  }

  /** Reading after appending gives the stable date sort of the old transactions followed by the new ones, every field
      intact, although the portfolio id and the empty optional fields are not on disk. */
  lemma {:induction false} AppendThenLoad(entries: seq<Entry>, stored: seq<Transaction>, txns: seq<Transaction>,
                                         portfolioId: string, uuid: nat -> string)
    requires ParseAll(entries, portfolioId, uuid) == Success(stored)
    requires ValidLog(txns) && forall i :: 0 <= i < |txns| ==> txns[i].portfolioId == portfolioId
    requires DistinctIds(stored + txns)
    ensures Load(entries + EntriesOf(txns), portfolioId, uuid) == Success(StableSort(ByDate(), stored + txns))
  {
    ReaderAccepts(entries, stored, portfolioId, uuid);
    ReadsAppended(entries, stored, txns, portfolioId, uuid);
    ReaderAccepts(entries + EntriesOf(txns), stored + txns, portfolioId, uuid);
  }

  /** Appending an id that is already there makes the whole file unreadable. */
  lemma {:induction false} AppendedDuplicateRejects(entries: seq<Entry>, stored: seq<Transaction>,
      txns: seq<Transaction>,
                                                   portfolioId: string, uuid: nat -> string)
    requires ParseAll(entries, portfolioId, uuid) == Success(stored)
    requires ValidLog(txns) && !DistinctIds(stored + txns)
    ensures Load(entries + EntriesOf(txns), portfolioId, uuid).Failure?
  {
    var written := entries + EntriesOf(txns);
    var parsed := ParseAll(written, portfolioId, uuid);
    if parsed.Success? {
      ReaderAccepts(entries, stored, portfolioId, uuid);
      ReaderAccepts(written, parsed.value, portfolioId, uuid);
      SameIdsRead(entries, stored, txns, parsed.value, portfolioId, uuid);
    }
  }

  /** The id that is read for an entry is the one that was stored or written there. */
  lemma {:induction false} SameIdRead(entries: seq<Entry>, stored: seq<Transaction>, txns: seq<Transaction>,
      ts: seq<Transaction>, portfolioId: string, uuid: nat -> string, k: nat)
    requires Reads(entries, stored, portfolioId, uuid) && ValidLog(txns)
    requires Reads(entries + EntriesOf(txns), ts, portfolioId, uuid)
    requires k < |ts| == |stored + txns|
    ensures ts[k].id == (stored + txns)[k].id
  {
    EntriesOfIndex(txns);
    assert EntryParse(entries + EntriesOf(txns), k, portfolioId, uuid) == Success(ts[k]);
    if k < |stored| {
      assert EntryParse(entries, k, portfolioId, uuid) == Success(stored[k]);
    } else {
      EntryRoundTrip(txns[k - |stored|], uuid(k));
    }
  }

  lemma {:induction false} SameIdsRead(entries: seq<Entry>, stored: seq<Transaction>, txns: seq<Transaction>,
      ts: seq<Transaction>, portfolioId: string, uuid: nat -> string)
    requires Reads(entries, stored, portfolioId, uuid) && ValidLog(txns)
    requires Reads(entries + EntriesOf(txns), ts, portfolioId, uuid)
    ensures DistinctIds(stored + txns)
  {
    EntriesOfIndex(txns);
    var all := stored + txns;
    forall k | 0 <= k < |all| ensures ts[k].id == all[k].id {
      SameIdRead(entries, stored, txns, ts, portfolioId, uuid, k);
    }
  }

  lemma {:induction false} EntriesOfIndex(txns: seq<Transaction>)
    ensures |EntriesOf(txns)| == |txns|
    ensures forall i :: 0 <= i < |txns| ==> EntriesOf(txns)[i] == EntryOf(txns[i])
  {
    if txns != [] {
      EntriesOfIndex(txns[..|txns| - 1]);
    }
  }
}
