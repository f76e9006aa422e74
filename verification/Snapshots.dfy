/** engine/snapshot_policy.py, repositories/in_memory_snapshot_repository.py and the snapshot
    part of update_logic.py: at most one snapshot a day, whatever fails. */
module Snapshots {
  import opened Models
  import opened Sorting
  import opened Wrappers

  type Store = map<string, seq<Snapshot>>

  function Held(store: Store, portfolioId: string): seq<Snapshot> {
    if portfolioId in store then store[portfolioId] else []
  }

  function ById(): Snapshot -> int { (s: Snapshot) => s.id }

  /** Sorted by timestamp and, within a timestamp, by id. */
  function Chronology(held: seq<Snapshot>): seq<Snapshot> {
    StableSort(ByTimestamp(), StableSort(ById(), held))
  }

  predicate InReadingOrder(s: seq<Snapshot>) {
    forall i, j :: 0 <= i < j < |s| ==> ReadBefore(s[i], s[j])
  }

  /** By timestamp and, within a timestamp, by id. */
  predicate ReadBefore(x: Snapshot, y: Snapshot) {
    x.timestamp < y.timestamp || (x.timestamp == y.timestamp && x.id <= y.id)
  }

  predicate HasId(held: seq<Snapshot>, id: nat) {
    exists i :: 0 <= i < |held| && held[i].id == id
  }

  datatype AppendError = DuplicateSnapshotId

  class InMemorySnapshotRepository {
    var snapshots: Store

    constructor ()
      ensures snapshots == map[]
    {
      snapshots := map[];
    }

    /** What is held for the portfolio, by timestamp and then by id. */
    method GetSnapshots(portfolioId: string) returns (r: seq<Snapshot>)
      ensures multiset(r) == multiset(Held(snapshots, portfolioId)) && InReadingOrder(r)
      ensures r == Chronology(Held(snapshots, portfolioId))
    {
      ReadInOrder(Held(snapshots, portfolioId));
      r := Chronology(Held(snapshots, portfolioId));
    }

    /** Append-only; a known id is refused. Asking for a portfolio creates its empty list. */
    method AppendSnapshot(s: Snapshot) returns (r: Result<(), AppendError>)
      modifies this
      ensures r.Failure? <==> HasId(Held(old(snapshots), s.portfolioId), s.id)
      ensures snapshots == Appended(old(snapshots), s)
    {
      if s.portfolioId !in snapshots {
        snapshots := snapshots[s.portfolioId := []];
      }
      if HasId(snapshots[s.portfolioId], s.id) {
        return Failure(DuplicateSnapshotId);
      }
      snapshots := snapshots[s.portfolioId := snapshots[s.portfolioId] + [s]];
      r := Success(());
    }
  }

  function Appended(store: Store, s: Snapshot): Store {
    var held := Held(store, s.portfolioId);
    store[s.portfolioId := if HasId(held, s.id) then held else held + [s]]
  }

  /** `should_create_snapshot` */
  predicate ShouldCreate(existing: seq<Snapshot>, now: Instant) {
    !exists i :: 0 <= i < |existing| && DateOf(existing[i].timestamp) == DateOf(now)
  }

  /** What the engine computed this time. */
  datatype Summary = Summary(totalValue: real, cashBalance: real, totalInvested: real)

  function HoldingSnapshotOf(p: Position): HoldingSnapshot {
    HoldingSnapshot(p.holding.symbol, p.holding.shares, p.marketValueBase)
  }

  /** `build_snapshot`; `None` stands for the errors that the record constructors raise. */
  function BuildSnapshot(portfolioId: string, baseCurrency: string, summary: Summary, positions: seq<Position>,
                         id: nat, now: Instant): (r: Option<Snapshot>)
    ensures r.Some? ==> ValidSnapshot(r.value) && forall h :: h in r.value.holdings ==> ValidHoldingSnapshot(h)
    ensures r.Some? ==>
      && r.value.portfolioId == portfolioId && r.value.id == id && r.value.timestamp == now
      && r.value.portfolioValue == summary.totalValue && r.value.cashBalance == summary.cashBalance
      && r.value.invested == summary.totalInvested && r.value.baseCurrency == baseCurrency
      && |r.value.holdings| == |positions|
      && forall i :: 0 <= i < |positions| ==>
        var p, h := positions[i], r.value.holdings[i];
        h == HoldingSnapshot(p.holding.symbol, p.holding.shares, p.marketValueBase)
    ensures r.Some? <==>
      && portfolioId != "" && baseCurrency != ""
      && summary.totalValue >= 0.0 && summary.cashBalance >= 0.0 && summary.totalInvested >= 0.0
      && forall i :: 0 <= i < |positions| ==>
        positions[i].holding.symbol != "" && positions[i].holding.shares >= 0.0 && positions[i].marketValueBase >= 0.0
  {
    var holdings := seq(|positions|, i requires 0 <= i < |positions| => HoldingSnapshotOf(positions[i]));
    var s := Snapshot(id, portfolioId, now, summary.totalValue, summary.cashBalance,
      summary.totalInvested, baseCurrency, holdings);
    assert forall i :: 0 <= i < |positions| ==>
      holdings[i] == HoldingSnapshotOf(positions[i]) && holdings[i] in holdings;
    if ValidSnapshot(s) && forall h :: h in holdings ==> ValidHoldingSnapshot(h) then Some(s) else None
  }

  datatype WriteOutcome = Written | NotWritten | WrittenThenFails

  /** One refresh, with what the storage does to it. */
  datatype Tick = Tick(
    portfolioId: string, baseCurrency: string, summary: Summary, positions: seq<Position>,
    id: nat, now: Instant, readFails: bool, write: WriteOutcome)

  datatype TickResult = TickResult(created: bool, snapshots: seq<Snapshot>, failed: bool)

  function Built(t: Tick): Option<Snapshot> {
    BuildSnapshot(t.portfolioId, t.baseCurrency, t.summary, t.positions, t.id, t.now)
  }

  /** The tick gets as far as handing a snapshot to a storage that takes it. */
  predicate Stores(store: Store, t: Tick) {
    && !t.readFails && !t.write.NotWritten?
    && ShouldCreate(Held(store, t.portfolioId), t.now) && Built(t).Some?
  }

  function AfterTick(store: Store, t: Tick): Store {
    if Stores(store, t) then Appended(store, Built(t).value) else store
  }

  /** When a refresh stores a snapshot, namely its own at the end of its portfolio: the read succeeded, no stored
      snapshot has today's date or this id, the figures make a record, and the storage took it. Otherwise nothing
      changes. */
  lemma {:induction false} TickStoresIff(store: Store, t: Tick)
    ensures var before, after := Held(store, t.portfolioId), Held(AfterTick(store, t), t.portfolioId);
      && (after != before <==>
        !t.readFails && !t.write.NotWritten? && Built(t).Some?
        && forall s :: s in before ==> DateOf(s.timestamp) != DateOf(t.now) && s.id != t.id)
      && (after != before ==> Built(t).Some? && after == before + [Built(t).value])
  {
    var before := Held(store, t.portfolioId);
    assert (forall s :: s in before ==> DateOf(s.timestamp) != DateOf(t.now)) <==> ShouldCreate(before, t.now);
    assert (forall s :: s in before ==> s.id != t.id) <==> !HasId(before, t.id);
  }

  lemma {:induction false} ChronologySameElements(held: seq<Snapshot>)
    ensures multiset(Chronology(held)) == multiset(held)
    ensures forall s :: s in Chronology(held) <==> s in held
  {
    StableSortPermutes(ById(), held);
    StableSortPermutes(ByTimestamp(), StableSort(ById(), held));
  }

  lemma {:induction false} ShouldCreateAnyOrder(held: seq<Snapshot>, now: Instant)
    ensures ShouldCreate(Chronology(held), now) <==> ShouldCreate(held, now)
  {
    ChronologySameElements(held);
    var c := Chronology(held);
    if !ShouldCreate(c, now) {
      var i :| 0 <= i < |c| && DateOf(c[i].timestamp) == DateOf(now);
      assert c[i] in held;
      var j :| 0 <= j < |held| && held[j] == c[i];
      assert DateOf(held[j].timestamp) == DateOf(now);
    }
    if !ShouldCreate(held, now) {
      var i :| 0 <= i < |held| && DateOf(held[i].timestamp) == DateOf(now);
      assert held[i] in c;
      var j :| 0 <= j < |c| && c[j] == held[i];
      assert DateOf(c[j].timestamp) == DateOf(now);
    }
  }

  /** `async_fetch_portfolio_data`, from the snapshot read onwards. */
  method CollectSnapshot(repository: InMemorySnapshotRepository, t: Tick) returns (r: TickResult)
    modifies repository
    ensures repository.snapshots == AfterTick(old(repository.snapshots), t)
    ensures r.created <==>
      Stores(old(repository.snapshots), t) && t.write.Written?
        && !HasId(Held(old(repository.snapshots), t.portfolioId), t.id)
    ensures r.failed <==>
      t.readFails || (ShouldCreate(Held(old(repository.snapshots), t.portfolioId), t.now) && !r.created)
    ensures r.created ==> r.snapshots == Chronology(Held(old(repository.snapshots), t.portfolioId)) + [Built(t).value]
    ensures t.readFails ==> r == TickResult(false, [], true)
    ensures !t.readFails && !r.created ==> r.snapshots == Chronology(Held(old(repository.snapshots), t.portfolioId))
  {
    var existing: seq<Snapshot> := [];
    var failed := false;
    if t.readFails {
      failed := true;
    } else {
      existing := repository.GetSnapshots(t.portfolioId);
      ShouldCreateAnyOrder(Held(repository.snapshots, t.portfolioId), t.now);
    }
    var created := false;
    var all := existing;
    if !failed && ShouldCreate(existing, t.now) {
      var snapshot := Built(t);
      if snapshot.None? || t.write.NotWritten? {
        failed := true;
      } else {
        var appended := repository.AppendSnapshot(snapshot.value);
        if appended.Failure? || t.write.WrittenThenFails? {
          failed := true;
        } else {
          created := true;
          all := existing + [snapshot.value];
        }
      }
    }
    r := TickResult(created, all, failed);
  }

  // ---------- what every run keeps ----------

  predicate OnePerDate(held: seq<Snapshot>) {
    forall i, j :: 0 <= i < j < |held| ==> DateOf(held[i].timestamp) != DateOf(held[j].timestamp)
  }

  predicate UniqueIds(held: seq<Snapshot>) {
    forall i, j :: 0 <= i < j < |held| ==> held[i].id != held[j].id
  }

  function RunTicks(store: Store, ticks: seq<Tick>): Store {
    if ticks == [] then store
    else AfterTick(RunTicks(store, ticks[..|ticks| - 1]), ticks[|ticks| - 1])
  }

  /** Over any run of refreshes, for any portfolios, with arbitrary read and write failures: what a portfolio held
      stays, in place and unchanged; it keeps at most one snapshot per date; and its ids stay unique. */
  lemma {:induction false} RunKeepsSnapshots(store: Store, ticks: seq<Tick>, p: string)
    requires OnePerDate(Held(store, p)) && UniqueIds(Held(store, p))
    ensures var held := Held(RunTicks(store, ticks), p);
      Held(store, p) <= held && OnePerDate(held) && UniqueIds(held)
  {
    if ticks != [] {
      var past, t := ticks[..|ticks| - 1], ticks[|ticks| - 1];
      RunKeepsSnapshots(store, past, p);
      TickKeepsSnapshots(RunTicks(store, past), t, p);
    }
  }

  lemma {:induction false} TickKeepsSnapshots(store: Store, t: Tick, p: string)
    requires OnePerDate(Held(store, p)) && UniqueIds(Held(store, p))
    ensures var held := Held(AfterTick(store, t), p);
      && Held(store, p) <= held && OnePerDate(held) && UniqueIds(held)
      && (p != t.portfolioId ==> held == Held(store, p))
  {
    var held := Held(store, p);
    if Stores(store, t) && p == t.portfolioId && !HasId(held, t.id) {
      var s := Built(t).value;
      assert Held(AfterTick(store, t), p) == held + [s];
    }
  }

  function OnDate(held: seq<Snapshot>, date: int): nat {
    if held == [] then 0
    else OnDate(held[..|held| - 1], date) + (if DateOf(held[|held| - 1].timestamp) == date then 1 else 0)
  }

  lemma {:induction false} OnDateNone(held: seq<Snapshot>, now: Instant)
    ensures OnDate(held, DateOf(now)) == 0 <==> ShouldCreate(held, now)
  {
    if held != [] {
      var d, s := held[..|held| - 1], held[|held| - 1];
      OnDateNone(d, now);
      if !ShouldCreate(d, now) {
        var i :| 0 <= i < |d| && DateOf(d[i].timestamp) == DateOf(now);
        assert held[i] == d[i];
      }
      if i :| 0 <= i < |held| && DateOf(held[i].timestamp) == DateOf(now) && i < |d| {
        assert d[i] == held[i];
      }
    }
  }

  lemma {:induction false} OnDateAtMostOne(held: seq<Snapshot>, now: Instant)
    requires OnePerDate(held)
    ensures OnDate(held, DateOf(now)) <= 1
  {
    if held != [] {
      var d, s := held[..|held| - 1], held[|held| - 1];
      OnDateAtMostOne(d, now);
      if DateOf(s.timestamp) == DateOf(now) {
        forall i | 0 <= i < |d| ensures DateOf(d[i].timestamp) != DateOf(now) {
          assert held[i] == d[i];
        }
        OnDateNone(d, now);
      }
    }
  }

  /** A refresh whose storage works and whose figures make a valid record leaves exactly one snapshot for today, even
      if the write reports a failure after it took effect. */
  lemma {:induction false} TodayIsRecorded(store: Store, t: Tick)
    requires OnePerDate(Held(store, t.portfolioId))
    requires !t.readFails && !t.write.NotWritten? && Built(t).Some?
    requires !HasId(Held(store, t.portfolioId), t.id)
    ensures OnDate(Held(AfterTick(store, t), t.portfolioId), DateOf(t.now)) == 1
  {
    var held := Held(store, t.portfolioId);
    OnDateNone(held, t.now);
    OnDateAtMostOne(held, t.now);
    if ShouldCreate(held, t.now) {
      var after := held + [Built(t).value];
      assert Held(AfterTick(store, t), t.portfolioId) == after;
      assert after[..|after| - 1] == held;
    }
  }

  // ---------- the order of what is read ----------

  /** Two tied elements stand among the ties in the order in which they stand in the sequence. */
  lemma {:induction false} TiesInOrder(key: Snapshot -> int, z: Snapshot, s: seq<Snapshot>, i: nat, j: nat)
      returns (a: nat, b: nat)
    requires i < j < |s| && key(s[i]) == key(z) && key(s[j]) == key(z)
    ensures a < b < |Ties(key, z, s)| && Ties(key, z, s)[a] == s[i] && Ties(key, z, s)[b] == s[j]
  {
    if i > 0 {
      a, b := TiesInOrder(key, z, s[1..], i - 1, j - 1);
      if key(z) == key(s[0]) {
        a, b := a + 1, b + 1;
      }
    } else {
      TiesMember(key, z, s[1..]);
      assert s[1..][j - 1] == s[j];
      assert s[j] in Ties(key, z, s[1..]);
      var c :| 0 <= c < |Ties(key, z, s[1..])| && Ties(key, z, s[1..])[c] == s[j];
      a, b := 0, c + 1;
    }
  }

  /** Ties are a subsequence, so an order on the whole is an order on them. */
  lemma {:induction false} TiesSorted(key: Snapshot -> int, order: Snapshot -> int, z: Snapshot, s: seq<Snapshot>)
    requires SortedBy(order, s)
    ensures SortedBy(order, Ties(key, z, s))
  {
    if s != [] {
      TiesSorted(key, order, z, s[1..]);
      TiesMember(key, z, s[1..]);
      var rest := Ties(key, z, s[1..]);
      forall k | 0 <= k < |rest| ensures order(s[0]) <= order(rest[k]) {
        assert rest[k] in rest;
        var m :| 0 <= m < |s[1..]| && s[1..][m] == rest[k];
        assert s[m + 1] == rest[k];
      }
    }
  }

  lemma {:induction false} SameFirstRead(a: seq<Snapshot>, b: seq<Snapshot>)
    requires (forall s :: s in a <==> s in b) && a != [] && b != []
    requires UniqueIds(a) && InReadingOrder(a) && InReadingOrder(b)
    ensures a[0] == b[0]
  {
    assert b[0] in a && a[0] in b;
    var i :| 0 <= i < |a| && a[i] == b[0];
    var j :| 0 <= j < |b| && b[j] == a[0];
  }

  lemma {:induction false} RestRead(a: seq<Snapshot>)
    requires a != [] && UniqueIds(a) && InReadingOrder(a)
    ensures UniqueIds(a[1..]) && InReadingOrder(a[1..])
    ensures multiset(a[1..]) == multiset(a) - multiset{a[0]}
  {
    assert a == [a[0]] + a[1..];
    assert multiset(a) == multiset{a[0]} + multiset(a[1..]);
  }

  /** With unique ids, which appending ensures, there is only one such order. */
  lemma {:induction false} ReadingOrderDetermined(a: seq<Snapshot>, b: seq<Snapshot>)
    requires multiset(a) == multiset(b) && UniqueIds(a) && UniqueIds(b)
    requires InReadingOrder(a) && InReadingOrder(b)
    ensures a == b
    decreases |a|
  {
    SameElements(a, b);
    if a != [] {
      SameFirstRead(a, b);
      RestRead(a);
      RestRead(b);
      ReadingOrderDetermined(a[1..], b[1..]);
      assert a == [a[0]] + a[1..] && b == [b[0]] + b[1..];
    }
  }

  /** Reading returns the snapshots held, by timestamp and then by id. */
  lemma {:induction false} ReadInOrder(held: seq<Snapshot>)
    ensures multiset(Chronology(held)) == multiset(held)
    ensures InReadingOrder(Chronology(held))
  {
    ChronologySameElements(held);
    var byId := StableSort(ById(), held);
    StableSortSpec(ById(), held);
    StableSortSpec(ByTimestamp(), byId);
    var c := Chronology(held);
    forall i, j | 0 <= i < j < |c|
      ensures ReadBefore(c[i], c[j])
    {
      assert ByTimestamp()(c[i]) <= ByTimestamp()(c[j]);
      if c[i].timestamp == c[j].timestamp {
        var a, b := TiesInOrder(ByTimestamp(), c[i], c, i, j);
        TiesSorted(ByTimestamp(), ById(), c[i], byId);
        var t := Ties(ByTimestamp(), c[i], byId);
        assert ById()(t[a]) <= ById()(t[b]);
      }
    }
  }
}
