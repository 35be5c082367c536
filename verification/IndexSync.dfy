/** The database, the derived stores and the steps between them, as the program performs them. */
module IndexSync {
  import opened Wrappers
  import opened Corpus
  import opened IndexQueue

  datatype SyncReport = SyncReport(indexed: nat, failed: nat, skipped: nat, errors: seq<string>)

  // ----- how the loops build the value-level results -------------------------------------------

  lemma EnqueuedMore(rows: Queue, a: set<RowKey>, b: set<RowKey>)
    ensures Enqueued(Enqueued(rows, a), b) == Enqueued(rows, a + b)
  {
  }

  lemma DrainOneMoreRow(rows: Queue, plan: Plan, fate: Fates, r: RowKey, entry: Option<Entry>)
    requires r in rows && r !in plan
    ensures DrainedRows(rows, plan[r := entry], fate)
            == if Skips(entry, fate(r)) then DrainedRows(rows, plan, fate) - {r}
               else DrainedRows(rows, plan, fate)[r := Marked(rows[r], fate(r))]
    ensures r in DrainedRows(rows, plan, fate) && DrainedRows(rows, plan, fate)[r] == rows[r]
  {
  }

  lemma DrainOneMoreEntry(store: map<RowKey, Entry>, plan: Plan, fate: Fates, r: RowKey, entry: Option<Entry>)
    requires r !in plan
    ensures DrainedStore(store, plan[r := entry], fate)
            == if Lands(r, entry, fate(r)) then DrainedStore(store, plan, fate)[r := entry.value]
               else DrainedStore(store, plan, fate)
  {
    var before, after := DrainedStore(store, plan, fate), DrainedStore(store, plan[r := entry], fate);
    var expected := if Lands(r, entry, fate(r)) then before[r := entry.value] else before;
    forall q: RowKey
      ensures (q in after <==> q in expected) && (q in after ==> after[q] == expected[q])
    {
      assert q in plan[r := entry] <==> q == r || q in plan;
    }
  }

  lemma NothingDrained(rows: Queue, store: map<RowKey, Entry>, fate: Fates)
    ensures DrainedRows(rows, map[], fate) == rows
    ensures DrainedStore(store, map[], fate) == store
  {
  }

  class Database {
    var corpus: Corpus
    var rows: Queue

    constructor ()
      ensures corpus == EMPTY_CORPUS && rows == map[]
    {
      corpus := EMPTY_CORPUS;
      rows := map[];
    }

    /** Insert each row, or reset it when it exists. */
    method EnqueueIndex(entity: EntityKind, id: Id, kinds: set<IndexKind>)
      modifies this`rows
      ensures rows == Enqueued(old(rows), KeysOf(entity, {id}, kinds))
      ensures forall i :: i in kinds ==>
                var r := RowKey(entity, id, i); r in rows && rows[r] == SyncRow(Pending, 0, None)
    {
      ghost var before, done: set<RowKey> := rows, {};
      var rest := kinds;
      while rest != {}
        invariant rest <= kinds
        invariant forall r: RowKey ::
                    r in done <==> r.entity == entity && r.id == id && r.index in kinds && r.index !in rest
        invariant rows == Enqueued(before, done)
        decreases rest
      {
        var i :| i in rest;
        var r := RowKey(entity, id, i);
        EnqueuedMore(before, done, {r});
        rows := rows[r := ENQUEUED];
        rest := rest - {i};
        done := done + {r};
      }
      assert done == KeysOf(entity, {id}, kinds);
    }

    method EnqueueAll(entity: EntityKind, ids: set<Id>, kinds: set<IndexKind>)
      modifies this`rows
      ensures rows == Enqueued(old(rows), KeysOf(entity, ids, kinds))
    {
      ghost var before, done: set<RowKey> := rows, {};
      var rest := ids;
      while rest != {}
        invariant rest <= ids
        invariant forall r: RowKey ::
                    r in done <==> r.entity == entity && r.id in ids && r.id !in rest && r.index in kinds
        invariant rows == Enqueued(before, done)
        decreases rest
      {
        var id :| id in rest;
        ghost var more := KeysOf(entity, {id}, kinds);
        EnqueueIndex(entity, id, kinds);
        EnqueuedMore(before, done, more);
        rest := rest - {id};
        done := done + more;
      }
      assert done == KeysOf(entity, ids, kinds);
    }
  }

  /** What OpenSearch and Qdrant hold. */
  class DerivedStores {
    var entries: map<RowKey, Entry>

    constructor ()
      ensures entries == map[]
    {
      entries := map[];
    }
  }

  ghost function WorldOf(db: Database, stores: DerivedStores): World
    reads db, stores
  {
    World(db.corpus, db.rows, stores.entries)
  }

  function RowAfter(rows: Queue, r: RowKey, entry: Option<Entry>, fate: Fate): Queue
    requires r in rows
  {
    if Skips(entry, fate) then rows - {r} else rows[r := Marked(rows[r], fate)]
  }

  function EntryAfter(store: map<RowKey, Entry>, r: RowKey, entry: Option<Entry>, fate: Fate): map<RowKey, Entry> {
    if Lands(r, entry, fate) then store[r := entry.value] else store
  }

  /** One row, with its projection already loaded. */
  method WriteOne(db: Database, stores: DerivedStores, r: RowKey, entry: Option<Entry>, fate: Fate, report0: SyncReport)
    returns (report: SyncReport)
    requires r in db.rows
    modifies db`rows, stores
    ensures db.rows == RowAfter(old(db.rows), r, entry, fate)
    ensures stores.entries == EntryAfter(old(stores.entries), r, entry, fate)
    ensures report.indexed + report.failed + report.skipped == report0.indexed + report0.failed + report0.skipped + 1
    ensures report.failed == report0.failed + if fate.Raises? then 1 else 0
    ensures report.skipped == report0.skipped + if Skips(entry, fate) then 1 else 0
    ensures report.errors == if fate.Raises? then report0.errors + [fate.error] else report0.errors
  {
    match fate
    case Raises(taken, error) =>
      if taken && Tracked(r) && entry.Some? {
        stores.entries := stores.entries[r := entry.value];
      }
      var message := if |error| > 2000 then error[..2000] else error;
      db.rows := db.rows[r := SyncRow(Failed, db.rows[r].attempts + 1, Some(message))];
      report := report0.(failed := report0.failed + 1, errors := report0.errors + [error]);
    case Succeeds =>
      if entry.None? {
        db.rows := db.rows - {r};
        report := report0.(skipped := report0.skipped + 1);
      } else {
        if Tracked(r) {
          stores.entries := stores.entries[r := entry.value];
        }
        db.rows := db.rows[r := SyncRow(Indexed, db.rows[r].attempts + 1, None)];
        report := report0.(indexed := report0.indexed + 1);
      }
  }

  /** The rows of a plan whose write raised. */
  function RaisedRows(plan: Plan, fate: Fates): set<RowKey> {
    set r | r in plan && fate(r).Raises?
  }

  /** The plan of the rows processed so far grows by one. */
  lemma OneMoreDone(plan: Plan, rest: set<RowKey>, r: RowKey, fate: Fates)
    requires r in rest && rest <= plan.Keys
    ensures var done, more := plan - rest, plan - (rest - {r});
            && r !in done && more == done[r := plan[r]]
            && |more| == |done| + 1
            && |RaisedRows(more, fate)| == |RaisedRows(done, fate)| + if fate(r).Raises? then 1 else 0
  {
    var done, more := plan - rest, plan - (rest - {r});
    assert more == done[r := plan[r]];
    assert RaisedRows(more, fate) == RaisedRows(done, fate) + if fate(r).Raises? then {r} else {};
  }

  /** One more row of the plan processed. */
  lemma NextRow(rows: Queue, store: map<RowKey, Entry>, plan: Plan, rest: set<RowKey>, r: RowKey, fate: Fates)
    requires plan.Keys <= rows.Keys && r in rest && rest <= plan.Keys
    ensures var done, more := plan - rest, plan - (rest - {r});
            && r in DrainedRows(rows, done, fate)
            && DrainedRows(rows, more, fate) == RowAfter(DrainedRows(rows, done, fate), r, plan[r], fate(r))
            && DrainedStore(store, more, fate) == EntryAfter(DrainedStore(store, done, fate), r, plan[r], fate(r))
  {
    OneMoreDone(plan, rest, r, fate);
    DrainOneMoreRow(rows, plan - rest, fate, r, plan[r]);
    DrainOneMoreEntry(store, plan - rest, fate, r, plan[r]);
  }

  /** Queue, store and report stand where the rows done so far leave them. */
  ghost predicate Progress(rows: Queue, store: map<RowKey, Entry>, report: SyncReport, rows0: Queue,
                           store0: map<RowKey, Entry>, done: Plan, fate: Fates) {
    && rows == DrainedRows(rows0, done, fate)
    && store == DrainedStore(store0, done, fate)
    && report.indexed + report.failed + report.skipped == |done|
    && |report.errors| == report.failed == |RaisedRows(done, fate)|
  }

  method WriteNext(db: Database, stores: DerivedStores, plan: Plan, ghost rest: set<RowKey>, r: RowKey, fate: Fates,
                   report0: SyncReport, ghost rows0: Queue, ghost store0: map<RowKey, Entry>)
    returns (report: SyncReport)
    requires plan.Keys <= rows0.Keys && r in rest && rest <= plan.Keys
    requires Progress(db.rows, stores.entries, report0, rows0, store0, plan - rest, fate)
    modifies db`rows, stores
    ensures Progress(db.rows, stores.entries, report, rows0, store0, plan - (rest - {r}), fate)
  {
    OneMoreDone(plan, rest, r, fate);
    NextRow(rows0, store0, plan, rest, r, fate);
    report := WriteOne(db, stores, r, plan[r], fate(r), report0);
  }

  method WriteRows(db: Database, stores: DerivedStores, plan: Plan, fate: Fates) returns (report: SyncReport)
    requires plan.Keys <= db.rows.Keys
    modifies db`rows, stores
    ensures db.rows == DrainedRows(old(db.rows), plan, fate)
    ensures stores.entries == DrainedStore(old(stores.entries), plan, fate)
    ensures report.indexed + report.failed + report.skipped == |plan|
    ensures |report.errors| == report.failed == |RaisedRows(plan, fate)|
  {
    report := SyncReport(0, 0, 0, []);
    ghost var rows0, store0 := db.rows, stores.entries;
    var rest := plan.Keys;
    NothingDrained(rows0, store0, fate);
    assert plan - rest == map[];
    while rest != {}
      invariant rest <= plan.Keys
      invariant Progress(db.rows, stores.entries, report, rows0, store0, plan - rest, fate)
      decreases rest
    {
      var r :| r in rest;
      report := WriteNext(db, stores, plan, rest, r, fate, report, rows0, store0);
      rest := rest - {r};
    }
    assert plan - rest == plan;
  }

  /** Process every matching pending row on its own: one failure stops nothing. Nothing canonical
      changes meanwhile, so every row's projection is known at the start, and the order in which rows are
      claimed does not matter to the outcome. */
  method Drain(db: Database, stores: DerivedStores, kinds: set<IndexKind>, fate: Fates)
    returns (report: SyncReport)
    modifies db`rows, stores
    ensures WorldOf(db, stores) == Drained(old(WorldOf(db, stores)), Claimed(old(db.rows), kinds), fate)
    ensures report.indexed + report.failed + report.skipped == |Claimed(old(db.rows), kinds)|
    ensures |report.errors| == report.failed
            == |set r | r in Claimed(old(db.rows), kinds) && fate(r).Raises?|
  {
    var claimed := Claimed(db.rows, kinds);
    var plan := PlanOf(db.corpus, claimed);
    assert |plan| == |plan.Keys|;
    assert RaisedRows(plan, fate) == set r | r in claimed && fate(r).Raises?;
    report := WriteRows(db, stores, plan, fate);
  }

  /** Enqueue every live entity of the target. */
  method EnqueueTarget(db: Database, target: Target)
    modifies db`rows
    ensures db.rows == Enqueued(old(db.rows), TargetRows(db.corpus, target))
  {
    ghost var rows0 := db.rows;
    ghost var pages := if target.Chunks? then {} else KeysOf(PageEntity, db.corpus.pages.Keys, PAGE_KINDS);
    if target.Pages? || target.All? {
      db.EnqueueAll(PageEntity, db.corpus.pages.Keys, PAGE_KINDS);
    }
    EnqueuedMore(rows0, pages, KeysOf(ChunkEntity, db.corpus.chunks.Keys, CHUNK_KINDS));
    if target.Chunks? || target.All? {
      db.EnqueueAll(ChunkEntity, db.corpus.chunks.Keys, CHUNK_KINDS);
    }
    assert pages + {} == pages;
  }

  lemma DropOneMore(store: map<RowKey, Entry>, target: Target, n: nat)
    requires n < |RecreateOrder(target)|
    ensures Emptied(Emptied(store, FirstKinds(target, n)), {RecreateOrder(target)[n]})
            == Emptied(store, FirstKinds(target, n + 1))
  {
    var order := RecreateOrder(target);
    assert order[..n + 1] == order[..n] + [order[n]];
    assert FirstKinds(target, n + 1) == FirstKinds(target, n) + {order[n]};
  }

  /** Drop and create the target stores one after the other, up to the one that raises. */
  method RecreateStores(stores: DerivedStores, target: Target, upTo: nat)
    requires upTo <= |RecreateOrder(target)|
    modifies stores
    ensures stores.entries == Emptied(old(stores.entries), FirstKinds(target, upTo))
  {
    var order := RecreateOrder(target);
    ghost var before := stores.entries;
    assert FirstKinds(target, 0) == {} && Emptied(before, {}) == before;
    var i := 0;
    while i < upTo
      invariant i <= upTo
      invariant stores.entries == Emptied(before, FirstKinds(target, i))
    {
      DropOneMore(before, target, i);
      stores.entries := map r | r in stores.entries && r.index !in {order[i]} :: stores.entries[r];
      i := i + 1;
    }
  }

  /** Recreate the target stores, enqueue every live entity, drain. The reindex may raise when some number of
      stores has been dropped; it then enqueues nothing. */
  method Reindex(db: Database, stores: DerivedStores, target: Target, raisesAfter: Option<nat>, fate: Fates)
    returns (report: Option<SyncReport>)
    requires raisesAfter.Some? ==> raisesAfter.value <= |RecreateOrder(target)|
    modifies db`rows, stores
    ensures report.None? <==> raisesAfter.Some?
    ensures WorldOf(db, stores)
            == match raisesAfter
               case None => Reindexed(old(WorldOf(db, stores)), target, fate)
               case Some(n) => Aborted(old(WorldOf(db, stores)), target, n)
    ensures report.Some? ==> |report.value.errors| == report.value.failed
  {
    RecreateStores(stores, target, raisesAfter.GetOr(|RecreateOrder(target)|));
    if raisesAfter.Some? {
      return None;
    }
    AllKinds(target);
    EnqueueTarget(db, target);
    var drained := Drain(db, stores, TargetKinds(target), fate);
    report := Some(drained);
  }

  lemma AllKinds(target: Target)
    ensures FirstKinds(target, |RecreateOrder(target)|) == TargetKinds(target)
  {
    var order := RecreateOrder(target);
    assert order[..|order|] == order;
  }
}
