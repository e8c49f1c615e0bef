/**
 Restoring the panel's database from a snapshot: inside one transaction the
 tables are emptied children first, refilled parents first in batches, and the
 server's own backup list is merged back.
 */
module InstanceRestore {
  import opened Lists
  import opened Names
  import opened TableOrder

  datatype Row = Row(id: string, data: string)

  type Tables = map<string, seq<Row>>

  /** A snapshot's tables, in file order; a repeated name overrides. */
  datatype Snapshot = Snapshot(migrations: seq<string>, tables: seq<(string, seq<Row>)>)

  datatype Report = Restored(tables: nat, rows: nat) | Rejected | Aborted

  const BATCH := 500
  const BACKUPS := "instance_backups"
  const NOT_RESTORED := {"migrations"}

  // ---- what the snapshot asks for ---------------------------------------------

  function ByName(tables: seq<(string, seq<Row>)>): Tables {
    if tables == [] then map[]
    else
      var last := tables[|tables| - 1];
      ByName(tables[..|tables| - 1])[last.0 := last.1]
  }

  /** The rows a snapshot has for a table: those of the last entry of that name, or none without one. */
  ghost predicate GivenRows(entries: seq<(string, seq<Row>)>, t: string, rows: seq<Row>) {
    || (rows == [] && forall i | 0 <= i < |entries| :: entries[i].0 != t)
    || exists i :: 0 <= i < |entries| && entries[i] == (t, rows) && forall j | i < j < |entries| :: entries[j].0 != t
  }

  /** Looking a table up finds the rows it was given, and only given tables are there. */
  lemma {:induction false} ByNameMeaning(entries: seq<(string, seq<Row>)>, t: string)
    ensures t in ByName(entries) <==> exists i :: 0 <= i < |entries| && entries[i].0 == t
    ensures GivenRows(entries, t, DataFor(ByName(entries), t))
  {
    if entries != [] {
      var init, last := entries[..|entries| - 1], entries[|entries| - 1];
      assert entries == init + [last];
      ByNameMeaning(init, t);
      var rows := DataFor(ByName(entries), t);
      if last.0 == t {
        assert entries[|init|] == (t, rows);
      } else if i :| 0 <= i < |init| && init[i] == (t, rows) && forall j | i < j < |init| :: init[j].0 != t {
        assert entries[i] == (t, rows);
      }
    }
  }

  function DataFor(byName: Tables, t: string): seq<Row> {
    if t in byName then byName[t] else []
  }

  function Restorable(order: seq<string>): seq<string> {
    if order == [] then []
    else
      var init, t := Restorable(order[..|order| - 1]), order[|order| - 1];
      if t in NOT_RESTORED then init else init + [t]
  }

  /** No table references one listed after it. */
  ghost predicate ParentsFirst(g: Graph, ts: seq<string>) {
    && Distinct(ts)
    && forall i, j | 0 <= i <= j < |ts| :: !Edge(g, ts[i], ts[j])
  }

  lemma NotEarlier(out: seq<string>, i: nat, j: nat)
    requires Distinct(out) && i <= j < |out|
    ensures out[j] !in out[..i]
  {
  }

  lemma OrderHasParentsFirst(g: Graph, out: seq<string>)
    requires IsOrder(g, out)
    ensures ParentsFirst(g, out)
  {
    forall i, j | 0 <= i <= j < |out| ensures !Edge(g, out[i], out[j]) {
      NotEarlier(out, i, j);
    }
  }

  lemma {:induction false} RestorableElems(order: seq<string>)
    ensures forall t :: t in Restorable(order) <==> t in order && t !in NOT_RESTORED
  {
    if order != [] {
      assert order == order[..|order| - 1] + [order[|order| - 1]];
      RestorableElems(order[..|order| - 1]);
    }
  }

  /** Leaving tables out keeps the parents first. */
  lemma {:induction false} RestorableOrdered(g: Graph, order: seq<string>)
    requires ParentsFirst(g, order)
    ensures ParentsFirst(g, Restorable(order))
  {
    if order != [] {
      var init, last := order[..|order| - 1], order[|order| - 1];
      assert order == init + [last];
      RestorableOrdered(g, init);
      RestorableElems(init);
      var r := Restorable(init);
      forall i | 0 <= i < |r| ensures r[i] != last && !Edge(g, r[i], last) {
        assert r[i] in r;
        var k :| 0 <= k < |init| && init[k] == r[i];
        assert order[k] == r[i] && order[|init|] == last;
      }
      assert order[|init|] == last;
    }
  }

  // ---- merging rows by id ----------------------------------------------------------

  predicate HasId(rows: seq<Row>, id: string) {
    exists i :: 0 <= i < |rows| && rows[i].id == id
  }

  /** `INSERT ... ON CONFLICT (id) DO NOTHING`, row by row. */
  function MergeById(base: seq<Row>, rows: seq<Row>): seq<Row>
    decreases |rows|
  {
    if rows == [] then base
    else MergeById(if HasId(base, rows[0].id) then base else base + [rows[0]], rows[1..])
  }

  ghost predicate DistinctIds(rows: seq<Row>) {
    forall i, j | 0 <= i < j < |rows| :: rows[i].id != rows[j].id
  }

  /** The rows whose ids the base does not have, in order. */
  function Missing(base: seq<Row>, rows: seq<Row>): seq<Row> {
    if rows == [] then []
    else (if HasId(base, rows[0].id) then [] else [rows[0]]) + Missing(base, rows[1..])
  }

  lemma {:induction false} MissingWithout(base: seq<Row>, extra: Row, rows: seq<Row>)
    requires !HasId(rows, extra.id)
    ensures Missing(base + [extra], rows) == Missing(base, rows)
  {
    if rows != [] {
      var r := rows[0];
      assert HasId(rows, r.id);
      assert HasId(base + [extra], r.id) <==> HasId(base, r.id) by {
        if HasId(base, r.id) {
          var i :| 0 <= i < |base| && base[i].id == r.id;
          assert (base + [extra])[i].id == r.id;
        }
      }
      forall i | 0 <= i < |rows[1..]| ensures rows[1..][i].id != extra.id {
        assert rows[i + 1].id != extra.id;
      }
      MissingWithout(base, extra, rows[1..]);
    }
  }

  /** Merging keeps the base and adds exactly the rows it lacks. */
  lemma {:induction false} MergeMeaning(base: seq<Row>, rows: seq<Row>)
    requires DistinctIds(rows)
    ensures MergeById(base, rows) == base + Missing(base, rows)
    decreases |rows|
  {
    if rows == [] {
      assert base + [] == base;
    } else {
      var r, rest := rows[0], rows[1..];
      if HasId(base, r.id) {
        MergeMeaning(base, rest);
      } else {
        MergeMeaning(base + [r], rest);
        MissingWithout(base, r, rest);
        assert (base + [r]) + Missing(base, rest) == base + ([r] + Missing(base, rest));
      }
    }
  }

  /**
   `now` is `rows` and behind them, in their order, exactly the own rows whose
   ids do not occur there.
   */
  ghost predicate Merged(rows: seq<Row>, own: seq<Row>, now: seq<Row>) {
    exists picks: seq<nat> :: Picked(rows, own, picks) && now == rows + RowsAt(own, picks)
  }

  ghost predicate Picked(rows: seq<Row>, own: seq<Row>, picks: seq<nat>) {
    && (forall k | 0 <= k < |picks| :: picks[k] < |own|)
    && (forall j, k | 0 <= j < k < |picks| :: picks[j] < picks[k])
    && forall j: nat | j < |own| :: j in picks <==> forall k | 0 <= k < |rows| :: rows[k].id != own[j].id
  }

  ghost function RowsAt(own: seq<Row>, picks: seq<nat>): seq<Row>
    requires forall k | 0 <= k < |picks| :: picks[k] < |own|
  {
    seq(|picks|, k requires 0 <= k < |picks| => own[picks[k]])
  }

  lemma MissingAppends(base: seq<Row>, rows: seq<Row>, last: Row)
    ensures Missing(base, rows + [last]) == Missing(base, rows) + if HasId(base, last.id) then [] else [last]
  {
    if rows != [] {
      assert (rows + [last])[1..] == rows[1..] + [last];
      MissingAppends(base, rows[1..], last);
    } else {
      assert [last][1..] == [];
    }
  }

  /** The missing rows are picked in order, those and no others. */
  lemma {:induction false} MissingIsPicked(base: seq<Row>, rows: seq<Row>) returns (picks: seq<nat>)
    ensures Picked(base, rows, picks) && Missing(base, rows) == RowsAt(rows, picks)
    decreases |rows|
  {
    picks := [];
    if rows != [] {
      var init, last := rows[..|rows| - 1], rows[|rows| - 1];
      assert rows == init + [last];
      picks := MissingIsPicked(base, init);
      MissingAppends(base, init, last);
      var was := picks;
      if !HasId(base, last.id) { picks := picks + [|init|]; }
      PickedNext(base, init, last, was);
    }
  }

  lemma PickedNext(base: seq<Row>, init: seq<Row>, last: Row, picks: seq<nat>)
    requires Picked(base, init, picks)
    ensures var more := if HasId(base, last.id) then picks else picks + [|init|];
            Picked(base, init + [last], more)
            && RowsAt(init + [last], more) == RowsAt(init, picks) + if HasId(base, last.id) then [] else [last]
  {
    var rows, more := init + [last], if HasId(base, last.id) then picks else picks + [|init|];
    forall j: nat | j < |rows| ensures j in more <==> forall k | 0 <= k < |base| :: base[k].id != rows[j].id {
      assert j < |init| ==> rows[j] == init[j];
      assert j == |init| ==> j !in picks;
      assert j in more <==> j in picks || (j == |init| && !HasId(base, last.id));
    }
  }

  // ---- the transaction ------------------------------------------------------------------

  /** The connection statements go through, and how many of them failed. */
  class Database {
    ghost var failures: nat
  }

  /**
   The tables as the transaction sees them. Any statement may fail. The
   preconditions are what the foreign keys ask for: a table is emptied only
   when no other restored table that references it has rows, and filled only
   when every restored table it references holds all its rows.
   */
  class Transaction {
    var tables: Tables
    const database: Database
    ghost const references: Graph
    ghost const scope: set<string>
    ghost const goal: Tables

    constructor (tables: Tables, database: Database, ghost references: Graph, ghost scope: set<string>, ghost goal: Tables)
      ensures this.tables == tables && this.database == database
      ensures this.references == references && this.scope == scope && this.goal == goal
    {
      this.tables, this.database := tables, database;
      this.references, this.scope, this.goal := references, scope, goal;
    }

    ghost predicate MayEmpty(t: string)
      reads this
    {
      forall u | u in scope && u != t && Edge(references, u, t) :: u in tables && tables[u] == []
    }

    ghost predicate MayFill(t: string)
      reads this
    {
      forall p | p in scope && p != t && Edge(references, t, p) :: p in tables && p in goal && tables[p] == goal[p]
    }

    method DeleteAll(t: string) returns (ok: bool)
      requires t in tables && MayEmpty(t)
      modifies this, database
      ensures database.failures == old(database.failures) + (if ok then 0 else 1)
      ensures ok ==> tables == old(tables)[t := []]
    {
      ok := *;
      if !ok { database.failures := database.failures + 1; }
      if ok { tables := tables[t := []]; }
    }

    method Insert(t: string, rows: seq<Row>) returns (ok: bool)
      requires t in tables && MayFill(t)
      modifies this, database
      ensures database.failures == old(database.failures) + (if ok then 0 else 1)
      ensures ok ==> tables == old(tables)[t := old(tables)[t] + rows]
    {
      ok := *;
      if !ok { database.failures := database.failures + 1; }
      if ok { tables := tables[t := tables[t] + rows]; }
    }

    method InsertMissing(t: string, rows: seq<Row>) returns (ok: bool)
      requires t in tables && MayFill(t)
      modifies this, database
      ensures database.failures == old(database.failures) + (if ok then 0 else 1)
      ensures ok ==> tables == old(tables)[t := MergeById(old(tables)[t], rows)]
    {
      ok := *;
      if !ok { database.failures := database.failures + 1; }
      if ok { tables := tables[t := MergeById(tables[t], rows)]; }
    }
  }

  method EmptyAll(tx: Transaction, ts: seq<string>) returns (ok: bool)
    requires ParentsFirst(tx.references, ts) && Elems(ts) == tx.scope && (forall t | t in ts :: t in tx.tables)
    modifies tx, tx.database
    ensures tx.database.failures >= old(tx.database.failures) && (!ok ==> tx.database.failures > old(tx.database.failures))
    ensures ok ==> tx.tables.Keys == old(tx.tables).Keys
    ensures ok ==> forall t | t in tx.tables :: tx.tables[t] == if t in ts then [] else old(tx.tables)[t]
  {
    var k := |ts|;
    while k > 0
      invariant tx.database.failures >= old(tx.database.failures)
      invariant 0 <= k <= |ts|
      invariant tx.tables.Keys == old(tx.tables).Keys
      invariant forall t | t in tx.tables :: tx.tables[t] == if t in ts[k..] then [] else old(tx.tables)[t]
    {
      k := k - 1;
      var t := ts[k];
      forall u | u in tx.scope && u != t && Edge(tx.references, u, t) ensures u in tx.tables && tx.tables[u] == [] {
        assert u in ts;
        var i :| 0 <= i < |ts| && ts[i] == u;
        assert k < i;
        assert ts[k + 1..][i - k - 1] == u;
      }
      assert ts[k..] == [t] + ts[k + 1..];
      ok := tx.DeleteAll(t);
      if !ok { return; }
    }
    ok := true;
    assert ts[0..] == ts;
  }

  /** Refills one table, a batch at a time. */
  method FillTable(tx: Transaction, t: string, data: seq<Row>) returns (ok: bool)
    requires t in tx.tables && tx.tables[t] == [] && tx.MayFill(t)
    modifies tx, tx.database
    ensures tx.database.failures >= old(tx.database.failures) && (!ok ==> tx.database.failures > old(tx.database.failures))
    ensures ok ==> tx.tables == old(tx.tables)[t := data]
  {
    var i := 0;
    assert data[..0] == [];
    while i < |data|
      invariant tx.database.failures >= old(tx.database.failures)
      invariant 0 <= i <= |data|
      invariant tx.tables == old(tx.tables)[t := data[..i]]
      decreases |data| - i
    {
      var end := if i + BATCH <= |data| then i + BATCH else |data|;
      assert data[..i] + data[i..end] == data[..end];
      ok := tx.Insert(t, data[i..end]);
      if !ok { return; }
      i := end;
    }
    assert data[..|data|] == data;
    ok := true;
  }

  lemma EarlierParent(g: Graph, ts: seq<string>, k: nat, p: string)
    requires ParentsFirst(g, ts) && k < |ts| && p in Elems(ts) && Edge(g, ts[k], p)
    ensures p in ts && p in ts[..k]
  {
    var i :| 0 <= i < |ts| && ts[i] == p;
    assert i < k;
    assert ts[..k][i] == p;
  }

  /** The first `k` tables hold their rows, the others are as in `before`. */
  ghost predicate Filled(before: Tables, now: Tables, ts: seq<string>, k: nat, byName: Tables)
    requires k <= |ts|
  {
    && now.Keys == before.Keys
    && forall t | t in now :: now[t] == if t in ts[..k] then DataFor(byName, t) else before[t]
  }

  lemma FilledNext(before: Tables, now: Tables, ts: seq<string>, k: nat, byName: Tables)
    requires Distinct(ts) && k < |ts| && ts[k] in now && Filled(before, now, ts, k, byName)
    ensures now[ts[k]] == before[ts[k]]
    ensures Filled(before, now[ts[k] := DataFor(byName, ts[k])], ts, k + 1, byName)
  {
    NotEarlier(ts, k, k);
    assert ts[..k + 1] == ts[..k] + [ts[k]];
  }

  ghost predicate Goals(tx: Transaction, ts: seq<string>, byName: Tables) {
    && ParentsFirst(tx.references, ts) && Elems(ts) == tx.scope
    && forall t | t in tx.scope :: t in tx.goal && tx.goal[t] == DataFor(byName, t)
  }

  lemma NextMayFill(tx: Transaction, before: Tables, ts: seq<string>, k: nat, byName: Tables)
    requires Goals(tx, ts, byName) && k < |ts| && Filled(before, tx.tables, ts, k, byName)
    requires forall t | t in ts :: t in before
    ensures tx.MayFill(ts[k])
  {
    forall p | p in tx.scope && p != ts[k] && Edge(tx.references, ts[k], p)
      ensures p in tx.tables && p in tx.goal && tx.tables[p] == tx.goal[p]
    {
      EarlierParent(tx.references, ts, k, p);
    }
  }

  method FillAll(tx: Transaction, ts: seq<string>, byName: Tables) returns (ok: bool, rows: nat)
    requires Goals(tx, ts, byName) && forall t | t in ts :: t in tx.tables && tx.tables[t] == []
    modifies tx, tx.database
    ensures tx.database.failures >= old(tx.database.failures) && (!ok ==> tx.database.failures > old(tx.database.failures))
    ensures ok ==> Filled(old(tx.tables), tx.tables, ts, |ts|, byName) && rows == RowCount(ts, byName)
  {
    rows := 0;
    for k := 0 to |ts|
      invariant tx.database.failures >= old(tx.database.failures)
      invariant Filled(old(tx.tables), tx.tables, ts, k, byName)
      invariant rows == RowCount(ts[..k], byName)
    {
      var t := ts[k];
      assert t in ts;
      FilledNext(old(tx.tables), tx.tables, ts, k, byName);
      NextMayFill(tx, old(tx.tables), ts, k, byName);
      ok := FillTable(tx, t, DataFor(byName, t));
      if !ok { return; }
      assert ts[..k + 1][..k] == ts[..k];
      rows := rows + |DataFor(byName, t)|;
    }
    assert ts[..|ts|] == ts;
    ok := true;
  }

  function RowCount(ts: seq<string>, byName: Tables): nat {
    if ts == [] then 0 else RowCount(ts[..|ts| - 1], byName) + |DataFor(byName, ts[|ts| - 1])|
  }

  /** The rows of the entries that count: for each name the last one, but none of the names in `skip`. */
  ghost function LiveRows(entries: seq<(string, seq<Row>)>, skip: set<string>): nat {
    if entries == [] then 0
    else
      var last := entries[|entries| - 1];
      (if last.0 in skip then 0 else |last.1|) + LiveRows(entries[..|entries| - 1], skip + {last.0})
  }

  ghost function CountedRows(ts: seq<string>, byName: Tables, skip: set<string>): nat {
    if ts == [] then 0
    else
      var t := ts[|ts| - 1];
      CountedRows(ts[..|ts| - 1], byName, skip) + if t in skip then 0 else |DataFor(byName, t)|
  }

  lemma {:induction false} CountedApart(ts: seq<string>, byName: Tables, name: string, rows: seq<Row>, skip: set<string>)
    requires name in skip || name !in ts
    ensures CountedRows(ts, byName[name := rows], skip) == CountedRows(ts, byName, skip)
    ensures name !in ts ==> CountedRows(ts, byName, skip + {name}) == CountedRows(ts, byName, skip)
  {
    if ts != [] {
      var init, t := ts[..|ts| - 1], ts[|ts| - 1];
      assert t in ts && forall u | u in init :: u in ts;
      CountedApart(init, byName, name, rows, skip);
    }
  }

  lemma {:induction false} CountedOne(ts: seq<string>, byName: Tables, name: string, skip: set<string>)
    requires Distinct(ts) && name in ts && name !in skip
    ensures CountedRows(ts, byName, skip) == |DataFor(byName, name)| + CountedRows(ts, byName, skip + {name})
  {
    var init, t := ts[..|ts| - 1], ts[|ts| - 1];
    assert ts == init + [t];
    if t == name {
      CountedApart(init, byName, name, [], skip);
    } else {
      CountedOne(init, byName, name, skip);
    }
  }

  lemma {:induction false} CountedIsLive(ts: seq<string>, entries: seq<(string, seq<Row>)>, skip: set<string>)
    requires Distinct(ts) && forall i | 0 <= i < |entries| :: entries[i].0 in ts || entries[i].0 in skip
    ensures CountedRows(ts, ByName(entries), skip) == LiveRows(entries, skip)
    decreases |entries|
  {
    if entries == [] {
      NothingCounted(ts, skip);
    } else {
      var init, last := entries[..|entries| - 1], entries[|entries| - 1];
      var m := ByName(init);
      CountedIsLive(ts, init, skip + {last.0});
      if last.0 in skip {
        assert skip + {last.0} == skip;
      } else {
        CountedOne(ts, m[last.0 := last.1], last.0, skip);
      }
      CountedApart(ts, m, last.0, last.1, skip + {last.0});
    }
  }

  lemma {:induction false} NothingCounted(ts: seq<string>, skip: set<string>)
    ensures CountedRows(ts, map[], skip) == 0
  {
    if ts != [] { NothingCounted(ts[..|ts| - 1], skip); }
  }

  lemma {:induction false} RowCountIsCounted(ts: seq<string>, byName: Tables, skip: set<string>)
    requires forall t | t in ts :: t !in skip
    ensures RowCount(ts, byName) == CountedRows(ts, byName, skip)
  {
    if ts != [] {
      var init := ts[..|ts| - 1];
      assert ts[|ts| - 1] in ts && forall u | u in init :: u in ts;
      RowCountIsCounted(init, byName, skip);
    }
  }

  // ---- the restore ---------------------------------------------------------------------------

  /** What the transaction makes of the tables `ts`. */
  ghost predicate FilledAndMerged(before: Tables, now: Tables, ts: seq<string>, byName: Tables)
    requires BACKUPS in before
  {
    && now.Keys == before.Keys
    && forall t | t in now ::
      var rows := if t in ts then DataFor(byName, t) else before[t];
      now[t] == if t == BACKUPS then rows + Missing(rows, before[BACKUPS]) else rows
  }

  /**
   What the database holds after a restore: every table of the schema but the
   migrations has the rows of the snapshot, the backup list behind them also
   the local backups that are not among them; nothing else changed.
   */
  ghost predicate RestoredTo(before: Tables, now: Tables, g: Graph, entries: seq<(string, seq<Row>)>) {
    && now.Keys == before.Keys
    && forall t | t in now :: TableRestored(before[t], now[t], g, entries, t)
  }

  ghost predicate TableRestored(before: seq<Row>, now: seq<Row>, g: Graph, entries: seq<(string, seq<Row>)>, t: string) {
    if t !in g || t == "migrations" then now == before
    else exists rows :: GivenRows(entries, t, rows)
                        && if t == "instance_backups" then Merged(rows, before, now) else now == rows
  }

  lemma NothingMissing(rows: seq<Row>)
    ensures rows + Missing(rows, rows) == rows
  {
    NoneMissing(rows, rows);
    assert rows + [] == rows;
  }

  lemma {:induction false} NoneMissing(base: seq<Row>, rows: seq<Row>)
    requires forall i | 0 <= i < |rows| :: HasId(base, rows[i].id)
    ensures Missing(base, rows) == []
  {
    if rows != [] {
      assert forall i | 0 <= i < |rows[1..]| :: rows[1..][i] == rows[i + 1];
      NoneMissing(base, rows[1..]);
    }
  }

  lemma FilledIsRestored(before: Tables, now: Tables, g: Graph, ts: seq<string>, entries: seq<(string, seq<Row>)>)
    requires BACKUPS in before && FilledAndMerged(before, now, ts, ByName(entries))
    requires forall t :: t in ts <==> t in g && t != "migrations"
    ensures RestoredTo(before, now, g, entries)
  {
    forall t | t in now ensures TableRestored(before[t], now[t], g, entries, t) {
      ByNameMeaning(entries, t);
      if t in ts {
        var rows := DataFor(ByName(entries), t);
        var picks := MissingIsPicked(rows, before[BACKUPS]);
        assert GivenRows(entries, t, rows) && (t == BACKUPS ==> Merged(rows, before[t], now[t]));
      } else if t == BACKUPS {
        NothingMissing(before[t]);
      }
    }
  }

  /** The schema can be ordered, and the snapshot is of the same migrations and of no other tables. */
  ghost predicate Acceptable(g: Graph, migrations: seq<string>, snapshot: Snapshot) {
    && (forall p :: !Cycle(g, p))
    && multiset(migrations) == multiset(snapshot.migrations)
    && forall i | 0 <= i < |snapshot.tables| :: snapshot.tables[i].0 in g
  }

  /** The restorable tables are tables of the schema, parents first. */
  lemma RestorableFits(g: Graph, order: seq<string>)
    requires IsOrder(g, order)
    ensures ParentsFirst(g, Restorable(order)) && forall t | t in Restorable(order) :: t in g
  {
    OrderHasParentsFirst(g, order);
    RestorableOrdered(g, order);
    RestorableElems(order);
    forall t | t in Restorable(order) ensures t in g {
      assert t in Elems(Restorable(order));
      assert t in Elems(order);
    }
  }

  lemma AcceptableIff(g: Graph, migrations: seq<string>, snapshot: Snapshot)
    ensures Acceptable(g, migrations, snapshot) <==>
            && OrderOf(g).Some? && multiset(migrations) == multiset(snapshot.migrations)
            && !exists t :: t in ByName(snapshot.tables) && t !in OrderOf(g).value
  {
    OrderIffAcyclic(g);
    if OrderOf(g).Some? {
      var order := OrderOf(g).value;
      assert forall t :: t in order <==> t in Elems(order);
      forall t ensures t in ByName(snapshot.tables) <==> exists i :: 0 <= i < |snapshot.tables| && snapshot.tables[i].0 == t {
        ByNameMeaning(snapshot.tables, t);
      }
    }
  }

  lemma DistinctSize(xs: seq<string>)
    requires Distinct(xs)
    ensures |Elems(xs)| == |xs|
  {
    if xs != [] {
      ElemsOfInit(xs);
      DistinctSize(xs[..|xs| - 1]);
    }
  }

  /** All tables of the schema but the migrations, parents first, and the rows that count. */
  ghost predicate Selected(g: Graph, ts: seq<string>, entries: seq<(string, seq<Row>)>) {
    && ParentsFirst(g, ts) && (forall t :: t in ts <==> t in g && t != "migrations")
    && |ts| == |g.Keys - {"migrations"}|
    && RowCount(ts, ByName(entries)) == LiveRows(entries, {"migrations"})
  }

  lemma RestorableMeaning(g: Graph, order: seq<string>, entries: seq<(string, seq<Row>)>)
    requires IsOrder(g, order) && forall i | 0 <= i < |entries| :: entries[i].0 in g
    ensures Selected(g, Restorable(order), entries)
  {
    var ts, skip := Restorable(order), {"migrations"};
    RestorableElems(order);
    assert forall t :: t in order <==> t in Elems(order);
    RestorableFits(g, order);
    assert Elems(ts) == g.Keys - skip;
    DistinctSize(ts);
    RowCountIsCounted(ts, ByName(entries), skip);
    CountedIsLive(ts, entries, skip);
  }

  /** The checks in front of the transaction, and the tables it is about. */
  method CheckSnapshot(metas: seq<Meta>, foreignKeys: seq<ForeignKey>, snapshot: Snapshot, migrations: seq<string>)
    returns (fits: bool, ts: seq<string>)
    ensures var g := DepsOf(metas, foreignKeys);
      && (fits <==> Acceptable(g, migrations, snapshot))
      && (fits ==> Selected(g, ts, snapshot.tables))
  {
    ghost var g := DepsOf(metas, foreignKeys);
    var order := ComputeOrder(metas, foreignKeys);
    OrderIffAcyclic(g);
    AcceptableIff(g, migrations, snapshot);
    if order.None? || multiset(migrations) != multiset(snapshot.migrations) { return false, []; }
    var byName := ByName(snapshot.tables);
    if exists t :: t in byName && t !in order.value { return false, []; }
    RestorableFits(g, order.value);
    RestorableMeaning(g, order.value, snapshot.tables);
    return true, Restorable(order.value);
  }

  class InstanceBackups {
    var tables: Tables
    var restoring: bool
    const database: Database
    const metas: seq<Meta>
    const foreignKeys: seq<ForeignKey>

    ghost function References(): Graph {
      DepsOf(metas, foreignKeys)
    }

    /** Every entity has its table, and ids are a primary key. */
    ghost predicate Valid()
      reads this
    {
      && (forall t | t in References() :: t in tables)
      && BACKUPS in tables && DistinctIds(tables[BACKUPS])
    }

    constructor (tables: Tables, database: Database, metas: seq<Meta>, foreignKeys: seq<ForeignKey>)
      ensures this.tables == tables && this.database == database && !restoring
      ensures this.metas == metas && this.foreignKeys == foreignKeys
    {
      this.tables, this.database, this.metas, this.foreignKeys, restoring := tables, database, metas, foreignKeys, false;
    }

    /** One restore at a time; the flag is down again afterwards whatever happened. */
    method Restore(snapshot: Snapshot, migrations: seq<string>) returns (r: Report)
      requires Valid()
      modifies this, database
      ensures restoring == old(restoring)
      ensures old(restoring) ==> r == Rejected && tables == old(tables)
      ensures !old(restoring) ==> (r.Rejected? <==> !Acceptable(References(), migrations, snapshot))
      ensures r.Aborted? ==> database.failures > old(database.failures)
      ensures !r.Restored? ==> tables == old(tables)
      ensures r.Restored? ==>
                && RestoredTo(old(tables), tables, References(), snapshot.tables)
                && r == Restored(|References().Keys - {"migrations"}|, LiveRows(snapshot.tables, {"migrations"}))
    {
      if restoring { return Rejected; }
      restoring := true;
      r := ApplySnapshot(snapshot, migrations);
      restoring := false;
    }

    /** Runs under the flag only: no two of these at a time. */
    method ApplySnapshot(snapshot: Snapshot, migrations: seq<string>) returns (r: Report)
      requires Valid() && restoring
      modifies this`tables, database
      // A restore that is not rejected is aborted only when a statement failed.
      ensures r.Aborted? ==> database.failures > old(database.failures)
      // Rejected exactly when the schema or the snapshot does not fit; nothing changes then.
      ensures r.Rejected? <==> !Acceptable(References(), migrations, snapshot)
      ensures !r.Restored? ==> tables == old(tables)
      ensures r.Restored? ==>
                && RestoredTo(old(tables), tables, References(), snapshot.tables)
                && r == Restored(|References().Keys - {"migrations"}|, LiveRows(snapshot.tables, {"migrations"}))
    {
      var fits, ts := CheckSnapshot(metas, foreignKeys, snapshot, migrations);
      if !fits { return Rejected; }
      var byName := ByName(snapshot.tables);
      var ownBackups := tables[BACKUPS];
      var ok, rows, after := RunTransaction(database, tables, ts, byName, ownBackups, References());
      if !ok { return Aborted; }
      FilledIsRestored(tables, after, References(), ts, snapshot.tables);
      tables := after;
      r := Restored(|ts|, rows);
    }
  }

  /** Refilled and merged, the tables are the restored ones. */
  lemma MergedIsRestored(before: Tables, filled: Tables, ts: seq<string>, byName: Tables)
    requires BACKUPS in before && DistinctIds(before[BACKUPS]) && filled.Keys == before.Keys
    requires forall t | t in filled :: filled[t] == if t in ts then DataFor(byName, t) else before[t]
    ensures FilledAndMerged(before, filled[BACKUPS := MergeById(filled[BACKUPS], before[BACKUPS])], ts, byName)
    ensures before[BACKUPS] == [] ==> FilledAndMerged(before, filled, ts, byName)
  {
    MergeMeaning(filled[BACKUPS], before[BACKUPS]);
    assert Missing(filled[BACKUPS], []) == [];
  }

  /** The statements of the transaction; the caller commits or drops their effect. */
  method RunTransaction(database: Database, tables: Tables, ts: seq<string>, byName: Tables, ownBackups: seq<Row>,
                        ghost references: Graph)
    returns (ok: bool, rows: nat, after: Tables)
    requires ParentsFirst(references, ts) && (forall t | t in ts :: t in tables)
    requires BACKUPS in tables && ownBackups == tables[BACKUPS] && DistinctIds(ownBackups)
    modifies database
    ensures !ok ==> database.failures > old(database.failures)
    ensures ok ==> FilledAndMerged(tables, after, ts, byName) && rows == RowCount(ts, byName)
  {
    ghost var scope := Elems(ts);
    ghost var goal: Tables := map t | t in scope :: DataFor(byName, t);
    var tx := new Transaction(tables, database, references, scope, goal);
    rows, after := 0, tables;
    ok := EmptyAll(tx, ts);
    if !ok { return; }
    ok, rows := FillAll(tx, ts, byName);
    if !ok { return; }
    assert ts[..|ts|] == ts;
    ghost var filled := tx.tables;
    MergedIsRestored(tables, filled, ts, byName);
    if ownBackups != [] {
      assert tx.MayFill(BACKUPS) by {
        forall p | p in scope ensures p in filled && filled[p] == goal[p] {
          assert p in ts;
        }
      }
      ok := tx.InsertMissing(BACKUPS, ownBackups);
      if !ok { return; }
    }
    after := tx.tables;
  }
}
