/** The restore as it runs: one transaction over the database, whose rows are rolled back on any
    failure, the sequences it has moved are not. */
module RestoreTarget {
  import opened Contracts
  import opened Restore
  import opened RestoreProofs

  class Target {
    var db: Db

    constructor (next: map<Table, int>)
      ensures db == Db(map[], next)
    {
      db := Db(map[], next);
    }

    /** Restores `dump`, or leaves the rows as they were. The connection is lost after `reach` tables'
        sequences have been moved; it lasts if that is more than there are. */
    method RestoreLogicalDump(schema: Schema, dump: LogicalDump, reach: nat) returns (committed: bool)
      modifies this
      ensures committed == (old(db.rows) == map[] && Restorable(schema, dump) && |RESTORE_TABLES| < reach)
      ensures committed ==>
        && Holds(db.rows, Flat(dump, RESTORE_TABLES))
        && forall t :: t in RESTORE_TABLES ==> NextAbove(schema, db.next, dump, t)
      ensures !committed ==> db.rows == old(db.rows)
      ensures !committed && !(old(db.rows) == map[] && RowsRestorable(schema, dump)) ==> db.next == old(db.next)
      ensures !committed && old(db.rows) == map[] && RowsRestorable(schema, dump) ==>
        exists k: nat :: StopsAt(schema, dump, reach, k) &&
          Moved(schema, dump, RESTORE_TABLES[..k], old(db.next), db.next)
      ensures Attempted(db, committed) == Attempt(schema, old(db), dump, reach)
    {
      hide RESTORE_TABLES, Flat, Deferreds, InsertAll, UpdateAll, SyncAll, Holds, Moved, StopsAt;
      if db.rows == map[] {
        assert db == Db(map[], db.next);
        RestoreExact(schema, db.next, dump);
        AttemptExact(schema, db.next, dump, reach);
      }
      hide RowsRestorable, SerialOk;
      if dump.schemaVersion != SCHEMA_VERSION || db.rows != map[] {
        return false;
      }
      var inserted, deferred := InsertTables(schema, db, dump, RESTORE_TABLES);
      if inserted.None? {
        return false;
      }
      var patched := ApplyDeferred(schema, inserted.value, deferred);
      if patched.None? {
        return false;
      }
      var synchronized, k := SynchronizeSequences(schema, patched.value, dump, RESTORE_TABLES, reach);
      db := db.(next := synchronized.next);
      if k < |RESTORE_TABLES| || k == reach {
        return false;
      }
      db := db.(rows := synchronized.rows);
      committed := true;
    }
  }

  /** Inserts every row, nulling and remembering the deferred references. */
  method InsertTables(schema: Schema, start: Db, dump: LogicalDump, tables: seq<Table>)
      returns (result: Option<Db>, deferred: seq<Deferred>)
    ensures result == InsertAll(schema, start, Flat(dump, tables))
    ensures result.Some? ==> deferred == Deferreds(Flat(dump, tables))
  {
    var tx := start;
    deferred := [];
    for k := 0 to |tables|
      invariant InsertAll(schema, start, Flat(dump, tables[..k])) == Some(tx)
      invariant deferred == Deferreds(Flat(dump, tables[..k]))
    {
      var t := tables[k];
      ghost var front := Flat(dump, tables[..k]);
      assert tables[..k + 1][..k] == tables[..k];
      assert Flat(dump, tables[..k + 1]) == front + Tagged(t, dump.Rows(t));
      var inserted, more := InsertRows(schema, start, front, tx, deferred, t, dump.Rows(t));
      if inserted.None? {
        FlatPrefix(dump, tables, k + 1);
        assert Flat(dump, tables)[..|Flat(dump, tables[..k + 1])|] == Flat(dump, tables[..k + 1]);
        InsertFails(schema, start, Flat(dump, tables), |Flat(dump, tables[..k + 1])|);
        return None, [];
      }
      tx, deferred := inserted.value, more;
    }
    assert tables[..|tables|] == tables;
    result := Some(tx);
  }

  /** Inserts the rows of one table after those of the earlier tables, `front`. */
  method InsertRows(schema: Schema, ghost start: Db, ghost front: seq<Entry>, before: Db, deferredBefore: seq<Deferred>,
      t: Table, rows: seq<Row>)
      returns (result: Option<Db>, deferred: seq<Deferred>)
    requires InsertAll(schema, start, front) == Some(before) && deferredBefore == Deferreds(front)
    ensures result == InsertAll(schema, start, front + Tagged(t, rows))
    ensures result.Some? ==> deferred == Deferreds(front + Tagged(t, rows))
  {
    hide Insert, Nulled, DeferredOf, InsertAll, Deferreds;
    var tx := before;
    deferred := deferredBefore;
    ghost var all := front + Tagged(t, rows);
    assert all[..|front|] == front;
    for j := 0 to |rows|
      invariant InsertAll(schema, start, all[..|front| + j]) == Some(tx)
      invariant deferred == Deferreds(all[..|front| + j])
    {
      var e := Entry(t, rows[j]);
      assert all[|front| + j] == e;
      InsertStep(schema, start, all, |front| + j);
      deferred := deferred + DeferredOf(e);
      match Insert(schema, tx, Nulled(e)) {
        case None =>
          InsertFails(schema, start, all, |front| + j + 1);
          return None, [];
        case Some(next) =>
          tx := next;
      }
    }
    assert all[..|all|] == all;
    result := Some(tx);
  }

  lemma InsertStep(schema: Schema, start: Db, all: seq<Entry>, k: nat)
    requires k < |all|
    ensures InsertAll(schema, start, all[..k + 1]) ==
      (match InsertAll(schema, start, all[..k])
       case None => None
       case Some(before) => Insert(schema, before, Nulled(all[k])))
    ensures Deferreds(all[..k + 1]) == Deferreds(all[..k]) + DeferredOf(all[k])
  {
    assert all[..k + 1][..k] == all[..k];
  }

  /** Patches the deferred references one by one. */
  method ApplyDeferred(schema: Schema, start: Db, deferred: seq<Deferred>) returns (result: Option<Db>)
    ensures result == UpdateAll(schema, start, deferred)
  {
    var tx := start;
    for i := 0 to |deferred|
      invariant UpdateAll(schema, start, deferred[..i]) == Some(tx)
    {
      assert deferred[..i + 1][..i] == deferred[..i];
      match Update(schema, tx, deferred[i]) {
        case None =>
          UpdateFails(schema, start, deferred, i + 1);
          return None;
        case Some(next) =>
          tx := next;
      }
    }
    assert deferred[..|deferred|] == deferred;
    result := Some(tx);
  }

  /** Moves the serial sequences past the ids of their restored rows, table after table, until one is
      refused or the connection is lost. */
  method SynchronizeSequences(schema: Schema, start: Db, dump: LogicalDump, tables: seq<Table>, reach: nat)
      returns (tx: Db, k: nat)
    ensures k == Through(schema, start, dump, tables, reach)
    ensures SyncAll(schema, start, dump, tables[..k]) == Some(tx)
  {
    tx, k := start, 0;
    while k < |tables| && k < reach
      invariant k <= |tables| && k <= reach
      invariant SyncAll(schema, start, dump, tables[..k]) == Some(tx)
    {
      assert tables[..k + 1][..k] == tables[..k];
      match SyncOne(schema, tx, dump, tables[k]) {
        case None =>
          ThroughUnique(schema, start, dump, tables, reach, k);
          return;
        case Some(next) =>
          tx, k := next, k + 1;
      }
    }
    ThroughUnique(schema, start, dump, tables, reach, k);
  }

  /** There is only one place to stop: what is refused once is refused whatever follows. */
  lemma ThroughUnique(schema: Schema, db: Db, dump: LogicalDump, tables: seq<Table>, reach: nat, k: nat)
    requires k <= |tables| && k <= reach && SyncAll(schema, db, dump, tables[..k]).Some?
    requires k < |tables| && k < reach ==> SyncAll(schema, db, dump, tables[..k + 1]).None?
    ensures k == Through(schema, db, dump, tables, reach)
  {
    var m := Through(schema, db, dump, tables, reach);
    if m < k {
      assert tables[..k][..m + 1] == tables[..m + 1];
      SyncFails(schema, db, dump, tables[..k], m + 1);
    } else if k < m {
      assert tables[..m][..k + 1] == tables[..k + 1];
      SyncFails(schema, db, dump, tables[..m], k + 1);
    }
  }

  // A step that fails fails the whole list --------------------------------------------------

  lemma {:induction false} FlatPrefix(dump: LogicalDump, tables: seq<Table>, k: nat)
    requires k <= |tables|
    ensures Flat(dump, tables[..k]) <= Flat(dump, tables)
    decreases |tables|
  {
    if k < |tables| {
      var n := |tables| - 1;
      assert tables[..n][..k] == tables[..k];
      FlatPrefix(dump, tables[..n], k);
    } else {
      assert tables[..k] == tables;
    }
  }

  lemma {:induction false} InsertFails(schema: Schema, db: Db, entries: seq<Entry>, n: nat)
    requires n <= |entries| && InsertAll(schema, db, entries[..n]).None?
    ensures InsertAll(schema, db, entries).None?
    decreases |entries|
  {
    if n < |entries| {
      var front := entries[..|entries| - 1];
      assert front[..n] == entries[..n];
      InsertFails(schema, db, front, n);
    } else {
      assert entries[..n] == entries;
    }
  }

  lemma {:induction false} UpdateFails(schema: Schema, db: Db, updates: seq<Deferred>, n: nat)
    requires n <= |updates| && UpdateAll(schema, db, updates[..n]).None?
    ensures UpdateAll(schema, db, updates).None?
    decreases |updates|
  {
    if n < |updates| {
      var front := updates[..|updates| - 1];
      assert front[..n] == updates[..n];
      UpdateFails(schema, db, front, n);
    } else {
      assert updates[..n] == updates;
    }
  }

  lemma {:induction false} SyncFails(schema: Schema, db: Db, dump: LogicalDump, tables: seq<Table>, n: nat)
    requires n <= |tables| && SyncAll(schema, db, dump, tables[..n]).None?
    ensures SyncAll(schema, db, dump, tables).None?
    decreases |tables|
  {
    if n < |tables| {
      var front := tables[..|tables| - 1];
      assert front[..n] == tables[..n];
      SyncFails(schema, db, dump, front, n);
    } else {
      assert tables[..n] == tables;
    }
  }
}
