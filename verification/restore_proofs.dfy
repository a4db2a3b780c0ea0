/** When a restore succeeds, and what it leaves. */
module RestoreProofs {
  import opened Contracts
  import opened Restore

  // Inserting ----------------------------------------------------------------------------------

  /** The entries, the first `k` of them as dumped and the others as inserted. */
  function Half(entries: seq<Entry>, k: nat): seq<Entry> {
    seq(|entries|, i requires 0 <= i < |entries| => if i < k then entries[i] else Nulled(entries[i]))
  }

  lemma NulledKeepsReferences(schema: Schema, rows: map<(Table, Id), Row>, e: Entry)
    ensures (exists c :: c in Nulled(e).row.cells && !KeyHolds(schema, rows, e.table, c, Nulled(e).row.cells[c])) <==>
            (exists c :: c in e.row.cells && Some(c) != DeferredColumn(e.table) &&
              !KeyHolds(schema, rows, e.table, c, e.row.cells[c]))
  {
    var n := Nulled(e);
    assert n.row.cells.Keys == e.row.cells.Keys;
    assert forall c :: c in e.row.cells && Some(c) != DeferredColumn(e.table) ==> n.row.cells[c] == e.row.cells[c];
    assert forall c :: c in e.row.cells && Some(c) == DeferredColumn(e.table) ==> n.row.cells[c] == Null;
  }

  lemma InsertOneExact(schema: Schema, db: Db, entries: seq<Entry>, n: nat)
    requires n < |entries| && Holds(db.rows, Half(entries[..n], 0))
    ensures Insert(schema, db, Nulled(entries[n])).Some? <==> EntryOk(schema, entries, n)
  {
    var e := entries[n];
    var rows := db.rows[e.Key() := Nulled(e).row];
    var half := Half(entries[..n], 0);
    forall k ensures k in db.rows <==> exists j :: 0 <= j < n && entries[j].Key() == k {
      if k in db.rows {
        var h :| h in half && h.Key() == k;
        var j :| 0 <= j < n && half[j] == h;
        assert entries[j].Key() == k;
      }
      if j :| 0 <= j < n && entries[j].Key() == k {
        assert half[j] in half;
      }
    }
    assert forall k :: k in rows <==> exists j :: 0 <= j <= n && entries[j].Key() == k;
    NulledKeepsReferences(schema, rows, e);
  }

  lemma InsertOkStep(schema: Schema, entries: seq<Entry>)
    requires |entries| > 0
    ensures InsertOk(schema, entries) <==>
      InsertOk(schema, entries[..|entries| - 1]) && EntryOk(schema, entries, |entries| - 1)
  {
    var n := |entries| - 1;
    forall i | 0 <= i < n ensures EntryOk(schema, entries[..n], i) <==> EntryOk(schema, entries, i) {
      EntryOkInPrefix(schema, entries, n, i);
    }
    hide EntryOk;
  }

  lemma EntryOkInPrefix(schema: Schema, entries: seq<Entry>, n: nat, i: nat)
    requires i < n <= |entries|
    ensures EntryOk(schema, entries[..n], i) <==> EntryOk(schema, entries, i)
  {
    assert forall j :: 0 <= j <= i ==> entries[..n][j] == entries[j];
  }

  lemma InsertAllStep(schema: Schema, db: Db, entries: seq<Entry>)
    requires |entries| > 0
    ensures InsertAll(schema, db, entries) ==
      (match InsertAll(schema, db, entries[..|entries| - 1])
       case None => None
       case Some(before) => Insert(schema, before, Nulled(entries[|entries| - 1])))
  {
    hide Insert, Nulled;
  }

  lemma HalfStep(entries: seq<Entry>)
    requires |entries| > 0
    ensures Half(entries, 0) == Half(entries[..|entries| - 1], 0) + [Nulled(entries[|entries| - 1])]
  {
    hide Nulled;
  }

  lemma InsertStored(schema: Schema, db: Db, e: Entry)
    requires Insert(schema, db, e).Some?
    ensures e.Key() !in db.rows && Insert(schema, db, e).value == db.(rows := db.rows[e.Key() := e.row])
  {
  }

  lemma {:induction false} InsertExact(schema: Schema, next: map<Table, int>, entries: seq<Entry>)
    ensures var r := InsertAll(schema, Db(map[], next), entries);
      && (r.Some? <==> InsertOk(schema, entries))
      && (r.Some? ==> r.value.next == next && Holds(r.value.rows, Half(entries, 0)))
    decreases |entries|
  {
    if |entries| == 0 {
      NothingHeld();
    } else {
      hide InsertAll, Insert, InsertOk, EntryOk, Holds, Half, Nulled;
      var n := |entries| - 1;
      var front := entries[..n];
      InsertExact(schema, next, front);
      InsertOkStep(schema, entries);
      InsertAllStep(schema, Db(map[], next), entries);
      HalfStep(entries);
      var before := InsertAll(schema, Db(map[], next), front);
      if before.Some? {
        InsertOneExact(schema, before.value, entries, n);
        if Insert(schema, before.value, Nulled(entries[n])).Some? {
          InsertStored(schema, before.value, Nulled(entries[n]));
          HoldsExtends(before.value.rows, Half(front, 0), Nulled(entries[n]));
        }
      }
    }
  }

  lemma NothingHeld()
    ensures Holds(map[], Half([], 0))
  {
  }

  lemma HoldsExtends(rows: map<(Table, Id), Row>, entries: seq<Entry>, e: Entry)
    requires Holds(rows, entries) && e.Key() !in rows
    ensures Holds(rows[e.Key() := e.row], entries + [e])
  {
    var rows' := rows[e.Key() := e.row];
    forall k | k in rows' ensures exists x :: x in entries + [e] && x.Key() == k {
      if k == e.Key() {
        assert e in entries + [e];
      } else {
        var x :| x in entries && x.Key() == k;
        assert x in entries + [e];
      }
    }
  }

  // Patching -----------------------------------------------------------------------------------

  ghost predicate Distinct(entries: seq<Entry>) {
    forall i, j :: 0 <= i < j < |entries| ==> entries[i].Key() != entries[j].Key()
  }

  lemma HalfKeys(entries: seq<Entry>, k: nat)
    ensures |Half(entries, k)| == |entries|
    ensures forall i :: 0 <= i < |entries| ==> Half(entries, k)[i].Key() == entries[i].Key()
  {
  }

  lemma HoldsKeys(rows: map<(Table, Id), Row>, entries: seq<Entry>, h: nat, k: (Table, Id))
    requires Holds(rows, Half(entries, h))
    ensures k in rows <==> exists e :: e in entries && e.Key() == k
  {
    var half := Half(entries, h);
    if k in rows {
      var x :| x in half && x.Key() == k;
      var i :| 0 <= i < |half| && half[i] == x;
      assert entries[i] in entries && entries[i].Key() == k;
    }
    if e :| e in entries && e.Key() == k {
      var i :| 0 <= i < |entries| && entries[i] == e;
      assert half[i] in half;
    }
  }

  /** The deferred reference of one entry points to some entry. */
  ghost predicate OnePatchOk(schema: Schema, entries: seq<Entry>, e: Entry) {
    IsDeferred(e) ==>
      var column := DeferredColumn(e.table).value;
      (e.table, column) in schema.references ==>
        e.row.cells[column].IdValue? && exists target ::
          target in entries && target.Key() == (schema.references[(e.table, column)], e.row.cells[column].id)
  }

  lemma PatchOneExact(schema: Schema, db: Db, entries: seq<Entry>, k: nat)
    requires k < |entries| && Distinct(entries) && Holds(db.rows, Half(entries, k)) && IsDeferred(entries[k])
    ensures var r := Update(schema, db, DeferredOf(entries[k])[0]);
      && (r.Some? <==> OnePatchOk(schema, entries, entries[k]))
      && (r.Some? ==> r.value.next == db.next && Holds(r.value.rows, Half(entries, k + 1)))
  {
    var e := entries[k];
    var d := DeferredOf(e)[0];
    var before, after := Half(entries, k), Half(entries, k + 1);
    assert before[k] in before;
    assert db.rows[e.Key()] == Nulled(e).row;
    assert Nulled(e).row.(cells := Nulled(e).row.cells[d.column := d.value]) == e.row by {
      assert e.row.cells[d.column := Null][d.column := d.value] == e.row.cells;
    }
    var rows := db.rows[e.Key() := e.row];
    if d.value.IdValue? && (d.table, d.column) in schema.references {
      HoldsKeys(db.rows, entries, k, (schema.references[(d.table, d.column)], d.value.id));
    }
    assert Holds(rows, after) by {
      forall x | x in after ensures x.Key() in rows && rows[x.Key()] == x.row {
        var i :| 0 <= i < |after| && after[i] == x;
        if i != k {
          assert before[i] == x && before[i] in before;
          assert entries[i].Key() != entries[k].Key();
        }
      }
      forall key | key in rows ensures exists x :: x in after && x.Key() == key {
        HoldsKeys(db.rows, entries, k, key);
        var y :| y in entries && y.Key() == key;
        var i :| 0 <= i < |entries| && entries[i] == y;
        assert after[i] in after && after[i].Key() == key;
      }
    }
  }

  lemma UpdateAppend(schema: Schema, db: Db, updates: seq<Deferred>, d: Deferred)
    ensures UpdateAll(schema, db, updates + [d]) ==
      (match UpdateAll(schema, db, updates) case None => None case Some(before) => Update(schema, before, d))
  {
    hide Update;
    assert (updates + [d])[..|updates|] == updates;
  }

  lemma DeferredsStep(entries: seq<Entry>, n: nat)
    requires n < |entries|
    ensures Deferreds(entries[..n + 1]) == Deferreds(entries[..n]) + DeferredOf(entries[n])
    ensures IsDeferred(entries[n]) ==> DeferredOf(entries[n]) == [DeferredOf(entries[n])[0]]
    ensures !IsDeferred(entries[n]) ==> DeferredOf(entries[n]) == []
  {
    assert entries[..n + 1][..n] == entries[..n];
  }

  lemma NothingToPatch(schema: Schema, entries: seq<Entry>, n: nat)
    requires n < |entries| && !IsDeferred(entries[n])
    ensures Half(entries, n + 1) == Half(entries, n) && OnePatchOk(schema, entries, entries[n])
  {
  }

  ghost predicate FirstPatchesOk(schema: Schema, entries: seq<Entry>, k: nat) {
    k <= |entries| && forall i :: 0 <= i < k ==> OnePatchOk(schema, entries, entries[i])
  }

  lemma {:induction false} PatchExact(schema: Schema, db: Db, entries: seq<Entry>, k: nat)
    requires k <= |entries| && Distinct(entries) && Holds(db.rows, Half(entries, 0))
    ensures var r := UpdateAll(schema, db, Deferreds(entries[..k]));
      && (r.Some? <==> FirstPatchesOk(schema, entries, k))
      && (r.Some? ==> r.value.next == db.next && Holds(r.value.rows, Half(entries, k)))
    decreases k
  {
    if k > 0 {
      hide Update, UpdateAll, Deferreds, DeferredOf, IsDeferred, Holds, Half, OnePatchOk, Distinct;
      var n := k - 1;
      PatchExact(schema, db, entries, n);
      DeferredsStep(entries, n);
      if IsDeferred(entries[n]) {
        var d := DeferredOf(entries[n])[0];
        UpdateAppend(schema, db, Deferreds(entries[..n]), d);
        var before := UpdateAll(schema, db, Deferreds(entries[..n]));
        if before.Some? { PatchOneExact(schema, before.value, entries, n); }
      } else {
        NothingToPatch(schema, entries, n);
        assert Deferreds(entries[..n]) + [] == Deferreds(entries[..n]);
      }
    }
  }

  // Sequences ----------------------------------------------------------------------------------

  ghost predicate SerialOkFor(schema: Schema, dump: LogicalDump, t: Table) {
    t in schema.serial && |dump.Rows(t)| > 0 ==>
      exists i :: 0 <= i < |dump.Rows(t)| && dump.Rows(t)[i].id.Serial? && dump.Rows(t)[i].id.n >= 1
  }

  /** The sequence of `t` is past every id among its rows. */
  ghost predicate NextAbove(schema: Schema, next: map<Table, int>, dump: LogicalDump, t: Table) {
    t in schema.serial && |dump.Rows(t)| > 0 ==>
      t in next && forall i :: 0 <= i < |dump.Rows(t)| && dump.Rows(t)[i].id.Serial? ==> dump.Rows(t)[i].id.n < next[t]
  }

  /** One past the greatest id among the rows of `t`. */
  ghost predicate PastGreatest(dump: LogicalDump, t: Table, value: int) {
    && (forall i :: 0 <= i < |dump.Rows(t)| && dump.Rows(t)[i].id.Serial? ==> dump.Rows(t)[i].id.n < value)
    && (exists i :: 0 <= i < |dump.Rows(t)| && dump.Rows(t)[i].id == Serial(value - 1))
  }

  /** The sequences of these tables, if serial and with rows, are one past their greatest id; no other
      sequence has moved. */
  ghost predicate Moved(schema: Schema, dump: LogicalDump, tables: seq<Table>, next: map<Table, int>,
      next': map<Table, int>)
  {
    forall t ::
      if t in tables && t in schema.serial && |dump.Rows(t)| > 0 then t in next' && PastGreatest(dump, t, next'[t])
      else (t in next' <==> t in next) && (t in next ==> next'[t] == next[t])
  }

  lemma {:induction false} SyncExact(schema: Schema, db: Db, dump: LogicalDump, tables: seq<Table>)
    requires forall t, i :: t in tables && t in schema.serial && 0 <= i < |dump.Rows(t)| ==> dump.Rows(t)[i].id.Serial?
    ensures var r := SyncAll(schema, db, dump, tables);
      && (r.Some? <==> forall t :: t in tables ==> SerialOkFor(schema, dump, t))
      && (r.Some? ==> r.value.rows == db.rows && Moved(schema, dump, tables, db.next, r.value.next))
    decreases |tables|
  {
    if |tables| > 0 {
      var n := |tables| - 1;
      var t := tables[n];
      assert forall u :: u in tables <==> u in tables[..n] || u == t;
      SyncExact(schema, db, dump, tables[..n]);
      if |dump.Rows(t)| > 0 && t in schema.serial {
        assert dump.Rows(t)[0].id.Serial?;
        assert MaxSerial(dump.Rows(t)).value >= 1 <==> SerialOkFor(schema, dump, t);
      }
    }
  }

  lemma MovedAbove(schema: Schema, dump: LogicalDump, tables: seq<Table>, next: map<Table, int>, next': map<Table, int>)
    requires Moved(schema, dump, tables, next, next')
    ensures forall t :: t in tables ==> NextAbove(schema, next', dump, t)
  {
  }

  // The flattened dump -------------------------------------------------------------------------

  lemma {:induction false} FlatMembers(dump: LogicalDump, tables: seq<Table>, e: Entry)
    ensures e in Flat(dump, tables) <==> e.table in tables && e.row in dump.Rows(e.table)
    decreases |tables|
  {
    if |tables| > 0 {
      var n := |tables| - 1;
      var t := tables[n];
      FlatMembers(dump, tables[..n], e);
      var last := Tagged(t, dump.Rows(t));
      assert forall u :: u in tables <==> u in tables[..n] || u == t;
      if e.table == t && e.row in dump.Rows(t) {
        var i :| 0 <= i < |dump.Rows(t)| && dump.Rows(t)[i] == e.row;
        assert last[i] == e;
      }
    }
  }

  // The main results ---------------------------------------------------------------------------

  /** A restore into an empty database commits exactly when the dump is restorable, and then the
      database holds exactly the dump's rows and every serial sequence is past all restored ids. */
  lemma {:induction false} RestoreExact(schema: Schema, next: map<Table, int>, dump: LogicalDump)
    ensures var r := Restored(schema, Db(map[], next), dump);
      && (r.Some? <==> Restorable(schema, dump))
      && (r.Some? ==>
            && Holds(r.value.rows, Flat(dump, RESTORE_TABLES))
            && forall t :: t in RESTORE_TABLES ==> NextAbove(schema, r.value.next, dump, t))
  {
    hide RESTORE_TABLES, Half, InsertAll, UpdateAll, SyncAll, Deferreds, Flat;
    if dump.schemaVersion == SCHEMA_VERSION {
      var entries := Flat(dump, RESTORE_TABLES);
      var db := Db(map[], next);
      InsertExact(schema, next, entries);
      if InsertOk(schema, entries) {
        var inserted := InsertAll(schema, db, entries).value;
        assert Distinct(entries) by {
          forall i, j | 0 <= i < j < |entries| ensures entries[i].Key() != entries[j].Key() {
            assert EntryOk(schema, entries, j);
          }
        }
        PatchExact(schema, inserted, entries, |entries|);
        assert entries[..|entries|] == entries;
        HalfFull(entries);
        assert PatchOk(schema, entries) <==> forall i :: 0 <= i < |entries| ==> OnePatchOk(schema, entries, entries[i]);
        SerialIds(schema, dump, entries);
        assert SerialOk(schema, dump) <==> forall t :: t in RESTORE_TABLES ==> SerialOkFor(schema, dump, t);
        if PatchOk(schema, entries) {
          var patched := UpdateAll(schema, inserted, Deferreds(entries)).value;
          SyncExact(schema, patched, dump, RESTORE_TABLES);
          if SerialOk(schema, dump) {
            MovedAbove(schema, dump, RESTORE_TABLES, next, SyncAll(schema, patched, dump, RESTORE_TABLES).value.next);
          }
        }
      }
    }
  }

  lemma HalfFull(entries: seq<Entry>)
    ensures Half(entries, |entries|) == entries
  {
  }

  lemma SerialIds(schema: Schema, dump: LogicalDump, entries: seq<Entry>)
    requires entries == Flat(dump, RESTORE_TABLES) && InsertOk(schema, entries)
    ensures forall t, i :: t in RESTORE_TABLES && t in schema.serial && 0 <= i < |dump.Rows(t)| ==>
      dump.Rows(t)[i].id.Serial?
  {
    forall t, i | t in RESTORE_TABLES && t in schema.serial && 0 <= i < |dump.Rows(t)|
      ensures dump.Rows(t)[i].id.Serial?
    {
      var e := Entry(t, dump.Rows(t)[i]);
      FlatMembers(dump, RESTORE_TABLES, e);
      var j :| 0 <= j < |entries| && entries[j] == e;
      assert EntryOk(schema, entries, j);
    }
  }

  // Attempts that fail -------------------------------------------------------------------------

  /** Where the synchronisation stops: at the first table whose greatest id is not positive, or when
      the connection is lost. */
  ghost predicate StopsAt(schema: Schema, dump: LogicalDump, reach: nat, k: nat) {
    && k <= |RESTORE_TABLES| && k <= reach
    && (forall i :: 0 <= i < k ==> SerialOkFor(schema, dump, RESTORE_TABLES[i]))
    && (k < |RESTORE_TABLES| && k < reach ==> !SerialOkFor(schema, dump, RESTORE_TABLES[k]))
  }

  lemma ThroughExact(schema: Schema, db: Db, dump: LogicalDump, reach: nat)
    requires forall t, i :: t in RESTORE_TABLES && t in schema.serial && 0 <= i < |dump.Rows(t)| ==>
      dump.Rows(t)[i].id.Serial?
    ensures var k := Through(schema, db, dump, RESTORE_TABLES, reach);
      && StopsAt(schema, dump, reach, k)
      && Moved(schema, dump, RESTORE_TABLES[..k], db.next, SyncAll(schema, db, dump, RESTORE_TABLES[..k]).value.next)
  {
    hide RESTORE_TABLES, SyncAll, SerialOkFor, Moved;
    var k := Through(schema, db, dump, RESTORE_TABLES, reach);
    var front := RESTORE_TABLES[..k];
    SyncExact(schema, db, dump, front);
    forall i | 0 <= i < k ensures SerialOkFor(schema, dump, RESTORE_TABLES[i]) { assert front[i] in front; }
    if k < |RESTORE_TABLES| && k < reach {
      var more := RESTORE_TABLES[..k + 1];
      assert forall t :: t in more <==> t in front || t == RESTORE_TABLES[k];
      SyncExact(schema, db, dump, more);
    }
  }

  /** The rows go in exactly when they can be inserted and patched, and no sequence moves with them. */
  lemma RowsExact(schema: Schema, next: map<Table, int>, dump: LogicalDump)
    requires dump.schemaVersion == SCHEMA_VERSION
    ensures var entries := Flat(dump, RESTORE_TABLES);
      var inserted := InsertAll(schema, Db(map[], next), entries);
      var patched := if inserted.None? then None else UpdateAll(schema, inserted.value, Deferreds(entries));
      && (patched.Some? <==> RowsRestorable(schema, dump))
      && (patched.Some? ==> patched.value.next == next)
    ensures RowsRestorable(schema, dump) ==>
      forall t, i :: t in RESTORE_TABLES && t in schema.serial && 0 <= i < |dump.Rows(t)| ==> dump.Rows(t)[i].id.Serial?
  {
    hide RESTORE_TABLES, Half, InsertAll, UpdateAll, Deferreds, Flat;
    var entries := Flat(dump, RESTORE_TABLES);
    InsertExact(schema, next, entries);
    if InsertOk(schema, entries) {
      assert Distinct(entries) by {
        forall i, j | 0 <= i < j < |entries| ensures entries[i].Key() != entries[j].Key() {
          assert EntryOk(schema, entries, j);
        }
      }
      PatchExact(schema, InsertAll(schema, Db(map[], next), entries).value, entries, |entries|);
      assert entries[..|entries|] == entries;
      assert PatchOk(schema, entries) <==> forall i :: 0 <= i < |entries| ==> OnePatchOk(schema, entries, entries[i]);
      SerialIds(schema, dump, entries);
    }
  }

  /** An attempt commits exactly when the dump is restorable and the connection lasts. Otherwise it
      leaves the rows as they were, and moves sequences only if the rows had gone in: those of the
      serial tables with rows before the one where the synchronisation stopped. */
  lemma {:induction false} AttemptExact(schema: Schema, next: map<Table, int>, dump: LogicalDump, reach: nat)
    ensures var r := Attempt(schema, Db(map[], next), dump, reach);
      && (r.committed <==> Restorable(schema, dump) && |RESTORE_TABLES| < reach)
      && (r.committed ==> Restored(schema, Db(map[], next), dump) == Some(r.db))
      && (!r.committed ==> r.db.rows == map[])
      && (!RowsRestorable(schema, dump) ==> r.db.next == next)
      && (RowsRestorable(schema, dump) ==> exists k: nat ::
            StopsAt(schema, dump, reach, k) && Moved(schema, dump, RESTORE_TABLES[..k], next, r.db.next))
  {
    hide RESTORE_TABLES, InsertAll, UpdateAll, SyncAll, Deferreds, Flat, SerialOkFor, Moved, RowsRestorable;
    if dump.schemaVersion == SCHEMA_VERSION {
      RowsExact(schema, next, dump);
      RestoreExact(schema, next, dump);
      if RowsRestorable(schema, dump) {
        var entries := Flat(dump, RESTORE_TABLES);
        var inserted := InsertAll(schema, Db(map[], next), entries).value;
        var patched := UpdateAll(schema, inserted, Deferreds(entries)).value;
        var k := Through(schema, patched, dump, RESTORE_TABLES, reach);
        ThroughExact(schema, patched, dump, reach);
        assert RESTORE_TABLES[..|RESTORE_TABLES|] == RESTORE_TABLES;
        if k == |RESTORE_TABLES| {
          AllStops(schema, dump, reach);
        } else {
          SomeRefused(schema, patched, dump, reach);
        }
      }
    } else {
      WrongVersion(schema, dump);
    }
  }

  lemma AllStops(schema: Schema, dump: LogicalDump, reach: nat)
    requires StopsAt(schema, dump, reach, |RESTORE_TABLES|)
    ensures SerialOk(schema, dump)
  {
    hide RESTORE_TABLES;
    forall t | t in RESTORE_TABLES ensures SerialOkFor(schema, dump, t) {
      var i :| 0 <= i < |RESTORE_TABLES| && RESTORE_TABLES[i] == t;
    }
  }

  lemma SomeRefused(schema: Schema, db: Db, dump: LogicalDump, reach: nat)
    requires StopsAt(schema, dump, reach, Through(schema, db, dump, RESTORE_TABLES, reach))
    requires Through(schema, db, dump, RESTORE_TABLES, reach) < |RESTORE_TABLES|
    ensures !(SerialOk(schema, dump) && |RESTORE_TABLES| < reach)
  {
    hide RESTORE_TABLES, Through;
    var k := Through(schema, db, dump, RESTORE_TABLES, reach);
    assert RESTORE_TABLES[k] in RESTORE_TABLES;
    assert SerialOk(schema, dump) ==> SerialOkFor(schema, dump, RESTORE_TABLES[k]);
  }

  lemma WrongVersion(schema: Schema, dump: LogicalDump)
    requires dump.schemaVersion != SCHEMA_VERSION
    ensures !RowsRestorable(schema, dump)
  {
  }

  datatype Try = Try(dump: LogicalDump, reach: nat)

  function Attempts(schema: Schema, db: Db, tries: seq<Try>): Db {
    if |tries| == 0 then db
    else
      var n := |tries| - 1;
      Attempt(schema, Attempts(schema, db, tries[..n]), tries[n].dump, tries[n].reach).db
  }

  /** However many attempts have failed, and wherever they left the sequences, the next restorable dump
      restores as into a fresh target. */
  lemma {:induction false} RestoresAfterFailures(schema: Schema, next: map<Table, int>, tries: seq<Try>,
    dump: LogicalDump)
    requires forall i :: 0 <= i < |tries| ==>
      !(Restorable(schema, tries[i].dump) && |RESTORE_TABLES| < tries[i].reach)
    ensures var db := Attempts(schema, Db(map[], next), tries);
      var r := Restored(schema, db, dump);
      && db.rows == map[]
      && (r.Some? <==> Restorable(schema, dump))
      && (r.Some? ==>
            && Holds(r.value.rows, Flat(dump, RESTORE_TABLES))
            && forall t :: t in RESTORE_TABLES ==> NextAbove(schema, r.value.next, dump, t))
  {
    hide RESTORE_TABLES, Restored, Attempt, Restorable, RowsRestorable, Holds, NextAbove, Flat, Moved, StopsAt;
    if |tries| > 0 {
      var n := |tries| - 1;
      RestoresAfterFailures(schema, next, tries[..n], dump);
      var before := Attempts(schema, Db(map[], next), tries[..n]);
      assert before == Db(map[], before.next);
      AttemptExact(schema, before.next, tries[n].dump, tries[n].reach);
    }
    var db := Attempts(schema, Db(map[], next), tries);
    assert db == Db(map[], db.next);
    RestoreExact(schema, db.next, dump);
  }
}
