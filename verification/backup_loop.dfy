/** Dumping a consistent database and restoring the dump gives the database back. */
module BackupLoop {
  import opened Contracts
  import opened Order
  import opened Restore
  import opened RestoreProofs

  // The two table lists ----------------------------------------------------------------------

  /** The place of a table in the restore order. */
  function Rank(t: Table): (r: nat)
    ensures r < 32
  {
    match t
    case Users => 0
    case UsersRoles => 1
    case UsersServiceScopes => 2
    case UsersSessions => 3
    case Media => 4
    case Sources => 5
    case PromptArtifacts => 6
    case TaxonomyNodes => 7
    case TaxonomyNodesRels => 8
    case PageRecords => 9
    case PageRecordsPrimaryKeywordByLocale => 10
    case LocaleVariants => 11
    case Edges => 12
    case AuditEvents => 13
    case ModuleEnvelopes => 14
    case PublicationSnapshots => 15
    case PublicationStates => 16
    case ActivePublicationPointers => 17
    case Redirects => 18
    case WorkflowRuns => 19
    case DeletionRequests => 20
    case PayloadKv => 21
    case PayloadLockedDocuments => 22
    case PayloadPreferences => 23
    case PromptArtifactsPromptVariables => 24
    case PromptArtifactsRels => 25
    case PageRecordsRels => 26
    case LocaleVariantsRels => 27
    case EdgesRels => 28
    case ModuleEnvelopesRels => 29
    case PayloadLockedDocumentsRels => 30
    case PayloadPreferencesRels => 31
  }

  function DumpRank(t: Table): (r: nat)
    ensures r < 32
  {
    match t
    case Users => 0
    case UsersRoles => 1
    case UsersServiceScopes => 2
    case UsersSessions => 3
    case Media => 4
    case Sources => 5
    case PromptArtifacts => 6
    case PromptArtifactsPromptVariables => 7
    case PromptArtifactsRels => 8
    case TaxonomyNodes => 9
    case TaxonomyNodesRels => 10
    case PageRecords => 11
    case PageRecordsPrimaryKeywordByLocale => 12
    case PageRecordsRels => 13
    case LocaleVariants => 14
    case LocaleVariantsRels => 15
    case Edges => 16
    case EdgesRels => 17
    case AuditEvents => 18
    case ModuleEnvelopes => 19
    case ModuleEnvelopesRels => 20
    case PublicationSnapshots => 21
    case PublicationStates => 22
    case ActivePublicationPointers => 23
    case Redirects => 24
    case WorkflowRuns => 25
    case DeletionRequests => 26
    case PayloadKv => 27
    case PayloadLockedDocuments => 28
    case PayloadLockedDocumentsRels => 29
    case PayloadPreferences => 30
    case PayloadPreferencesRels => 31
  }

  lemma RestoreRank(i: nat)
    requires i < 32
    ensures |RESTORE_TABLES| == 32 && Rank(RESTORE_TABLES[i]) == i
  {
    if i < 8 {
    } else if i < 16 {
    } else if i < 24 {
    }
  }

  lemma DumpTableRank(i: nat)
    requires i < 32
    ensures |DUMP_TABLES| == 32 && DumpRank(DUMP_TABLES[i]) == i
  {
    if i < 8 {
    } else if i < 16 {
    } else if i < 24 {
    }
  }

  /** Every table is listed, once. */
  ghost predicate ListsAll(tables: seq<Table>) {
    && (forall t: Table :: t in tables)
    && (forall i, j :: 0 <= i < j < |tables| ==> tables[i] != tables[j])
  }

  lemma InRestore(t: Table)
    ensures t in RESTORE_TABLES
  {
  }

  lemma InDump(t: Table)
    ensures t in DUMP_TABLES
  {
  }

  lemma RankedListsAll(tables: seq<Table>, rank: Table -> nat)
    requires forall i :: 0 <= i < |tables| ==> rank(tables[i]) == i
    requires forall t: Table :: t in tables
    ensures ListsAll(tables)
  {
    forall i, j | 0 <= i < j < |tables|
      ensures tables[i] != tables[j]
    {
      assert rank(tables[i]) != rank(tables[j]);
    }
  }

  /** Both lists name every table exactly once, so no dumped table is left out of the restore. */
  lemma {:induction false} EveryTableOnce()
    ensures ListsAll(RESTORE_TABLES) && ListsAll(DUMP_TABLES)
  {
    hide ListsAll, Rank, DumpRank;
    RestoreRank(0);
    DumpTableRank(0);
    forall t: Table ensures t in RESTORE_TABLES { InRestore(t); }
    forall t: Table ensures t in DUMP_TABLES { InDump(t); }
    forall i | 0 <= i < 32 ensures Rank(RESTORE_TABLES[i]) == i { RestoreRank(i); }
    forall i | 0 <= i < 32 ensures DumpRank(DUMP_TABLES[i]) == i { DumpTableRank(i); }
    RankedListsAll(RESTORE_TABLES, Rank);
    RankedListsAll(DUMP_TABLES, DumpRank);
  }

  // Reading a database -----------------------------------------------------------------------

  /** The order of ORDER BY id. */
  predicate IdBefore(a: Id, b: Id) {
    match (a, b)
    case (Serial(m), Serial(n)) => m < n
    case (Serial(_), Name(_)) => true
    case (Name(_), Serial(_)) => false
    case (Name(s), Name(t)) => LexLess(s, t, CharBefore)
  }

  predicate RowBefore(a: Row, b: Row) {
    IdBefore(a.id, b.id)
  }

  lemma IdAsymmetric(a: Id, b: Id)
    requires IdBefore(a, b)
    ensures !IdBefore(b, a) && a != b
  {
    CharOrder();
    if a.Name? && b.Name? { LexAsymmetric(a.text, b.text, CharBefore); }
  }

  lemma RowsAsymmetric()
    ensures Asymmetric(RowBefore)
  {
    forall a, b | RowBefore(a, b) ensures !RowBefore(b, a) { IdAsymmetric(a.id, b.id); }
  }

  /** `rows` is what SELECT * FROM t ORDER BY id returns. */
  ghost predicate Selects(db: Db, t: Table, rows: seq<Row>) {
    && Ascending(rows, RowBefore)
    && (forall r :: r in rows ==> (t, r.id) in db.rows && db.rows[(t, r.id)] == r)
    && (forall k :: k in db.rows && k.0 == t ==> db.rows[k] in rows)
  }

  /** `dump` is what readLogicalDump returns. */
  ghost predicate ReadsAs(db: Db, dump: LogicalDump) {
    && dump.schemaVersion == SCHEMA_VERSION
    && dump.tables.Keys == (set t | t in DUMP_TABLES)
    && forall t :: t in DUMP_TABLES ==> Selects(db, t, dump.tables[t])
  }

  lemma {:induction false} SelectUnique(db: Db, t: Table, a: seq<Row>, b: seq<Row>)
    requires Selects(db, t, a) && Selects(db, t, b)
    ensures a == b
  {
    RowsAsymmetric();
    SameMembers(a, b, RowBefore);
  }

  // Consistent sources -------------------------------------------------------------------------

  ghost predicate PositiveIn(db: Db, t: Table) {
    (exists k :: k in db.rows && k.0 == t) ==> exists k :: k in db.rows && k.0 == t && k.1.Serial? && k.1.n >= 1
  }

  /** Primary keys, id types and foreign keys hold, and a serial table with rows has a positive id. */
  ghost predicate Consistent(schema: Schema, db: Db) {
    && (forall k :: k in db.rows ==> db.rows[k].id == k.1 && (k.0 in schema.serial ==> k.1.Serial?))
    && (forall k, c :: k in db.rows && c in db.rows[k].cells ==> KeyHolds(schema, db.rows, k.0, c, db.rows[k].cells[c]))
    && (forall t :: t in schema.serial ==> PositiveIn(db, t))
  }

  /** Every reference but the two deferred ones points to an earlier table of the list. */
  ghost predicate Ordered(schema: Schema, tables: seq<Table>) {
    forall i, j, c :: 0 <= i < |tables| && 0 <= j < |tables| ==>
      ((tables[i], c) in schema.references && Some(c) != DeferredColumn(tables[i]) && schema.references[(tables[i], c)] == tables[j] ==> j < i)
  }

  /** The dump lists every table of the database. */
  ghost predicate ReadsAll(db: Db, dump: LogicalDump) {
    forall t: Table :: t in dump.tables && Selects(db, t, dump.tables[t])
  }

  lemma ParentExists(schema: Schema, db: Db, k: (Table, Id), c: string)
    requires Consistent(schema, db) && k in db.rows && c in db.rows[k].cells
    requires (k.0, c) in schema.references && db.rows[k].cells[c] != Null
    ensures var v := db.rows[k].cells[c];
      v.IdValue? && (schema.references[(k.0, c)], v.id) in db.rows &&
        db.rows[(schema.references[(k.0, c)], v.id)].id == v.id
  {
    assert KeyHolds(schema, db.rows, k.0, c, db.rows[k].cells[c]);
  }

  lemma SelectedRow(db: Db, dump: LogicalDump, t: Table, x: nat)
    requires ReadsAll(db, dump) && x < |dump.Rows(t)|
    ensures (t, dump.Rows(t)[x].id) in db.rows && db.rows[(t, dump.Rows(t)[x].id)] == dump.Rows(t)[x]
  {
    assert Selects(db, t, dump.tables[t]);
    assert dump.Rows(t)[x] in dump.tables[t];
  }

  lemma RowSelected(db: Db, dump: LogicalDump, k: (Table, Id)) returns (x: nat)
    requires ReadsAll(db, dump) && k in db.rows
    ensures x < |dump.Rows(k.0)| && dump.Rows(k.0)[x] == db.rows[k]
  {
    assert Selects(db, k.0, dump.tables[k.0]) && db.rows[k] in dump.Rows(k.0);
    x :| 0 <= x < |dump.Rows(k.0)| && dump.Rows(k.0)[x] == db.rows[k];
  }

  lemma EarlierTable(schema: Schema, tables: seq<Table>, k: nat, c: string) returns (p: nat)
    requires ListsAll(tables) && Ordered(schema, tables) && k < |tables|
    requires (tables[k], c) in schema.references && Some(c) != DeferredColumn(tables[k])
    ensures p < k && tables[p] == schema.references[(tables[k], c)]
  {
    assert schema.references[(tables[k], c)] in tables;
    p :| 0 <= p < |tables| && tables[p] == schema.references[(tables[k], c)];
  }

  lemma DumpedRow(db: Db, dump: LogicalDump, tables: seq<Table>, e: Entry)
    requires ReadsAll(db, dump)
    ensures e in Flat(dump, tables) <==> e.table in tables && e.Key() in db.rows && db.rows[e.Key()] == e.row
  {
    FlatMembers(dump, tables, e);
    assert Selects(db, e.table, dump.tables[e.table]);
  }

  /** Inserting table after table, every row finds its parents. */
  lemma {:induction false} PrefixInsertOk(schema: Schema, db: Db, dump: LogicalDump, tables: seq<Table>, k: nat)
    requires Consistent(schema, db) && ListsAll(tables) && Ordered(schema, tables) && ReadsAll(db, dump)
    requires k <= |tables|
    ensures InsertOk(schema, Flat(dump, tables[..k]))
    decreases k
  {
    hide Consistent, ReadsAll, ListsAll, Ordered, EntryOk;
    if k > 0 {
      PrefixInsertOk(schema, db, dump, tables, k - 1);
      assert tables[..k][..k - 1] == tables[..k - 1];
      var front := Flat(dump, tables[..k - 1]);
      var all := Flat(dump, tables[..k]);
      assert all == front + Tagged(tables[k - 1], dump.Rows(tables[k - 1]));
      forall i | 0 <= i < |all|
        ensures EntryOk(schema, all, i)
      {
        if i < |front| {
          EntryOkPrefix(schema, front, Tagged(tables[k - 1], dump.Rows(tables[k - 1])), i);
        } else {
          SegmentEntryOk(schema, db, dump, tables, k, i - |front|);
        }
      }
    }
  }

  lemma EntryOkPrefix(schema: Schema, front: seq<Entry>, last: seq<Entry>, i: nat)
    requires i < |front| && EntryOk(schema, front, i)
    ensures EntryOk(schema, front + last, i)
  {
    var all := front + last;
    assert forall j :: 0 <= j <= i ==> all[j] == front[j];
  }

  lemma SegmentEntryOk(schema: Schema, db: Db, dump: LogicalDump, tables: seq<Table>, k: nat, x: nat)
    requires Consistent(schema, db) && ListsAll(tables) && Ordered(schema, tables) && ReadsAll(db, dump)
    requires 0 < k <= |tables| && x < |dump.Rows(tables[k - 1])|
    ensures var t := tables[k - 1];
      var front := Flat(dump, tables[..k - 1]);
      EntryOk(schema, front + Tagged(t, dump.Rows(t)), |front| + x)
  {
    hide Consistent, ListsAll, Ordered, ReadsAll, Flat;
    var t := tables[k - 1];
    var front := Flat(dump, tables[..k - 1]);
    var all := front + Tagged(t, dump.Rows(t));
    SegmentKeyNew(schema, db, dump, tables, k, x);
    var e := all[|front| + x];
    assert e == Entry(t, dump.Rows(t)[x]);
    forall c | c in e.row.cells && (t, c) in schema.references && Some(c) != DeferredColumn(t) && e.row.cells[c] != Null
      ensures e.row.cells[c].IdValue? && exists j ::
        0 <= j <= |front| + x && all[j].Key() == (schema.references[(t, c)], e.row.cells[c].id)
    {
      var j := SegmentParent(schema, db, dump, tables, k, x, c);
      assert all[j] == front[j];
    }
  }

  lemma IdsDiffer(rows: seq<Row>, i: nat, j: nat)
    requires Ascending(rows, RowBefore) && i < j < |rows|
    ensures rows[i].id != rows[j].id
  {
    IdAsymmetric(rows[i].id, rows[j].id);
  }

  lemma SegmentKeyNew(schema: Schema, db: Db, dump: LogicalDump, tables: seq<Table>, k: nat, x: nat)
    requires Consistent(schema, db) && ListsAll(tables) && ReadsAll(db, dump)
    requires 0 < k <= |tables| && x < |dump.Rows(tables[k - 1])|
    ensures var t := tables[k - 1];
      var front := Flat(dump, tables[..k - 1]);
      var all := front + Tagged(t, dump.Rows(t));
      && (forall j :: 0 <= j < |front| + x ==> all[j].Key() != (t, dump.Rows(t)[x].id))
      && (t in schema.serial ==> dump.Rows(t)[x].id.Serial?)
  {
    var t := tables[k - 1];
    var front := Flat(dump, tables[..k - 1]);
    var all := front + Tagged(t, dump.Rows(t));
    assert Selects(db, t, dump.tables[t]);
    assert dump.Rows(t)[x] in dump.tables[t];
    hide Flat, Consistent, ListsAll, Ascending;
    forall j | 0 <= j < |front| + x
      ensures all[j].Key() != (t, dump.Rows(t)[x].id)
    {
      if j < |front| {
        FrontKeyOther(dump, tables, k, j);
      } else {
        IdsDiffer(dump.Rows(t), j - |front|, x);
      }
    }
  }

  lemma FrontKeyOther(dump: LogicalDump, tables: seq<Table>, k: nat, j: nat)
    requires ListsAll(tables) && 0 < k <= |tables| && j < |Flat(dump, tables[..k - 1])|
    ensures Flat(dump, tables[..k - 1])[j].table != tables[k - 1]
  {
    var front := Flat(dump, tables[..k - 1]);
    assert front[j] in front;
    FlatMembers(dump, tables[..k - 1], front[j]);
    hide Flat;
    assert tables[k - 1] !in tables[..k - 1];
  }

  lemma SegmentParent(schema: Schema, db: Db, dump: LogicalDump, tables: seq<Table>, k: nat, x: nat,
      c: string) returns (j: nat)
    requires Consistent(schema, db) && ListsAll(tables) && Ordered(schema, tables) && ReadsAll(db, dump)
    requires 0 < k <= |tables| && x < |dump.Rows(tables[k - 1])|
    requires var t, row := tables[k - 1], dump.Rows(tables[k - 1])[x];
      c in row.cells && (t, c) in schema.references && Some(c) != DeferredColumn(t) && row.cells[c] != Null
    ensures var t, row := tables[k - 1], dump.Rows(tables[k - 1])[x];
      var front := Flat(dump, tables[..k - 1]);
      row.cells[c].IdValue? && j < |front| && front[j].Key() == (schema.references[(t, c)], row.cells[c].id)
  {
    hide Consistent, ListsAll, Ordered, ReadsAll, Flat;
    var t := tables[k - 1];
    var row := dump.Rows(t)[x];
    var front := Flat(dump, tables[..k - 1]);
    SelectedRow(db, dump, t, x);
    ParentExists(schema, db, (t, row.id), c);
    var key := (schema.references[(t, c)], row.cells[c].id);
    var e := Entry(key.0, db.rows[key]);
    var p := EarlierTable(schema, tables, k - 1, c);
    assert tables[..k - 1][p] == key.0;
    DumpedRow(db, dump, tables[..k - 1], e);
    j :| 0 <= j < |front| && front[j] == e;
  }

  lemma ConsistentIsRestorable(schema: Schema, db: Db, dump: LogicalDump, tables: seq<Table>)
    requires Consistent(schema, db) && ListsAll(tables) && Ordered(schema, tables) && ReadsAll(db, dump)
    ensures InsertOk(schema, Flat(dump, tables)) && PatchOk(schema, Flat(dump, tables))
    ensures forall t :: SerialOkFor(schema, dump, t)
  {
    hide Consistent, ReadsAll, ListsAll, Ordered, SerialOkFor;
    var entries := Flat(dump, tables);
    PrefixInsertOk(schema, db, dump, tables, |tables|);
    assert tables[..|tables|] == tables;
    forall e | e in entries ensures OnePatchOk(schema, entries, e) {
      PatchTarget(schema, db, dump, tables, e);
    }
    assert PatchOk(schema, entries) by {
      forall e | e in entries && IsDeferred(e)
        ensures OnePatchOk(schema, entries, e)
      {
      }
    }
    forall t ensures SerialOkFor(schema, dump, t) {
      PositiveId(schema, db, dump, t);
    }
  }

  lemma PositiveId(schema: Schema, db: Db, dump: LogicalDump, t: Table)
    requires Consistent(schema, db) && ReadsAll(db, dump)
    ensures SerialOkFor(schema, dump, t)
  {
    if t in schema.serial && |dump.Rows(t)| > 0 {
      SelectedRow(db, dump, t, 0);
      assert (t, dump.Rows(t)[0].id) in db.rows && PositiveIn(db, t);
      var l :| l in db.rows && l.0 == t && l.1.Serial? && l.1.n >= 1;
      var i := RowSelected(db, dump, l);
      assert dump.Rows(t)[i].id == l.1;
    }
  }

  lemma PatchTarget(schema: Schema, db: Db, dump: LogicalDump, tables: seq<Table>, e: Entry)
    requires Consistent(schema, db) && ListsAll(tables) && ReadsAll(db, dump) && e in Flat(dump, tables)
    ensures OnePatchOk(schema, Flat(dump, tables), e)
  {
    if IsDeferred(e) {
      var column := DeferredColumn(e.table).value;
      DumpedRow(db, dump, tables, e);
      if (e.table, column) in schema.references {
        ParentExists(schema, db, e.Key(), column);
        var key := (schema.references[(e.table, column)], e.row.cells[column].id);
        var target := Entry(key.0, db.rows[key]);
        DumpedRow(db, dump, tables, target);
        assert target in Flat(dump, tables) && target.Key() == key;
      }
    }
  }

  lemma SameRows(source: Db, target: Db, dump: LogicalDump, tables: seq<Table>)
    requires ListsAll(tables) && ReadsAll(source, dump) && Holds(target.rows, Flat(dump, tables))
    requires forall k :: k in source.rows ==> source.rows[k].id == k.1
    ensures target.rows == source.rows
  {
    var entries := Flat(dump, tables);
    forall k ensures k in target.rows <==> k in source.rows {
      if k in target.rows {
        var e :| e in entries && e.Key() == k;
        DumpedRow(source, dump, tables, e);
      }
      if k in source.rows {
        DumpedRow(source, dump, tables, Entry(k.0, source.rows[k]));
        assert Entry(k.0, source.rows[k]) in entries;
      }
    }
    forall k | k in source.rows ensures target.rows[k] == source.rows[k] {
      DumpedRow(source, dump, tables, Entry(k.0, source.rows[k]));
      assert Entry(k.0, source.rows[k]) in entries;
    }
  }

  lemma {:induction false} ReadingIsUnique(source: Db, target: Db, dump: LogicalDump, other: LogicalDump)
    requires target.rows == source.rows && ReadsAs(source, dump) && ReadsAs(target, other)
    ensures other == dump
  {
    assert other.tables.Keys == dump.tables.Keys;
    forall t | t in dump.tables ensures other.tables[t] == dump.tables[t] {
      assert t in DUMP_TABLES && Selects(target, t, other.tables[t]) && Selects(source, t, dump.tables[t]);
      assert Selects(target, t, dump.tables[t]);
      SelectUnique(target, t, other.tables[t], dump.tables[t]);
    }
    assert other.tables == dump.tables;
  }

  /** Backup and restore: the dump of any consistent source whose references follow the restore
      order restores into an empty target; the target then has the very rows of the source, any
      dump of it equals the first, and every serial sequence is past all restored ids. */
  lemma {:induction false} BackupRestores(schema: Schema, source: Db, dump: LogicalDump, next: map<Table, int>)
    requires Consistent(schema, source) && Ordered(schema, RESTORE_TABLES) && ReadsAs(source, dump)
    ensures var r := Restored(schema, Db(map[], next), dump);
      && r.Some? && r.value.rows == source.rows
      && ReadsAs(r.value, dump) && (forall other :: ReadsAs(r.value, other) ==> other == dump)
      && forall k :: k in source.rows && k.0 in schema.serial ==> k.0 in r.value.next && k.1.n < r.value.next[k.0]
  {
    EveryTableOnce();
    var tables := RESTORE_TABLES;
    assert ReadsAll(source, dump);
    ConsistentIsRestorable(schema, source, dump, tables);
    RestoreExact(schema, next, dump);
    assert SerialOk(schema, dump) by {
      forall t | t in RESTORE_TABLES ensures SerialOkFor(schema, dump, t) {}
    }
    var target := Restored(schema, Db(map[], next), dump).value;
    SameRows(source, target, dump, tables);
    assert ReadsAs(target, dump) by {
      forall t | t in DUMP_TABLES ensures Selects(target, t, dump.tables[t]) {
        assert Selects(source, t, dump.tables[t]);
      }
    }
    forall other | ReadsAs(target, other) ensures other == dump {
      ReadingIsUnique(source, target, dump, other);
    }
    SequencesPast(schema, source, target.next, dump, tables);
  }

  lemma SequencesPast(schema: Schema, source: Db, next: map<Table, int>, dump: LogicalDump, tables: seq<Table>)
    requires Consistent(schema, source) && ListsAll(tables) && ReadsAll(source, dump)
    requires forall t :: t in tables ==> NextAbove(schema, next, dump, t)
    ensures forall k :: k in source.rows && k.0 in schema.serial ==> k.0 in next && k.1.n < next[k.0]
  {
    forall k | k in source.rows && k.0 in schema.serial
      ensures k.0 in next && k.1.n < next[k.0]
    {
      var i := RowSelected(source, dump, k);
      assert NextAbove(schema, next, dump, k.0);
    }
  }
}
