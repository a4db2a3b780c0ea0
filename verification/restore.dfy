/** Restoring a logical dump into an empty database, in one transaction, with two reference columns
    nulled on insert and patched afterwards. */
module Restore {
  import opened Contracts

  datatype Table =
    | Users | UsersRoles | UsersServiceScopes | UsersSessions | Media | Sources
    | PromptArtifacts | PromptArtifactsPromptVariables | PromptArtifactsRels
    | TaxonomyNodes | TaxonomyNodesRels | PageRecords | PageRecordsPrimaryKeywordByLocale
    | PageRecordsRels | LocaleVariants | LocaleVariantsRels | Edges | EdgesRels
    | AuditEvents | ModuleEnvelopes | ModuleEnvelopesRels | PublicationSnapshots
    | PublicationStates | ActivePublicationPointers | Redirects | WorkflowRuns
    | DeletionRequests | PayloadKv | PayloadLockedDocuments | PayloadLockedDocumentsRels
    | PayloadPreferences | PayloadPreferencesRels

  const SCHEMA_VERSION := 1

  const DUMP_TABLES: seq<Table> := [
    Users, UsersRoles, UsersServiceScopes, UsersSessions, Media, Sources,
    PromptArtifacts, PromptArtifactsPromptVariables, PromptArtifactsRels,
    TaxonomyNodes, TaxonomyNodesRels, PageRecords, PageRecordsPrimaryKeywordByLocale,
    PageRecordsRels, LocaleVariants, LocaleVariantsRels, Edges, EdgesRels,
    AuditEvents, ModuleEnvelopes, ModuleEnvelopesRels, PublicationSnapshots,
    PublicationStates, ActivePublicationPointers, Redirects, WorkflowRuns,
    DeletionRequests, PayloadKv, PayloadLockedDocuments, PayloadLockedDocumentsRels,
    PayloadPreferences, PayloadPreferencesRels]

  const RESTORE_TABLES: seq<Table> := [
    Users, UsersRoles, UsersServiceScopes, UsersSessions, Media, Sources, PromptArtifacts,
    TaxonomyNodes, TaxonomyNodesRels, PageRecords, PageRecordsPrimaryKeywordByLocale,
    LocaleVariants, Edges, AuditEvents, ModuleEnvelopes, PublicationSnapshots,
    PublicationStates, ActivePublicationPointers, Redirects, WorkflowRuns, DeletionRequests,
    PayloadKv, PayloadLockedDocuments, PayloadPreferences, PromptArtifactsPromptVariables,
    PromptArtifactsRels, PageRecordsRels, LocaleVariantsRels, EdgesRels, ModuleEnvelopesRels,
    PayloadLockedDocumentsRels, PayloadPreferencesRels]

  // Rows and databases ----------------------------------------------------------------------

  datatype Id = Serial(n: int) | Name(text: string)

  datatype Value = Null | IdValue(id: Id) | Plain(text: string)

  datatype Row = Row(id: Id, cells: map<string, Value>)

  datatype Entry = Entry(table: Table, row: Row) {
    function Key(): (Table, Id) { (table, row.id) }
  }

  /** The rows, keyed by table and primary key, and the next value of each serial sequence. */
  datatype Db = Db(rows: map<(Table, Id), Row>, next: map<Table, int>)

  /** Which columns are foreign keys and to which table, and which tables have a serial id. */
  datatype Schema = Schema(references: map<(Table, string), Table>, serial: set<Table>)

  datatype LogicalDump = LogicalDump(schemaVersion: int, tables: map<Table, seq<Row>>) {
    function Rows(t: Table): seq<Row> { if t in tables then tables[t] else [] }
  }

  // Statements ------------------------------------------------------------------------------

  /** A cell satisfies its column's foreign key, if the column has one. */
  predicate KeyHolds(schema: Schema, rows: map<(Table, Id), Row>, t: Table, column: string, value: Value) {
    (t, column) in schema.references && value != Null ==>
      value.IdValue? && (schema.references[(t, column)], value.id) in rows
  }

  /** INSERT: rejected by the primary key, the id type or a foreign key. Keys are checked when the
      statement ends, so a row may refer to itself. */
  function Insert(schema: Schema, db: Db, e: Entry): Option<Db> {
    var rows := db.rows[e.Key() := e.row];
    if e.Key() in db.rows || (e.table in schema.serial && !e.row.id.Serial?) then None
    else if exists c :: c in e.row.cells && !KeyHolds(schema, rows, e.table, c, e.row.cells[c]) then None
    else Some(db.(rows := rows))
  }

  datatype Deferred = Deferred(table: Table, column: string, id: Id, value: Value)

  /** UPDATE ... SET column = value WHERE id: no effect when no row has the id. */
  function Update(schema: Schema, db: Db, d: Deferred): Option<Db> {
    if (d.table, d.id) !in db.rows then Some(db) else
      var row := db.rows[(d.table, d.id)];
      var rows := db.rows[(d.table, d.id) := row.(cells := row.cells[d.column := d.value])];
      if KeyHolds(schema, rows, d.table, d.column, d.value) then Some(db.(rows := rows)) else None
  }

  // What the restore does with one row --------------------------------------------------------

  function DeferredColumn(t: Table): Option<string> {
    match t
    case Sources => Some("author_ref_id")
    case PageRecords => Some("approval_edge_id")
    case _ => None
  }

  predicate IsDeferred(e: Entry) {
    var column := DeferredColumn(e.table);
    column.Some? && column.value in e.row.cells && e.row.cells[column.value] != Null
  }

  /** The row as it is inserted. */
  function Nulled(e: Entry): Entry {
    if IsDeferred(e) then e.(row := e.row.(cells := e.row.cells[DeferredColumn(e.table).value := Null])) else e
  }

  function DeferredOf(e: Entry): seq<Deferred> {
    if IsDeferred(e) then
      var column := DeferredColumn(e.table).value;
      [Deferred(e.table, column, e.row.id, e.row.cells[column])]
    else []
  }

  // The restore as a function ------------------------------------------------------------------

  function Tagged(t: Table, rows: seq<Row>): seq<Entry> {
    seq(|rows|, i requires 0 <= i < |rows| => Entry(t, rows[i]))
  }

  /** All rows of the given tables, in the order they are inserted. */
  function Flat(dump: LogicalDump, tables: seq<Table>): seq<Entry> {
    if |tables| == 0 then []
    else Flat(dump, tables[..|tables| - 1]) + Tagged(tables[|tables| - 1], dump.Rows(tables[|tables| - 1]))
  }

  function InsertAll(schema: Schema, db: Db, entries: seq<Entry>): Option<Db> {
    if |entries| == 0 then Some(db) else
      var before := InsertAll(schema, db, entries[..|entries| - 1]);
      if before.None? then None else Insert(schema, before.value, Nulled(entries[|entries| - 1]))
  }

  function Deferreds(entries: seq<Entry>): seq<Deferred> {
    if |entries| == 0 then [] else Deferreds(entries[..|entries| - 1]) + DeferredOf(entries[|entries| - 1])
  }

  function UpdateAll(schema: Schema, db: Db, updates: seq<Deferred>): Option<Db> {
    if |updates| == 0 then Some(db) else
      var before := UpdateAll(schema, db, updates[..|updates| - 1]);
      if before.None? then None else Update(schema, before.value, updates[|updates| - 1])
  }

  /** The greatest serial id among rows that have one. */
  function MaxSerial(rows: seq<Row>): (m: Option<int>)
    ensures m.None? <==> forall i :: 0 <= i < |rows| ==> rows[i].id.Name?
    ensures m.Some? ==> exists i :: 0 <= i < |rows| && rows[i].id == Serial(m.value)
    ensures m.Some? ==> forall i :: 0 <= i < |rows| && rows[i].id.Serial? ==> rows[i].id.n <= m.value
  {
    if |rows| == 0 then None else
      var n := |rows| - 1;
      var before := MaxSerial(rows[..n]);
      if rows[n].id.Serial? && (before.None? || before.value < rows[n].id.n) then Some(rows[n].id.n) else before
  }

  /** setval on one table's sequence: a sequence takes no value below one. */
  function SyncOne(schema: Schema, db: Db, dump: LogicalDump, t: Table): Option<Db> {
    if |dump.Rows(t)| == 0 || t !in schema.serial then Some(db) else
      var max := MaxSerial(dump.Rows(t)).GetOr(1);
      if max < 1 then None else Some(db.(next := db.next[t := max + 1]))
  }

  function SyncAll(schema: Schema, db: Db, dump: LogicalDump, tables: seq<Table>): Option<Db> {
    if |tables| == 0 then Some(db) else
      var before := SyncAll(schema, db, dump, tables[..|tables| - 1]);
      if before.None? then None else SyncOne(schema, before.value, dump, tables[|tables| - 1])
  }

  /** How many tables' sequences are moved when at most `reach` of them get their turn: up to the first
      one that is refused. */
  function Through(schema: Schema, db: Db, dump: LogicalDump, tables: seq<Table>, reach: nat): (k: nat)
    ensures k <= |tables| && k <= reach && SyncAll(schema, db, dump, tables[..k]).Some?
    ensures k < |tables| && k < reach ==> SyncAll(schema, db, dump, tables[..k + 1]).None?
  {
    if |tables| == 0 then 0
    else
      var n := |tables| - 1;
      var k := Through(schema, db, dump, tables[..n], reach);
      assert tables[..n][..k] == tables[..k] && (k < n ==> tables[..n][..k + 1] == tables[..k + 1]);
      assert tables[..|tables|] == tables;
      if k == n && n < reach && SyncAll(schema, db, dump, tables).Some? then n + 1 else k
  }

  /** The whole transaction: what it leaves when it commits, or nothing when it rolls back. */
  function Restored(schema: Schema, db: Db, dump: LogicalDump): Option<Db> {
    if dump.schemaVersion != SCHEMA_VERSION || db.rows != map[] then None else
      var entries := Flat(dump, RESTORE_TABLES);
      match InsertAll(schema, db, entries)
      case None => None
      case Some(inserted) =>
        match UpdateAll(schema, inserted, Deferreds(entries))
        case None => None
        case Some(patched) => SyncAll(schema, patched, dump, RESTORE_TABLES)
  }

  /** What an attempt leaves behind, and whether it committed. */
  datatype Attempted = Attempted(db: Db, committed: bool)

  /** The connection is lost after `reach` tables' sequences have been moved, unless there are fewer, so
      it takes more than all of them to commit. A rollback takes the rows back but not the sequences:
      setval is not undone. */
  function Attempt(schema: Schema, db: Db, dump: LogicalDump, reach: nat): Attempted {
    if dump.schemaVersion != SCHEMA_VERSION || db.rows != map[] then Attempted(db, false) else
      var entries := Flat(dump, RESTORE_TABLES);
      match InsertAll(schema, db, entries)
      case None => Attempted(db, false)
      case Some(inserted) =>
        match UpdateAll(schema, inserted, Deferreds(entries))
        case None => Attempted(db, false)
        case Some(patched) =>
          var k := Through(schema, patched, dump, RESTORE_TABLES, reach);
          var synchronized := SyncAll(schema, patched, dump, RESTORE_TABLES[..k]).value;
          if k == |RESTORE_TABLES| && k < reach then Attempted(synchronized, true)
          else Attempted(db.(next := synchronized.next), false)
  }

  // When it succeeds ---------------------------------------------------------------------------

  /** Entry `i` can be inserted after the entries before it: its key is new, its id has the right
      type, and every reference but the deferred one points to itself or to an earlier entry. */
  ghost predicate EntryOk(schema: Schema, entries: seq<Entry>, i: nat)
    requires i < |entries|
  {
    var e := entries[i];
    && (forall j :: 0 <= j < i ==> entries[j].Key() != e.Key())
    && (e.table in schema.serial ==> e.row.id.Serial?)
    && (forall c ::
      c in e.row.cells && (e.table, c) in schema.references && Some(c) != DeferredColumn(e.table) && e.row.cells[c] != Null ==>
          e.row.cells[c].IdValue? && exists j ::
            0 <= j <= i && entries[j].Key() == (schema.references[(e.table, c)], e.row.cells[c].id))
  }

  ghost predicate InsertOk(schema: Schema, entries: seq<Entry>) {
    forall i :: 0 <= i < |entries| ==> EntryOk(schema, entries, i)
  }

  /** Every deferred reference points to some entry. */
  ghost predicate PatchOk(schema: Schema, entries: seq<Entry>) {
    forall e :: e in entries && IsDeferred(e) ==>
      var column := DeferredColumn(e.table).value;
      (e.table, column) in schema.references ==>
        e.row.cells[column].IdValue? && exists target ::
          target in entries && target.Key() == (schema.references[(e.table, column)], e.row.cells[column].id)
  }

  /** Every restored serial table that has rows has a positive id among them. */
  ghost predicate SerialOk(schema: Schema, dump: LogicalDump) {
    forall t :: t in RESTORE_TABLES && t in schema.serial && |dump.Rows(t)| > 0 ==>
      exists i :: 0 <= i < |dump.Rows(t)| && dump.Rows(t)[i].id.Serial? && dump.Rows(t)[i].id.n >= 1
  }

  /** Its rows can be inserted and patched. */
  ghost predicate RowsRestorable(schema: Schema, dump: LogicalDump) {
    && dump.schemaVersion == SCHEMA_VERSION
    && InsertOk(schema, Flat(dump, RESTORE_TABLES))
    && PatchOk(schema, Flat(dump, RESTORE_TABLES))
  }

  ghost predicate Restorable(schema: Schema, dump: LogicalDump) {
    RowsRestorable(schema, dump) && SerialOk(schema, dump)
  }

  /** The rows are exactly those of the entries. */
  ghost predicate Holds(rows: map<(Table, Id), Row>, entries: seq<Entry>) {
    && (forall e :: e in entries ==> e.Key() in rows && rows[e.Key()] == e.row)
    && (forall k :: k in rows ==> exists e :: e in entries && e.Key() == k)
  }
}
