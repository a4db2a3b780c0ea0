/** The publication write protocol: projection batches, binding batches, then one transaction for
    snapshot and pointer. Every transaction is a function from a database to the next one, or to
    nothing when a constraint rejects it and it rolls back. */
module Publication {
  import opened Contracts
  import opened Versions
  import opened Batches

  const PROJECTION_BATCH: nat := 25
  const BINDING_BATCH: nat := 50

  // Rows -----------------------------------------------------------------------------------

  /** The `projection` JSON column. */
  datatype Bytes = Bytes(page: Page, navigation: Navigation, slots: seq<Slot>)

  datatype StoredProjection = StoredProjection(
    id: nat, workflowRun: nat,
    projectionId: string, pageId: string, locale: string, family: Family, state: ReleaseState,
    projection: Option<Bytes>,
    dependencyHash: string, contentHash: string, linkHash: string, schemaHash: string,
    rendererVersion: string, validationReport: string)

  /** The columns of the unique index on publication bindings. */
  datatype BindingKey = BindingKey(version: nat, locale: string, family: Family, route: string)

  datatype Snapshot = Snapshot(version: nat, previousVerified: Option<nat>)

  datatype Pointer = Pointer(publishVersion: Option<nat>, previousVerified: Option<nat>, revision: nat)

  /** `projectionIndex` is the unique index on `projection_id`; `bindings` maps a key to a row id. */
  datatype Db = Db(
    workflows: seq<Cell>,
    projections: map<nat, StoredProjection>,
    projectionIndex: map<string, nat>,
    nextRow: nat,
    bindings: map<BindingKey, nat>,
    snapshots: seq<Snapshot>,
    pointer: Option<Pointer>)

  function StoreRow(p: PageProjection, id: nat, run: nat): StoredProjection {
    StoredProjection(id, run, p.projectionId, p.pageId, p.locale, p.family, p.state,
                     Some(Bytes(p.page, p.navigation, p.slots)),
                     p.dependencyHash, p.contentHash, p.linkHash, p.schemaHash, p.rendererVersion, p.validationReport)
  }

  /** Rebuilds the renderer document from a row; a row without JSON bytes does not parse. */
  function Materialize(row: StoredProjection): Option<PageProjection> {
    match row.projection
    case None => None
    case Some(bytes) =>
      Some(PageProjection(row.projectionId, row.pageId, row.locale, row.family, row.state,
                          bytes.page, bytes.navigation, bytes.slots,
                          row.dependencyHash, row.contentHash, row.linkHash, row.schemaHash,
                          row.rendererVersion, row.validationReport))
  }

  function KeyOf(version: nat, p: PageProjection): BindingKey {
    BindingKey(version, p.locale, p.family, p.page.route)
  }

  function SnapshotCells(db: Db): seq<Cell> {
    seq(|db.snapshots|, i requires 0 <= i < |db.snapshots| => Number(db.snapshots[i].version))
  }

  /** What `nextPublishVersion` reads: every snapshot version and every workflow key. */
  function FreshVersion(db: Db): nat {
    NextVersion(SnapshotCells(db), db.workflows)
  }

  ghost predicate Used(db: Db, version: nat) {
    Mentioned(version, SnapshotCells(db), db.workflows)
  }

  // Transactions ---------------------------------------------------------------------------

  /** The rows a projection batch stored, by projection id. */
  datatype Persisted = Persisted(db: Db, rows: map<string, nat>)

  function PersistOne(s: Persisted, version: nat, p: PageProjection): Option<Persisted> {
    var key := Text(WorkflowKey(version, p.projectionId));
    if key in s.db.workflows || p.projectionId in s.db.projectionIndex then None else
      var row := StoreRow(p, s.db.nextRow, |s.db.workflows|);
      Some(Persisted(
        s.db.(workflows := s.db.workflows + [key],
              projections := s.db.projections[s.db.nextRow := row],
              projectionIndex := s.db.projectionIndex[p.projectionId := s.db.nextRow],
              nextRow := s.db.nextRow + 1),
        s.rows[p.projectionId := s.db.nextRow]))
  }

  /** One projection transaction: a workflow run and a projection row for each page of the batch. */
  function PersistBatch(db: Db, version: nat, batch: seq<PageProjection>): Option<Persisted> {
    if |batch| == 0 then Some(Persisted(db, map[])) else
      var before := PersistBatch(db, version, batch[..|batch| - 1]);
      if before.None? then None else PersistOne(before.value, version, batch[|batch| - 1])
  }

  function BindOne(db: Db, version: nat, rows: map<string, nat>, p: PageProjection): Option<Db> {
    if p.projectionId !in rows then None
    else
      var key, row := KeyOf(version, p), rows[p.projectionId];
      if key in db.bindings || (exists k :: k in db.bindings && k.version == version && db.bindings[k] == row) then None
      else Some(db.(bindings := db.bindings[key := row]))
  }

  /** One binding transaction. */
  function BindBatch(db: Db, version: nat, rows: map<string, nat>, batch: seq<PageProjection>): Option<Db> {
    if |batch| == 0 then Some(db) else
      var before := BindBatch(db, version, rows, batch[..|batch| - 1]);
      if before.None? then None else BindOne(before.value, version, rows, batch[|batch| - 1])
  }

  datatype PointerPlan = PointerPlan(bootstrap: Option<Pointer>, expected: Pointer, desired: Pointer)

  /** planLocalPointerActivation. */
  function PlanActivation(pointer: Option<Pointer>, version: nat): PointerPlan {
    var current := if pointer.None? then Pointer(None, None, 0) else pointer.value;
    PointerPlan(if pointer.None? then Some(current) else None, current,
                Pointer(Some(version), current.publishVersion, current.revision + 1))
  }

  /** The snapshot-and-pointer transaction. `seen` is the pointer read when the attempt began; the
      pointer moves only if the stored triple still equals the expected one. */
  function ActivateDb(db: Db, seen: Option<Pointer>, version: nat): Option<Db> {
    var plan := PlanActivation(seen, version);
    if exists s :: s in db.snapshots && s.version == version then None
    else if seen.None? && db.pointer.Some? then None
    else
      var stored := if seen.None? then plan.bootstrap else db.pointer;
      if stored != Some(plan.expected) then None
      else
        var previous := if seen.Some? then seen.value.publishVersion else None;
        Some(db.(snapshots := db.snapshots + [Snapshot(version, previous)], pointer := Some(plan.desired)))
  }

  /** buildPublicationProjectionBindings accepts released noindex pages under distinct routes only. */
  predicate Accepted(projections: seq<PageProjection>) {
    && (forall i :: 0 <= i < |projections| ==>
          projections[i].state == Released && projections[i].page.indexState == DiscoverableNoindex)
    && (forall i, j :: 0 <= i < j < |projections| ==> KeyOf(0, projections[i]) != KeyOf(0, projections[j]))
  }

  // The state machine ----------------------------------------------------------------------

  /** One run of the publisher. `rows` are the projection rows it stored so far; `projected` and
      `bound` are the batches whose transactions have committed, in whatever order. */
  datatype Attempt = Attempt(
    number: nat, seen: Option<Pointer>, version: nat, projections: seq<PageProjection>,
    rows: map<string, nat>, projected: set<nat>, bound: set<nat>)
  {
    function ProjectionBatches(): seq<seq<PageProjection>> { BatchesOf(projections, PROJECTION_BATCH) }

    function BindingBatches(): seq<seq<PageProjection>> { BatchesOf(projections, BINDING_BATCH) }

    predicate AllProjected() { forall b :: 0 <= b < |ProjectionBatches()| ==> b in projected }

    predicate AllBound() { forall b :: 0 <= b < |BindingBatches()| ==> b in bound }
  }

  datatype Activation = Activation(attempt: nat, version: nat, projections: seq<PageProjection>)

  /** The database, the attempt in progress, and the history the theorems speak of: the database as it
      was found, the activations since, and which attempt wrote each binding. */
  datatype State = State(
    db: Db, attempt: Option<Attempt>, attempts: nat,
    base: Db, log: seq<Activation>, writer: map<BindingKey, nat>)

  datatype Step =
    | Start(projections: seq<PageProjection>)
    | CommitProjections(batch: nat)
    | CommitBindings(batch: nat)
    | Activate
    | Crash

  function NewKeys(version: nat, batch: seq<PageProjection>): set<BindingKey> {
    set p | p in batch :: KeyOf(version, p)
  }

  function StartAttempt(s: State, projections: seq<PageProjection>): State {
    var version := FreshVersion(s.db);
    if s.attempt.Some? || !IsVersion(version) then s else
      s.(attempt := Some(Attempt(s.attempts, s.db.pointer, version, projections, map[], {}, {})),
         attempts := s.attempts + 1)
  }

  /** A projection batch commits, or a constraint rejects it and the whole attempt fails. */
  function ProjectStep(s: State, b: nat): State {
    if s.attempt.None? then s else
      var a := s.attempt.value;
      if b >= |a.ProjectionBatches()| || b in a.projected then s else
        match PersistBatch(s.db, a.version, a.ProjectionBatches()[b])
        case None => s.(attempt := None)
        case Some(r) => s.(db := r.db, attempt := Some(a.(rows := a.rows + r.rows, projected := a.projected + {b})))
  }

  /** Binding starts once every projection batch is stored and the bindings were accepted. */
  function BindStep(s: State, b: nat): State {
    if s.attempt.None? then s else
      var a := s.attempt.value;
      if !a.AllProjected() || b >= |a.BindingBatches()| || b in a.bound then s
      else if !Accepted(a.projections) then s.(attempt := None)
      else
        var batch := a.BindingBatches()[b];
        match BindBatch(s.db, a.version, a.rows, batch)
        case None => s.(attempt := None)
        case Some(db) =>
          s.(db := db, attempt := Some(a.(bound := a.bound + {b})),
             writer := s.writer + map k | k in NewKeys(a.version, batch) :: a.number)
  }

  function ActivateStep(s: State): State {
    if s.attempt.None? then s else
      var a := s.attempt.value;
      if !a.AllProjected() || !a.AllBound() then s
      else if !Accepted(a.projections) then s.(attempt := None)
      else
        match ActivateDb(s.db, a.seen, a.version)
        case None => s.(attempt := None)
        case Some(db) =>
          s.(db := db, attempt := None, log := s.log + [Activation(a.number, a.version, a.projections)])
  }

  function Apply(s: State, e: Step): State {
    match e
    case Start(projections) => StartAttempt(s, projections)
    case CommitProjections(b) => ProjectStep(s, b)
    case CommitBindings(b) => BindStep(s, b)
    case Activate => ActivateStep(s)
    case Crash => s.(attempt := None)
  }

  function Run(s: State, steps: seq<Step>): State {
    if |steps| == 0 then s else Apply(Run(s, steps[..|steps| - 1]), steps[|steps| - 1])
  }

  /** A database as earlier publishers and other pipelines left it: every bound row exists, and the
      versions bound and active are among those snapshots or workflow keys mention. */
  ghost predicate BaseOk(db: Db) {
    && RowsOk(db) && BindingsOk(db)
    && (forall k :: k in db.bindings ==> db.bindings[k] in db.projections)
    && (db.pointer.Some? && db.pointer.value.publishVersion.Some? ==> Used(db, db.pointer.value.publishVersion.value))
  }

  /** No attempt has begun. */
  ghost predicate Init(s: State) {
    s.attempt.None? && s.log == [] && s.db == s.base && BaseOk(s.base)
  }

  // The invariant --------------------------------------------------------------------------

  ghost predicate RowsOk(db: Db) {
    && (forall r :: r in db.projections ==> r < db.nextRow)
    && (forall id :: id in db.projectionIndex ==> db.projectionIndex[id] < db.nextRow)
  }

  /** Row `r` reads back as `p`. */
  ghost predicate Holds(db: Db, r: nat, p: PageProjection) {
    r in db.projections && Materialize(db.projections[r]) == Some(p)
  }

  /** The bindings of the activated version are exactly those of its pages; each leads to a row
      that reads back as the page it was built from, and all were written by that attempt. */
  ghost predicate CompleteSet(db: Db, writer: map<BindingKey, nat>, a: Activation) {
    && (forall p :: p in a.projections ==> BoundTo(db, a.version, p))
    && OnlyBy(db, writer, a.version, a.projections, a.attempt)
  }

  ghost predicate BoundTo(db: Db, version: nat, p: PageProjection) {
    KeyOf(version, p) in db.bindings && Holds(db, db.bindings[KeyOf(version, p)], p)
  }

  /** Every binding of `version` is a key of `projections`, and the given attempt wrote it. */
  ghost predicate OnlyBy(db: Db, writer: map<BindingKey, nat>, version: nat, projections: seq<PageProjection>,
      attempt: nat) {
    forall k :: k in db.bindings && k.version == version ==>
      k in NewKeys(version, projections) && k in writer && writer[k] == attempt
  }

  ghost predicate Increasing(log: seq<Activation>) {
    forall i, j :: 0 <= i < j < |log| ==> log[i].version < log[j].version
  }

  ghost predicate ActivationOk(db: Db, writer: map<BindingKey, nat>, a: Activation) {
    IsVersion(a.version) && Used(db, a.version) && Accepted(a.projections) && CompleteSet(db, writer, a)
  }

  ghost predicate LogOk(db: Db, writer: map<BindingKey, nat>, log: seq<Activation>) {
    forall i :: 0 <= i < |log| ==> ActivationOk(db, writer, log[i])
  }

  /** The pointer is exactly what the one found and the activations since make it. */
  ghost predicate PointerOk(found: Option<Pointer>, pointer: Option<Pointer>, log: seq<Activation>) {
    var first := found.GetOr(Pointer(None, None, 0));
    if |log| == 0 then pointer == found
    else
      pointer == Some(Pointer(
        Some(log[|log| - 1].version),
        if |log| == 1 then first.publishVersion else Some(log[|log| - 2].version),
        first.revision + |log|))
  }

  ghost predicate BindingsOk(db: Db) {
    forall k :: k in db.bindings ==> Used(db, k.version)
  }

  ghost predicate BatchStored(db: Db, rows: map<string, nat>, batch: seq<PageProjection>) {
    forall p :: p in batch ==> p.projectionId in rows && Holds(db, rows[p.projectionId], p)
  }

  ghost predicate BatchBound(db: Db, version: nat, batch: seq<PageProjection>) {
    forall p :: p in batch ==> BoundTo(db, version, p)
  }

  ghost predicate Above(version: nat, log: seq<Activation>) {
    forall i :: 0 <= i < |log| ==> log[i].version < version
  }

  ghost predicate AllBelow(db: Db, version: nat) {
    forall v: nat :: Used(db, v) ==> v < version
  }

  ghost predicate ProjectedOk(db: Db, a: Attempt) {
    && a.rows.Keys <= db.projectionIndex.Keys
    && (forall b :: b in a.projected ==>
          b < |a.ProjectionBatches()| && BatchStored(db, a.rows, a.ProjectionBatches()[b]))
  }

  ghost predicate BoundOk(db: Db, a: Attempt) {
    && (a.bound != {} ==> a.AllProjected())
    && (forall b :: b in a.bound ==> b < |a.BindingBatches()| && BatchBound(db, a.version, a.BindingBatches()[b]))
  }

  ghost predicate AttemptOk(db: Db, writer: map<BindingKey, nat>, log: seq<Activation>, a: Attempt) {
    && IsVersion(a.version)
    && a.seen == db.pointer
    && Above(a.version, log)
    && (if a.projected == {} then AllBelow(db, a.version) else Used(db, a.version))
    && ProjectedOk(db, a)
    && BoundOk(db, a)
    && OnlyBy(db, writer, a.version, a.projections, a.number)
  }

  /** Rows and bindings found are as they were; no binding of a version found was added. */
  ghost predicate Frozen(base: Db, db: Db) {
    && base.nextRow <= db.nextRow
    && (forall r: nat :: r in base.projections ==> r in db.projections && db.projections[r] == base.projections[r])
    && (forall k :: k in base.bindings ==> k in db.bindings && db.bindings[k] == base.bindings[k])
    && (forall k :: k in db.bindings && Used(base, k.version) ==> k in base.bindings)
    && (forall v: nat :: Used(base, v) ==> Used(db, v))
  }

  ghost predicate NewerThan(base: Db, log: seq<Activation>) {
    forall i :: 0 <= i < |log| ==> AllBelow(base, log[i].version)
  }

  /** What was found is kept, and every version since is newer than all it mentions. */
  ghost predicate BaseKept(s: State) {
    && BaseOk(s.base) && Frozen(s.base, s.db) && NewerThan(s.base, s.log)
    && (s.attempt.Some? ==> AllBelow(s.base, s.attempt.value.version))
  }

  ghost predicate Core(s: State) {
    && RowsOk(s.db) && BindingsOk(s.db) && Increasing(s.log) && LogOk(s.db, s.writer, s.log)
    && PointerOk(s.base.pointer, s.db.pointer, s.log)
    && (s.attempt.Some? ==> AttemptOk(s.db, s.writer, s.log, s.attempt.value))
  }

  ghost predicate Inv(s: State) { Core(s) && BaseKept(s) }
}
