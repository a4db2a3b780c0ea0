/** Safety of the publication protocol over every run, with a crash allowed after any transaction. */
module PublicationSafety {
  import opened Contracts
  import opened Versions
  import opened Batches
  import opened Publication

  // What one transaction does ---------------------------------------------------------------

  /** `db'` has everything `db` has: rows, workflow runs and index entries are never changed or lost. */
  ghost predicate Grows(db: Db, db': Db) {
    && db.nextRow <= db'.nextRow
    && (forall r :: r in db.projections ==> r in db'.projections && db'.projections[r] == db.projections[r])
    && db.projectionIndex.Keys <= db'.projectionIndex.Keys
    && (forall c :: c in db.workflows ==> c in db'.workflows)
    && (forall v: nat :: Used(db, v) ==> Used(db', v))
  }

  lemma HoldsGrows(db: Db, db': Db, r: nat, p: PageProjection)
    requires Grows(db, db') && Holds(db, r, p)
    ensures Holds(db', r, p)
  {
  }

  lemma UsedByKey(db: Db, version: nat, id: string)
    requires IsVersion(version) && Text(WorkflowKey(version, id)) in db.workflows
    ensures Used(db, version)
  {
    KeyRoundTrip(version, id);
    assert WorkflowVersion(Text(WorkflowKey(version, id))) == Some(version);
  }

  ghost predicate Stored(r: Persisted, batch: seq<PageProjection>) {
    forall p :: p in batch ==> p.projectionId in r.rows && Holds(r.db, r.rows[p.projectionId], p)
  }

  /** A projection batch that commits only adds: its pages are stored under fresh ids, and the only
      version it can newly mention is its own. */
  lemma {:induction false} PersistEffect(db: Db, version: nat, batch: seq<PageProjection>)
    requires RowsOk(db) && IsVersion(version)
    requires PersistBatch(db, version, batch).Some?
    ensures var r := PersistBatch(db, version, batch).value;
      && RowsOk(r.db) && Grows(db, r.db)
      && r.db.bindings == db.bindings && r.db.snapshots == db.snapshots && r.db.pointer == db.pointer
      && (forall id :: id in r.rows ==> id !in db.projectionIndex && id in r.db.projectionIndex)
      && Stored(r, batch)
      && (|batch| > 0 ==> Used(r.db, version))
      && (forall v: nat :: Used(r.db, v) ==> Used(db, v) || v == version)
    decreases |batch|
  {
    if |batch| > 0 {
      var n := |batch| - 1;
      hide PersistOne, Holds, Used, RowsOk;
      PersistEffect(db, version, batch[..n]);
      var before := PersistBatch(db, version, batch[..n]).value;
      PersistOneEffect(before, version, batch[n]);
      var after := PersistOne(before, version, batch[n]).value;
      StoredThen(before, after, batch, n);
      hide Stored, PersistBatch;
    }
  }

  lemma StoredThen(before: Persisted, after: Persisted, batch: seq<PageProjection>, n: nat)
    requires n == |batch| - 1 && Stored(before, batch[..n]) && Grows(before.db, after.db)
    requires batch[n].projectionId !in before.db.projectionIndex
    requires forall id :: id in before.rows ==> id in before.db.projectionIndex
    requires forall id :: id in before.rows && id != batch[n].projectionId ==>
      id in after.rows && after.rows[id] == before.rows[id]
    requires batch[n].projectionId in after.rows && Holds(after.db, after.rows[batch[n].projectionId], batch[n])
    ensures Stored(after, batch)
  {
    forall p | p in batch
      ensures p.projectionId in after.rows && Holds(after.db, after.rows[p.projectionId], p)
    {
      if p in batch[..n] {
        HoldsGrows(before.db, after.db, before.rows[p.projectionId], p);
      } else {
        assert p == batch[n];
      }
    }
  }

  lemma PersistOneEffect(s: Persisted, version: nat, p: PageProjection)
    requires RowsOk(s.db) && IsVersion(version) && PersistOne(s, version, p).Some?
    ensures var r := PersistOne(s, version, p).value;
      && RowsOk(r.db) && Grows(s.db, r.db)
      && r.db.bindings == s.db.bindings && r.db.snapshots == s.db.snapshots && r.db.pointer == s.db.pointer
      && p.projectionId !in s.db.projectionIndex && p.projectionId in r.db.projectionIndex
      && p.projectionId in r.rows && Holds(r.db, r.rows[p.projectionId], p)
      && (forall id :: id in s.rows && id != p.projectionId ==> id in r.rows && r.rows[id] == s.rows[id])
      && r.rows.Keys == s.rows.Keys + {p.projectionId}
      && Used(r.db, version)
      && (forall v: nat :: Used(r.db, v) ==> Used(s.db, v) || v == version)
  {
    var r := PersistOne(s, version, p).value;
    var cell := Text(WorkflowKey(version, p.projectionId));
    KeyRoundTrip(version, p.projectionId);
    assert r.db.workflows == s.db.workflows + [cell];
    assert WorkflowVersion(cell) == Some(version);
    assert cell in r.db.workflows;
    assert SnapshotCells(r.db) == SnapshotCells(s.db);
  }

  /** `r` is `db` with the bindings of these pages, none of whose keys existed. */
  ghost predicate BoundBy(db: Db, r: Db, version: nat, rows: map<string, nat>, batch: seq<PageProjection>) {
    && r == db.(bindings := r.bindings)
    && r.bindings.Keys == db.bindings.Keys + NewKeys(version, batch)
    && db.bindings.Keys !! NewKeys(version, batch)
    && (forall k :: k in db.bindings ==> r.bindings[k] == db.bindings[k])
    && (forall p :: p in batch ==> p.projectionId in rows && r.bindings[KeyOf(version, p)] == rows[p.projectionId])
  }

  lemma BoundThen(db: Db, before: Db, version: nat, rows: map<string, nat>, batch: seq<PageProjection>)
    requires |batch| > 0 && BoundBy(db, before, version, rows, batch[..|batch| - 1])
    requires BindOne(before, version, rows, batch[|batch| - 1]).Some?
    ensures BoundBy(db, BindOne(before, version, rows, batch[|batch| - 1]).value, version, rows, batch)
  {
    var n := |batch| - 1;
    assert forall p :: p in batch <==> p in batch[..n] || p == batch[n];
    assert KeyOf(version, batch[n]) in NewKeys(version, batch);
    assert NewKeys(version, batch) == NewKeys(version, batch[..n]) + {KeyOf(version, batch[n])};
  }

  /** A binding batch that commits adds exactly the keys of its pages, none of which existed. */
  lemma {:induction false} BindEffect(db: Db, version: nat, rows: map<string, nat>, batch: seq<PageProjection>)
    requires BindBatch(db, version, rows, batch).Some?
    ensures BoundBy(db, BindBatch(db, version, rows, batch).value, version, rows, batch)
    decreases |batch|
  {
    if |batch| > 0 {
      hide BindOne, BoundBy;
      var n := |batch| - 1;
      BindEffect(db, version, rows, batch[..n]);
      BoundThen(db, BindBatch(db, version, rows, batch[..n]).value, version, rows, batch);
    }
  }

  // Every step keeps the invariant ----------------------------------------------------------

  lemma BoundGrows(db: Db, db': Db, version: nat, p: PageProjection)
    requires Grows(db, db') && BoundTo(db, version, p)
    requires KeyOf(version, p) in db'.bindings && db'.bindings[KeyOf(version, p)] == db.bindings[KeyOf(version, p)]
    ensures BoundTo(db', version, p)
  {
  }

  /** Adding rows, and bindings of other versions, keeps every activated version complete. */
  lemma {:induction false} LogGrows(db: Db, db': Db, writer: map<BindingKey, nat>, writer': map<BindingKey, nat>,
      log: seq<Activation>, version: nat)
    requires LogOk(db, writer, log) && Grows(db, db') && Above(version, log)
    requires forall k :: k in db.bindings ==> k in db'.bindings && db'.bindings[k] == db.bindings[k]
    requires forall k :: k in db'.bindings && k.version != version ==> k in db.bindings
    requires forall k :: k in writer && k.version != version ==> k in writer' && writer'[k] == writer[k]
    ensures LogOk(db', writer', log)
  {
    forall i | 0 <= i < |log|
      ensures ActivationOk(db', writer', log[i])
    {
      var a := log[i];
      assert ActivationOk(db, writer, a) && a.version < version;
      forall p | p in a.projections
        ensures BoundTo(db', a.version, p)
      {
        BoundGrows(db, db', a.version, p);
      }
    }
  }

  lemma StartKeeps(s: State, projections: seq<PageProjection>)
    requires Core(s)
    ensures Core(StartAttempt(s, projections))
  {
    var s' := StartAttempt(s, projections);
    if s' != s {
      var a := s'.attempt.value;
      assert AllBelow(s.db, a.version);
      forall i | 0 <= i < |s.log| ensures s.log[i].version < a.version {
        assert ActivationOk(s.db, s.writer, s.log[i]);
      }
    }
  }

  /** A batch already stored stays stored when another batch commits. */
  lemma StoredGrows(db: Db, db': Db, rows: map<string, nat>, more: map<string, nat>, batch: seq<PageProjection>)
    requires BatchStored(db, rows, batch) && Grows(db, db') && rows.Keys <= db.projectionIndex.Keys
    requires forall id :: id in more ==> id !in db.projectionIndex
    ensures BatchStored(db', rows + more, batch)
  {
    forall p | p in batch
      ensures p.projectionId in rows + more && Holds(db', (rows + more)[p.projectionId], p)
    {
      assert p.projectionId in db.projectionIndex;
      HoldsGrows(db, db', rows[p.projectionId], p);
    }
  }

  lemma ProjectKeeps(s: State, b: nat)
    requires Core(s)
    ensures Core(ProjectStep(s, b))
  {
    var s' := ProjectStep(s, b);
    if s' != s && s'.attempt.Some? {
      var a, a' := s.attempt.value, s'.attempt.value;
      var batches := a.ProjectionBatches();
      var r := PersistBatch(s.db, a.version, batches[b]).value;
      PersistEffect(s.db, a.version, batches[b]);
      BatchSizes(a.projections, PROJECTION_BATCH, b);
      LogGrows(s.db, s'.db, s.writer, s'.writer, s.log, a.version);
      assert a'.ProjectionBatches() == batches;
      forall c | c in a'.projected
        ensures c < |batches| && BatchStored(s'.db, a'.rows, batches[c])
      {
        if c in a.projected {
          StoredGrows(s.db, s'.db, a.rows, r.rows, batches[c]);
        } else {
          assert BatchStored(s'.db, r.rows, batches[b]);
        }
      }
      assert !a.AllProjected();
    }
  }

  /** Once every projection batch has committed, every page has its row. */
  lemma AllStored(db: Db, a: Attempt, p: PageProjection)
    requires ProjectedOk(db, a) && a.AllProjected() && p in a.projections
    ensures p.projectionId in a.rows && Holds(db, a.rows[p.projectionId], p) && a.projected != {}
  {
    BatchMembers(a.projections, PROJECTION_BATCH, p);
    var c :| 0 <= c < |a.ProjectionBatches()| && p in a.ProjectionBatches()[c];
    assert c in a.projected && BatchStored(db, a.rows, a.ProjectionBatches()[c]);
  }

  lemma AllBoundTo(db: Db, a: Attempt, p: PageProjection)
    requires BoundOk(db, a) && a.AllBound() && p in a.projections
    ensures BoundTo(db, a.version, p)
  {
    BatchMembers(a.projections, BINDING_BATCH, p);
    var c :| 0 <= c < |a.BindingBatches()| && p in a.BindingBatches()[c];
    assert c in a.bound && BatchBound(db, a.version, a.BindingBatches()[c]);
  }

  lemma BatchPages(db: Db, a: Attempt, b: nat)
    requires ProjectedOk(db, a) && a.AllProjected() && b < |a.BindingBatches()|
    ensures forall p :: p in a.BindingBatches()[b] ==>
      p in a.projections && p.projectionId in a.rows && Holds(db, a.rows[p.projectionId], p)
    ensures a.projected != {}
    ensures NewKeys(a.version, a.BindingBatches()[b]) <= NewKeys(a.version, a.projections)
  {
    var batch := a.BindingBatches()[b];
    BatchSizes(a.projections, BINDING_BATCH, b);
    forall p | p in batch
      ensures p in a.projections && p.projectionId in a.rows && Holds(db, a.rows[p.projectionId], p)
      ensures a.projected != {}
    {
      BatchMembers(a.projections, BINDING_BATCH, p);
      AllStored(db, a, p);
    }
    assert batch[0] in batch;
  }

  lemma OnlyByAfter(db: Db, db': Db, writer: map<BindingKey, nat>, a: Attempt, keys: set<BindingKey>)
    requires OnlyBy(db, writer, a.version, a.projections, a.number)
    requires keys <= NewKeys(a.version, a.projections)
    requires db'.bindings.Keys == db.bindings.Keys + keys
    ensures OnlyBy(db', writer + map k | k in keys :: a.number, a.version, a.projections, a.number)
  {
  }

  lemma BindGrows(db: Db, db': Db)
    requires db' == db.(bindings := db'.bindings)
    ensures Grows(db, db')
  {
    assert SnapshotCells(db') == SnapshotCells(db);
  }

  lemma BindingsAfter(db: Db, db': Db, version: nat, keys: set<BindingKey>)
    requires BindingsOk(db) && Grows(db, db') && Used(db, version)
    requires db'.bindings.Keys == db.bindings.Keys + keys
    requires forall k :: k in keys ==> k.version == version
    ensures BindingsOk(db')
  {
  }

  lemma BindCore(db: Db, db': Db, writer: map<BindingKey, nat>, log: seq<Activation>, a: Attempt, b: nat)
    requires RowsOk(db) && BindingsOk(db) && LogOk(db, writer, log) && AttemptOk(db, writer, log, a)
    requires a.AllProjected() && b < |a.BindingBatches()|
    requires BindBatch(db, a.version, a.rows, a.BindingBatches()[b]) == Some(db')
    ensures var keys := NewKeys(a.version, a.BindingBatches()[b]);
      var writer' := writer + map k | k in keys :: a.number;
      && RowsOk(db') && BindingsOk(db') && Grows(db, db') && db'.pointer == db.pointer
      && LogOk(db', writer', log)
      && OnlyBy(db', writer', a.version, a.projections, a.number)
      && a.projected != {}
  {
    hide BindBatch, Used, LogOk, Holds, BatchesOf;
    var batch := a.BindingBatches()[b];
    var keys := NewKeys(a.version, batch);
    var writer' := writer + map k | k in keys :: a.number;
    BindEffect(db, a.version, a.rows, batch);
    BatchPages(db, a, b);
    BindGrows(db, db');
    assert forall k :: k in keys ==> k.version == a.version;
    BindingsAfter(db, db', a.version, keys);
    OnlyByAfter(db, db', writer, a, keys);
    LogGrows(db, db', writer, writer', log, a.version);
  }

  lemma BindKeeps(s: State, b: nat)
    requires Core(s)
    ensures Core(BindStep(s, b))
  {
    var s' := BindStep(s, b);
    if s' != s && s'.attempt.Some? {
      var a, a' := s.attempt.value, s'.attempt.value;
      BindCore(s.db, s'.db, s.writer, s.log, a, b);
      BatchPages(s.db, a, b);
      BoundAfter(s.db, s'.db, a, b);
      StoredAfter(s.db, s'.db, a, a');
    }
  }

  lemma StoredAfter(db: Db, db': Db, a: Attempt, a': Attempt)
    requires ProjectedOk(db, a) && Grows(db, db') && a' == a.(bound := a'.bound)
    ensures ProjectedOk(db', a')
  {
    forall c | c in a'.projected
      ensures c < |a'.ProjectionBatches()| && BatchStored(db', a'.rows, a'.ProjectionBatches()[c])
    {
      StoredGrows(db, db', a.rows, map[], a.ProjectionBatches()[c]);
      assert a.rows + map[] == a.rows;
    }
  }

  lemma BoundAfter(db: Db, db': Db, a: Attempt, b: nat)
    requires BoundOk(db, a) && b < |a.BindingBatches()| && a.AllProjected() && Grows(db, db')
    requires BindBatch(db, a.version, a.rows, a.BindingBatches()[b]) == Some(db')
    requires forall p :: p in a.BindingBatches()[b] ==> p.projectionId in a.rows && Holds(db, a.rows[p.projectionId], p)
    ensures BoundOk(db', a.(bound := a.bound + {b}))
  {
    var a' := a.(bound := a.bound + {b});
    BindEffect(db, a.version, a.rows, a.BindingBatches()[b]);
    forall c | c in a'.bound
      ensures c < |a'.BindingBatches()| && BatchBound(db', a'.version, a'.BindingBatches()[c])
    {
      forall p | p in a.BindingBatches()[c]
        ensures BoundTo(db', a.version, p)
      {
        if c in a.bound {
          assert BatchBound(db, a.version, a.BindingBatches()[c]);
          BoundGrows(db, db', a.version, p);
        } else {
          HoldsGrows(db, db', a.rows[p.projectionId], p);
        }
      }
    }
  }

  /** Inserting a snapshot mentions its version and forgets nothing. */
  lemma SnapshotEffect(db: Db, db': Db, version: nat)
    requires IsVersion(version)
    requires exists previous :: db'.snapshots == db.snapshots + [Snapshot(version, previous)]
    requires db' == db.(snapshots := db'.snapshots, pointer := db'.pointer)
    ensures Grows(db, db') && Used(db', version)
  {
    var cells, cells' := SnapshotCells(db), SnapshotCells(db');
    assert cells' == cells + [Number(version)];
    assert Number(version) in cells' && SnapshotVersion(Number(version)) == Some(version);
    forall v: nat | Used(db, v) ensures Used(db', v) {
      if c :| c in cells && SnapshotVersion(c) == Some(v) { assert c in cells'; }
    }
  }

  lemma PointerAdvances(found: Option<Pointer>, pointer: Option<Pointer>, log: seq<Activation>, act: Activation)
    requires PointerOk(found, pointer, log)
    ensures PointerOk(found, Some(PlanActivation(pointer, act.version).desired), log + [act])
  {
  }

  lemma ActivateDbEffect(db: Db, version: nat)
    requires ActivateDb(db, db.pointer, version).Some?
    ensures var r := ActivateDb(db, db.pointer, version).value;
      var previous := if db.pointer.Some? then db.pointer.value.publishVersion else None;
      r == db.(snapshots := db.snapshots + [Snapshot(version, previous)],
               pointer := Some(PlanActivation(db.pointer, version).desired))
  {
  }

  lemma ActivateKeeps(s: State)
    requires Core(s)
    ensures Core(ActivateStep(s))
  {
    hide Used, Accepted, ActivateDb, PlanActivation, PointerOk, SnapshotCells;
    var s' := ActivateStep(s);
    if s'.log != s.log {
      var a := s.attempt.value;
      var act := Activation(a.number, a.version, a.projections);
      ActivateDbEffect(s.db, a.version);
      SnapshotEffect(s.db, s'.db, a.version);
      PointerAdvances(s.base.pointer, s.db.pointer, s.log, act);
      LogGrows(s.db, s'.db, s.writer, s'.writer, s.log, a.version);
      forall p | p in a.projections
        ensures BoundTo(s'.db, a.version, p)
      {
        AllBoundTo(s.db, a, p);
        BoundGrows(s.db, s'.db, a.version, p);
      }
      assert OnlyBy(s'.db, s'.writer, a.version, a.projections, a.number);
      assert ActivationOk(s'.db, s'.writer, act);
      assert s'.log == s.log + [act];
    }
  }

  lemma FrozenGrows(base: Db, db: Db, db': Db)
    requires Frozen(base, db) && Grows(db, db') && db'.bindings == db.bindings
    ensures Frozen(base, db')
  {
    hide Used;
  }

  lemma FrozenBinds(base: Db, db: Db, db': Db, version: nat)
    requires Frozen(base, db) && Grows(db, db') && AllBelow(base, version)
    requires forall k :: k in db.bindings ==> k in db'.bindings && db'.bindings[k] == db.bindings[k]
    requires forall k :: k in db'.bindings && k.version != version ==> k in db.bindings
    ensures Frozen(base, db')
  {
    hide Used;
  }

  lemma StepGrows(s: State, e: Step)
    requires Core(s)
    ensures Grows(s.db, Apply(s, e).db) && s.log <= Apply(s, e).log && Apply(s, e).base == s.base
  {
    hide Used, Accepted, LogOk, BatchesOf, OnlyBy, PointerOk, ProjectedOk, BoundOk;
    var s' := Apply(s, e);
    if s'.db != s.db {
      var a := s.attempt.value;
      match e
      case CommitProjections(b) =>
        PersistEffect(s.db, a.version, a.ProjectionBatches()[b]);
      case CommitBindings(b) =>
        BindEffect(s.db, a.version, a.rows, a.BindingBatches()[b]);
        BindGrows(s.db, s'.db);
      case Activate =>
        var previous := if a.seen.Some? then a.seen.value.publishVersion else None;
        assert s'.db.snapshots == s.db.snapshots + [Snapshot(a.version, previous)];
        SnapshotEffect(s.db, s'.db, a.version);
    }
  }

  /** Bindings only ever gain keys of the attempt's own version. */
  lemma StepBinds(s: State, e: Step)
    requires Core(s)
    ensures var db, db' := s.db, Apply(s, e).db;
      && (forall k :: k in db.bindings ==> k in db'.bindings && db'.bindings[k] == db.bindings[k])
      && (forall k :: k in db'.bindings && k !in db.bindings ==>
            s.attempt.Some? && k.version == s.attempt.value.version)
  {
    var s' := Apply(s, e);
    if s'.db != s.db {
      var a := s.attempt.value;
      match e
      case CommitProjections(b) => PersistEffect(s.db, a.version, a.ProjectionBatches()[b]);
      case CommitBindings(b) => BindEffect(s.db, a.version, a.rows, a.BindingBatches()[b]);
      case Activate =>
    }
  }

  /** The attempt stays the one it was, or ends, unless a new one starts. */
  lemma StepAttempt(s: State, e: Step)
    ensures var s' := Apply(s, e);
      s'.attempt.Some? ==>
        if s.attempt.Some? then
          && s'.attempt.value.version == s.attempt.value.version
          && s'.attempt.value.projections == s.attempt.value.projections
        else e == Start(s'.attempt.value.projections) && s'.attempt.value.version == FreshVersion(s.db) && s'.db == s.db
    ensures Apply(s, e).log != s.log ==>
      && e == Activate && s.attempt.Some?
      && Apply(s, e).log ==
           s.log + [Activation(s.attempt.value.number, s.attempt.value.version, s.attempt.value.projections)]
  {
    hide FreshVersion;
  }

  lemma StepKeepsBase(s: State, e: Step)
    requires Inv(s)
    ensures BaseKept(Apply(s, e))
  {
    var s' := Apply(s, e);
    StepGrows(s, e);
    StepBinds(s, e);
    StepAttempt(s, e);
    hide Apply, Used, Core;
    if s.attempt.Some? {
      FrozenBinds(s.base, s.db, s'.db, s.attempt.value.version);
    } else {
      FrozenGrows(s.base, s.db, s'.db) by { assert s'.db.bindings == s.db.bindings; }
    }
    if s.attempt.None? && s'.attempt.Some? { FreshIsAbove(s.db); }
  }

  lemma FreshIsAbove(db: Db)
    ensures AllBelow(db, FreshVersion(db))
  {
  }

  lemma {:induction false} StepKeeps(s: State, e: Step)
    requires Inv(s)
    ensures Inv(Apply(s, e))
  {
    StepKeepsBase(s, e);
    match e
    case Start(projections) => StartKeeps(s, projections);
    case CommitProjections(b) => ProjectKeeps(s, b);
    case CommitBindings(b) => BindKeeps(s, b);
    case Activate => ActivateKeeps(s);
    case Crash =>
  }

  lemma {:induction false} RunKeeps(s: State, steps: seq<Step>)
    requires Inv(s)
    ensures Inv(Run(s, steps))
    decreases |steps|
  {
    if |steps| > 0 {
      RunKeeps(s, steps[..|steps| - 1]);
      StepKeeps(Run(s, steps[..|steps| - 1]), steps[|steps| - 1]);
    }
  }

  // What holds over every run ---------------------------------------------------------------

  lemma {:induction false} RunGrows(s: State, steps: seq<Step>)
    requires Inv(s)
    ensures Grows(s.db, Run(s, steps).db) && s.log <= Run(s, steps).log && Run(s, steps).base == s.base
    decreases |steps|
  {
    if |steps| > 0 {
      RunGrows(s, steps[..|steps| - 1]);
      RunKeeps(s, steps[..|steps| - 1]);
      StepGrows(Run(s, steps[..|steps| - 1]), steps[|steps| - 1]);
    }
  }

  /** From any database that earlier publishers left, after any sequence of attempts, each cut short
      after any committed transaction: every version activated has exactly the bindings of the pages
      its attempt built, all written by that attempt, each leading to a stored row that reads back as
      its page; these versions strictly increase and are newer than all that was found; and the
      pointer counts on from the one found and names the last two versions. */
  lemma {:induction false} PublishSafety(s: State, steps: seq<Step>)
    requires Init(s)
    ensures var t := Run(s, steps);
      && Increasing(t.log) && NewerThan(s.base, t.log)
      && PointerOk(s.base.pointer, t.db.pointer, t.log)
      && (forall i :: 0 <= i < |t.log| ==> Accepted(t.log[i].projections) && CompleteSet(t.db, t.writer, t.log[i]))
      && Frozen(s.base, t.db)
  {
    InitKeeps(s);
    RunKeeps(s, steps);
    RunGrows(s, steps);
    hide Run, Accepted, CompleteSet, Used, AttemptOk, RowsOk, BindingsOk, Increasing, Init;
    var t := Run(s, steps);
    forall i | 0 <= i < |t.log|
      ensures Accepted(t.log[i].projections) && CompleteSet(t.db, t.writer, t.log[i])
    {
      assert ActivationOk(t.db, t.writer, t.log[i]);
    }
  }

  lemma InitKeeps(s: State)
    requires Init(s)
    ensures Inv(s)
  {
  }

  /** A step moves the pointer only by activating the attempt's version: above every version activated
      before, with the revision one higher and the version active just before as the previous one. */
  lemma {:induction false} ActivationAdvances(s: State, e: Step)
    requires Inv(s) && Apply(s, e).db.pointer != s.db.pointer
    ensures e == Activate && s.attempt.Some?
    ensures var s', a := Apply(s, e), s.attempt.value;
      var before := s.db.pointer.GetOr(Pointer(None, None, 0));
      && s'.db.pointer == Some(Pointer(Some(a.version), before.publishVersion, before.revision + 1))
      && Above(a.version, s.log) && s'.log == s.log + [Activation(a.number, a.version, a.projections)]
      && s'.db.snapshots == s.db.snapshots + [Snapshot(a.version, before.publishVersion)]
  {
    match e
    case CommitProjections(b) =>
      if s.attempt.Some? && b < |s.attempt.value.ProjectionBatches()| &&
         PersistBatch(s.db, s.attempt.value.version, s.attempt.value.ProjectionBatches()[b]).Some? {
        PersistEffect(s.db, s.attempt.value.version, s.attempt.value.ProjectionBatches()[b]);
      }
    case CommitBindings(b) =>
      if s.attempt.Some? && b < |s.attempt.value.BindingBatches()| &&
         BindBatch(s.db, s.attempt.value.version, s.attempt.value.rows, s.attempt.value.BindingBatches()[b]).Some? {
        BindEffect(s.db, s.attempt.value.version, s.attempt.value.rows, s.attempt.value.BindingBatches()[b]);
      }
    case _ =>
  }

  // Freshness over a run -----------------------------------------------------------------------

  /** The attempt of `t` began at `u`: its version is above all `u` mentions, and since then only that
      version has been newly mentioned. */
  ghost predicate BeganAt(u: State, t: State) {
    && u.attempt.None? && t.attempt.Some?
    && AllBelow(u.db, t.attempt.value.version)
    && (forall v: nat :: Used(t.db, v) ==> Used(u.db, v) || v == t.attempt.value.version)
  }

  lemma StepMentions(s: State, e: Step)
    requires Core(s)
    ensures forall v: nat :: Used(Apply(s, e).db, v) ==>
      Used(s.db, v) || (s.attempt.Some? && v == s.attempt.value.version)
  {
    var s' := Apply(s, e);
    if s'.db != s.db {
      var a := s.attempt.value;
      match e
      case CommitProjections(b) =>
        PersistEffect(s.db, a.version, a.ProjectionBatches()[b]);
      case CommitBindings(b) =>
        BindEffect(s.db, a.version, a.rows, a.BindingBatches()[b]);
        assert SnapshotCells(s'.db) == SnapshotCells(s.db);
      case Activate =>
        assert SnapshotCells(s'.db) == SnapshotCells(s.db) + [Number(a.version)];
    }
  }

  /** Every attempt in progress began at a Start step of the run. */
  lemma {:induction false} AttemptBegan(s: State, steps: seq<Step>) returns (n: nat)
    requires Inv(s) && s.attempt.None? && Run(s, steps).attempt.Some?
    ensures n < |steps| && steps[n] == Start(Run(s, steps).attempt.value.projections)
    ensures BeganAt(Run(s, steps[..n]), Run(s, steps))
    decreases |steps|
  {
    hide Apply, Used, Core, BaseKept, FreshVersion;
    assert |steps| > 0;
    var last := |steps| - 1;
    var t, e := Run(s, steps[..last]), steps[last];
    RunKeeps(s, steps[..last]);
    StepAttempt(t, e);
    if t.attempt.None? {
      n := last;
      FreshIsAbove(t.db);
    } else {
      n := AttemptBegan(s, steps[..last]);
      assert steps[..last][..n] == steps[..n];
      StepMentions(t, e);
    }
  }

  /** Over every run, when the pointer moves, the version it moves to was above every version that any
      snapshot or workflow key mentioned when its attempt began, whoever wrote them and whatever
      became of it, and is now the greatest of all those mentioned. */
  lemma {:induction false} ActivatesFreshVersion(s: State, steps: seq<Step>, e: Step)
    requires Init(s) && Apply(Run(s, steps), e).db.pointer != Run(s, steps).db.pointer
    ensures var t := Run(s, steps);
      && t.attempt.Some?
      && (exists n: nat :: n < |steps| && steps[n] == Start(t.attempt.value.projections)
            && AllBelow(Run(s, steps[..n]).db, t.attempt.value.version))
      && forall v: nat :: Used(Apply(t, e).db, v) ==> v <= t.attempt.value.version
  {
    InitKeeps(s);
    RunKeeps(s, steps);
    var t := Run(s, steps);
    ActivationAdvances(t, e);
    var n := AttemptBegan(s, steps);
    StepMentions(t, e);
  }
}
