/** An uninterrupted attempt always activates its version, in whatever order its batches commit. */
module PublicationProgress {
  import opened Contracts
  import opened Versions
  import opened Batches
  import opened Publication
  import opened PublicationSafety

  ghost predicate DistinctIds(pages: seq<PageProjection>) {
    forall i, j :: 0 <= i < j < |pages| ==> pages[i].projectionId != pages[j].projectionId
  }

  ghost predicate DistinctKeys(pages: seq<PageProjection>) {
    forall i, j :: 0 <= i < j < |pages| ==> KeyOf(0, pages[i]) != KeyOf(0, pages[j])
  }

  function Ids(pages: seq<PageProjection>): set<string> {
    set p | p in pages :: p.projectionId
  }

  function KeyCells(version: nat, pages: seq<PageProjection>): set<Cell> {
    set p | p in pages :: Text(WorkflowKey(version, p.projectionId))
  }

  // One transaction goes through -------------------------------------------------------------

  /** Nothing stands in the way of storing `p`. */
  ghost predicate Storable(db: Db, version: nat, p: PageProjection) {
    p.projectionId !in db.projectionIndex && Text(WorkflowKey(version, p.projectionId)) !in db.workflows
  }

  lemma {:induction false} PersistSucceeds(db: Db, version: nat, batch: seq<PageProjection>)
    requires IsVersion(version) && DistinctIds(batch)
    requires forall i :: 0 <= i < |batch| ==> Storable(db, version, batch[i])
    ensures PersistBatch(db, version, batch).Some?
    decreases |batch|
  {
    if |batch| > 0 {
      var n := |batch| - 1;
      PersistSucceeds(db, version, batch[..n]);
      PersistKeepsStorable(db, version, batch[..n], batch[n]);
    }
  }

  lemma {:induction false} PersistKeepsStorable(db: Db, version: nat, batch: seq<PageProjection>, p: PageProjection)
    requires IsVersion(version) && PersistBatch(db, version, batch).Some? && Storable(db, version, p)
    requires forall i :: 0 <= i < |batch| ==> batch[i].projectionId != p.projectionId
    ensures Storable(PersistBatch(db, version, batch).value.db, version, p)
    decreases |batch|
  {
    if |batch| > 0 {
      var n := |batch| - 1;
      PersistKeepsStorable(db, version, batch[..n], p);
      KeysDiffer(version, p.projectionId, version, batch[n].projectionId);
    }
  }

  lemma {:induction false} PersistContents(db: Db, version: nat, batch: seq<PageProjection>)
    requires PersistBatch(db, version, batch).Some?
    ensures var r := PersistBatch(db, version, batch).value;
      && r.db.projectionIndex.Keys == db.projectionIndex.Keys + Ids(batch)
      && (forall c :: c in r.db.workflows ==> c in db.workflows || c in KeyCells(version, batch))
      && (forall id :: id in r.rows ==> db.nextRow <= r.rows[id] < r.db.nextRow)
      && db.nextRow <= r.db.nextRow
      && Injective(r.rows)
    decreases |batch|
  {
    if |batch| > 0 {
      var n := |batch| - 1;
      PersistContents(db, version, batch[..n]);
      assert forall p :: p in batch <==> p in batch[..n] || p == batch[n];
      assert Ids(batch) == Ids(batch[..n]) + {batch[n].projectionId};
      assert KeyCells(version, batch) ==
        KeyCells(version, batch[..n]) + {Text(WorkflowKey(version, batch[n].projectionId))};
    }
  }

  /** Nothing stands in the way of binding `p`. */
  ghost predicate Bindable(db: Db, version: nat, rows: map<string, nat>, p: PageProjection) {
    && p.projectionId in rows && KeyOf(version, p) !in db.bindings
    && forall k :: k in db.bindings && k.version == version ==> db.bindings[k] != rows[p.projectionId]
  }

  ghost predicate Injective(rows: map<string, nat>) {
    forall id, other :: id in rows && other in rows && rows[id] == rows[other] ==> id == other
  }

  lemma {:induction false} BindKeepsBindable(db: Db, version: nat, rows: map<string, nat>, batch: seq<PageProjection>,
      p: PageProjection)
    requires BindBatch(db, version, rows, batch).Some? && Bindable(db, version, rows, p) && Injective(rows)
    requires forall i :: 0 <= i < |batch| ==>
      KeyOf(0, batch[i]) != KeyOf(0, p) && batch[i].projectionId != p.projectionId
    ensures Bindable(BindBatch(db, version, rows, batch).value, version, rows, p)
    decreases |batch|
  {
    if |batch| > 0 {
      var n := |batch| - 1;
      BindKeepsBindable(db, version, rows, batch[..n], p);
      var before := BindBatch(db, version, rows, batch[..n]).value;
      assert KeyOf(version, batch[n]) != KeyOf(version, p) by { assert KeyOf(0, batch[n]) != KeyOf(0, p); }
      assert BindOne(before, version, rows, batch[n]).Some?;
    }
  }

  lemma {:induction false} BindSucceeds(db: Db, version: nat, rows: map<string, nat>, batch: seq<PageProjection>)
    requires DistinctIds(batch) && DistinctKeys(batch) && Injective(rows)
    requires forall i :: 0 <= i < |batch| ==> Bindable(db, version, rows, batch[i])
    ensures BindBatch(db, version, rows, batch).Some?
    decreases |batch|
  {
    if |batch| > 0 {
      var n := |batch| - 1;
      BindSucceeds(db, version, rows, batch[..n]);
      BindKeepsBindable(db, version, rows, batch[..n], batch[n]);
    }
  }

  // Batches of distinct pages share nothing --------------------------------------------------

  lemma BatchPlace(pages: seq<PageProjection>, size: nat, b: nat, p: PageProjection) returns (x: nat)
    requires size > 0 && b < Count(|pages|, size) && p in BatchesOf(pages, size)[b]
    ensures x < size && b * size + x < |pages| && pages[b * size + x] == p
  {
    x :| 0 <= x < |BatchesOf(pages, size)[b]| && BatchesOf(pages, size)[b][x] == p;
    BatchIndex(pages, size, b, x);
  }

  lemma Places(pages: seq<PageProjection>, size: nat, b: nat, c: nat, p: PageProjection,
      q: PageProjection) returns (i: nat, j: nat)
    requires size > 0 && b < Count(|pages|, size) && c < Count(|pages|, size) && b != c
    requires p in BatchesOf(pages, size)[b] && q in BatchesOf(pages, size)[c]
    ensures i < |pages| && j < |pages| && i != j && pages[i] == p && pages[j] == q
  {
    var x := BatchPlace(pages, size, b, p);
    var y := BatchPlace(pages, size, c, q);
    if b < c { PlaceOrder(b, x, c, y, size); } else { PlaceOrder(c, y, b, x, size); }
    i, j := b * size + x, c * size + y;
  }

  lemma BatchesDisjoint(pages: seq<PageProjection>, size: nat, b: nat, c: nat, p: PageProjection, q: PageProjection)
    requires size > 0 && b < Count(|pages|, size) && c < Count(|pages|, size) && b != c
    requires p in BatchesOf(pages, size)[b] && q in BatchesOf(pages, size)[c]
    ensures DistinctIds(pages) ==> p.projectionId != q.projectionId
    ensures DistinctKeys(pages) ==> KeyOf(0, p) != KeyOf(0, q)
  {
    hide BatchesOf;
    var i, j := Places(pages, size, b, c, p, q);
  }

  lemma BatchDistinct(pages: seq<PageProjection>, size: nat, b: nat)
    requires size > 0 && b < Count(|pages|, size)
    ensures DistinctIds(pages) ==> DistinctIds(BatchesOf(pages, size)[b])
    ensures DistinctKeys(pages) ==> DistinctKeys(BatchesOf(pages, size)[b])
  {
    hide BatchesOf;
    var batch := BatchesOf(pages, size)[b];
    var low := b * size;
    forall i: nat | i < |batch|
      ensures low + i < |pages| && batch[i] == pages[low + i]
    {
      BatchIndex(pages, size, b, i);
    }
    SegmentDistinct(pages, batch, low);
  }

  lemma SegmentDistinct(pages: seq<PageProjection>, batch: seq<PageProjection>, low: nat)
    requires forall i: nat :: i < |batch| ==> low + i < |pages| && batch[i] == pages[low + i]
    ensures DistinctIds(pages) ==> DistinctIds(batch)
    ensures DistinctKeys(pages) ==> DistinctKeys(batch)
  {
    if DistinctIds(pages) {
      forall i, j | 0 <= i < j < |batch| ensures batch[i].projectionId != batch[j].projectionId {
        var p, q := batch[i], batch[j];
        assert p == pages[low + i] && q == pages[low + j];
      }
    }
    if DistinctKeys(pages) {
      forall i, j | 0 <= i < j < |batch| ensures KeyOf(0, batch[i]) != KeyOf(0, batch[j]) {
        var p, q := batch[i], batch[j];
        assert p == pages[low + i] && q == pages[low + j];
      }
    }
  }

  // The attempt so far -----------------------------------------------------------------------

  ghost predicate InDone(id: string, batches: seq<seq<PageProjection>>, done: set<nat>) {
    exists b, p :: b in done && b < |batches| && p in batches[b] && p.projectionId == id
  }

  ghost predicate KeyInDone(k: BindingKey, version: nat, batches: seq<seq<PageProjection>>, done: set<nat>,
      rows: map<string, nat>, row: nat) {
    exists b, p :: b in done && b < |batches| && p in batches[b] && k == KeyOf(version, p) && p.projectionId in rows &&
      rows[p.projectionId] == row
  }

  /** `t` is an attempt to publish `pages` begun in `s`, with nothing in its way so far. */
  ghost predicate Building(s: State, t: State, pages: seq<PageProjection>) {
    && Inv(t) && t.attempt.Some? && t.log == s.log && t.db.pointer == s.db.pointer && t.db.snapshots == s.db.snapshots
    && var a := t.attempt.value;
      && a.number == s.attempts && a.version == FreshVersion(s.db) && a.projections == pages
      && a.rows.Keys <= t.db.projectionIndex.Keys
      && (forall id :: id in t.db.projectionIndex ==>
            id in s.db.projectionIndex || InDone(id, a.ProjectionBatches(), a.projected))
      && (forall id :: Text(WorkflowKey(a.version, id)) in t.db.workflows ==>
            InDone(id, a.ProjectionBatches(), a.projected))
      && Injective(a.rows)
      && (forall id :: id in a.rows ==> a.rows[id] < t.db.nextRow)
      && (forall k :: k in t.db.bindings && k.version == a.version ==>
            KeyInDone(k, a.version, a.BindingBatches(), a.bound, a.rows, t.db.bindings[k]))
  }

  ghost predicate Ready(s: State, pages: seq<PageProjection>) {
    && Inv(s) && s.attempt.None? && IsVersion(FreshVersion(s.db))
    && Accepted(pages) && DistinctIds(pages)
    && (forall p :: p in pages ==> p.projectionId !in s.db.projectionIndex)
  }

  lemma StartBuilds(s: State, pages: seq<PageProjection>)
    requires Ready(s, pages)
    ensures Building(s, StartAttempt(s, pages), pages) && StartAttempt(s, pages).attempt.value.bound == {}
    ensures StartAttempt(s, pages).attempt.value.projected == {}
  {
    var t := StartAttempt(s, pages);
    StepKeeps(s, Start(pages));
    var version := FreshVersion(s.db);
    assert forall v: nat :: Used(s.db, v) ==> v < version;
    forall id ensures Text(WorkflowKey(version, id)) !in t.db.workflows {
      if Text(WorkflowKey(version, id)) in t.db.workflows { UsedByKey(s.db, version, id); }
    }
    assert !Used(s.db, version);
  }

  lemma BuildingFacts(s: State, t: State, pages: seq<PageProjection>)
    requires Building(s, t, pages)
    ensures RowsOk(t.db) && IsVersion(t.attempt.value.version)
    ensures ProjectedOk(t.db, t.attempt.value)
    ensures var a := t.attempt.value;
      && a.seen == t.db.pointer && t.log == s.log && t.db.snapshots == s.db.snapshots
      && a.number == s.attempts && a.version == FreshVersion(s.db) && a.projections == pages
  {
  }

  lemma NotYetDone(pages: seq<PageProjection>, b: nat, p: PageProjection, done: set<nat>)
    requires DistinctIds(pages) && b < Count(|pages|, PROJECTION_BATCH) && b !in done
    requires p in BatchesOf(pages, PROJECTION_BATCH)[b]
    ensures p in pages && !InDone(p.projectionId, BatchesOf(pages, PROJECTION_BATCH), done)
  {
    var batches := BatchesOf(pages, PROJECTION_BATCH);
    BatchMembers(pages, PROJECTION_BATCH, p);
    forall c: nat, q: PageProjection | c in done && c < |batches| && q in batches[c]
      ensures q.projectionId != p.projectionId
    {
      BatchesDisjoint(pages, PROJECTION_BATCH, b, c, p, q);
    }
  }

  lemma ProjectGoesThrough(db: Db, a: Attempt, b: nat)
    requires DistinctIds(a.projections) && IsVersion(a.version) && RowsOk(db)
    requires b < |a.ProjectionBatches()| && b !in a.projected
    requires forall p :: p in a.projections ==>
      p.projectionId !in db.projectionIndex || InDone(p.projectionId, a.ProjectionBatches(), a.projected)
    requires forall id :: Text(WorkflowKey(a.version, id)) in db.workflows ==>
      InDone(id, a.ProjectionBatches(), a.projected)
    ensures PersistBatch(db, a.version, a.ProjectionBatches()[b]).Some?
  {
    hide InDone;
    var batch := a.ProjectionBatches()[b];
    BatchDistinct(a.projections, PROJECTION_BATCH, b);
    forall i | 0 <= i < |batch|
      ensures Storable(db, a.version, batch[i])
    {
      NotYetDone(a.projections, b, batch[i], a.projected);
    }
    PersistSucceeds(db, a.version, batch);
  }

  lemma ProjectAssembles(s: State, t: State, t': State, pages: seq<PageProjection>, b: nat, r: Persisted)
    requires Building(s, t, pages) && Inv(t') && t'.log == t.log && IsVersion(t.attempt.value.version)
    requires t.attempt.value.bound == {} && b < |t.attempt.value.ProjectionBatches()|
    requires PersistBatch(t.db, t.attempt.value.version, t.attempt.value.ProjectionBatches()[b]) == Some(r)
    requires t'.attempt ==
      Some(t.attempt.value.(rows := t.attempt.value.rows + r.rows, projected := t.attempt.value.projected + {b}))
    requires t'.db == r.db && r.db.bindings == t.db.bindings && r.db.pointer == t.db.pointer
    requires r.db.snapshots == t.db.snapshots
    requires forall id :: id in r.rows ==> id in r.db.projectionIndex
    ensures Building(s, t', pages)
  {
    hide Inv, BatchesOf, PersistBatch;
    var a, a' := t.attempt.value, t'.attempt.value;
    PersistContents(t.db, a.version, a.ProjectionBatches()[b]);
    ProjectDone(a, a', b, t.db, t'.db);
    RowsJoin(a.rows, r.rows, t.db.nextRow, r.db.nextRow);
    hide InDone, Injective;
  }

  lemma ProjectBuilds(s: State, t: State, pages: seq<PageProjection>, b: nat)
    requires Ready(s, pages) && Building(s, t, pages) && t.attempt.value.bound == {}
    requires b < Count(|pages|, PROJECTION_BATCH)
    ensures var t' := ProjectStep(t, b);
      && Building(s, t', pages) && t'.attempt.value.bound == {}
      && t'.attempt.value.projected == t.attempt.value.projected + {b}
  {
    hide Inv, RowsOk, Accepted, InDone, DistinctIds, PersistBatch, BatchesOf, Injective;
    var a := t.attempt.value;
    StepKeeps(t, CommitProjections(b));
    BuildingFacts(s, t, pages);
    if b !in a.projected {
      ProjectGoesThrough(t.db, a, b);
      PersistEffect(t.db, a.version, a.ProjectionBatches()[b]);
      ProjectAssembles(s, t, ProjectStep(t, b), pages, b,
        PersistBatch(t.db, a.version, a.ProjectionBatches()[b]).value);
    }
  }

  lemma RowsJoin(rows: map<string, nat>, more: map<string, nat>, low: nat, high: nat)
    requires Injective(rows) && Injective(more) && low <= high
    requires forall id :: id in rows ==> rows[id] < low
    requires forall id :: id in more ==> low <= more[id] < high
    ensures Injective(rows + more)
    ensures forall id :: id in rows + more ==> (rows + more)[id] < high
  {
  }

  lemma ProjectDone(a: Attempt, a': Attempt, b: nat, db: Db, db': Db)
    requires b < |a.ProjectionBatches()| && IsVersion(a.version)
    requires a' == a.(rows := a'.rows, projected := a.projected + {b})
    requires db'.projectionIndex.Keys == db.projectionIndex.Keys + Ids(a.ProjectionBatches()[b])
    requires forall c :: c in db'.workflows ==> c in db.workflows || c in KeyCells(a.version, a.ProjectionBatches()[b])
    ensures forall id :: id in db'.projectionIndex && id !in db.projectionIndex ==>
      InDone(id, a'.ProjectionBatches(), a'.projected)
    ensures forall id :: InDone(id, a.ProjectionBatches(), a.projected) ==>
      InDone(id, a'.ProjectionBatches(), a'.projected)
    ensures forall id :: Text(WorkflowKey(a.version, id)) in db'.workflows ==>
      Text(WorkflowKey(a.version, id)) in db.workflows || InDone(id, a'.ProjectionBatches(), a'.projected)
  {
    var batches := a.ProjectionBatches();
    assert a'.ProjectionBatches() == batches;
    forall id | Text(WorkflowKey(a.version, id)) in db'.workflows && Text(WorkflowKey(a.version, id)) !in db.workflows
      ensures InDone(id, batches, a'.projected)
    {
      var p: PageProjection :| p in batches[b] &&
        Text(WorkflowKey(a.version, id)) == Text(WorkflowKey(a.version, p.projectionId));
      if p.projectionId != id { KeysDiffer(a.version, p.projectionId, a.version, id); }
    }
  }

  lemma BindGoesThrough(db: Db, a: Attempt, b: nat)
    requires Accepted(a.projections) && DistinctIds(a.projections) && Injective(a.rows)
    requires ProjectedOk(db, a) && a.AllProjected() && b < |a.BindingBatches()| && b !in a.bound
    requires forall k :: k in db.bindings && k.version == a.version ==>
      KeyInDone(k, a.version, a.BindingBatches(), a.bound, a.rows, db.bindings[k])
    ensures var r := BindBatch(db, a.version, a.rows, a.BindingBatches()[b]);
      && r.Some? && r.value == db.(bindings := r.value.bindings)
      && forall k :: k in r.value.bindings && k.version == a.version ==>
           KeyInDone(k, a.version, a.BindingBatches(), a.bound + {b}, a.rows, r.value.bindings[k])
  {
    var batch := a.BindingBatches()[b];
    BatchDistinct(a.projections, BINDING_BATCH, b);
    BatchPages(db, a, b);
    forall i | 0 <= i < |batch|
      ensures Bindable(db, a.version, a.rows, batch[i])
    {
      StillBindable(db, a, b, batch[i]);
    }
    BindSucceeds(db, a.version, a.rows, batch);
    BindEffect(db, a.version, a.rows, batch);
    BindDone(db, BindBatch(db, a.version, a.rows, batch).value, a, b);
  }

  lemma BindAssembles(s: State, t: State, t': State, pages: seq<PageProjection>, b: nat)
    requires Building(s, t, pages) && Inv(t') && t'.log == t.log
    requires t'.attempt == Some(t.attempt.value.(bound := t.attempt.value.bound + {b}))
    requires t'.db == t.db.(bindings := t'.db.bindings)
    requires var a := t.attempt.value;
      forall k :: k in t'.db.bindings && k.version == a.version ==>
        KeyInDone(k, a.version, a.BindingBatches(), a.bound + {b}, a.rows, t'.db.bindings[k])
    ensures Building(s, t', pages)
    ensures t.attempt.value.AllProjected() ==> t'.attempt.value.AllProjected()
  {
    hide Inv, KeyInDone, InDone, Injective, BatchesOf;
    assert t'.attempt.value.ProjectionBatches() == t.attempt.value.ProjectionBatches();
    assert t'.attempt.value.BindingBatches() == t.attempt.value.BindingBatches();
  }

  lemma BindBuilds(s: State, t: State, pages: seq<PageProjection>, b: nat)
    requires Ready(s, pages) && Building(s, t, pages) && t.attempt.value.AllProjected()
    requires b < Count(|pages|, BINDING_BATCH)
    ensures var t' := BindStep(t, b);
      && Building(s, t', pages) && t'.attempt.value.AllProjected()
      && t'.attempt.value.bound == t.attempt.value.bound + {b}
  {
    hide Inv, BindBatch, KeyInDone, InDone, Injective, Accepted, DistinctIds, ProjectedOk, BatchesOf;
    var a := t.attempt.value;
    StepKeeps(t, CommitBindings(b));
    BuildingFacts(s, t, pages);
    if b !in a.bound {
      BindGoesThrough(t.db, a, b);
      var t' := BindStep(t, b);
      var a' := a.(bound := a.bound + {b});
      assert t'.attempt == Some(a') && t'.db == BindBatch(t.db, a.version, a.rows, a.BindingBatches()[b]).value;
      assert t'.log == t.log;
      hide BindStep;
      BindAssembles(s, t, t', pages, b);
    }
  }

  lemma StillBindable(db: Db, a: Attempt, b: nat, p: PageProjection)
    requires Accepted(a.projections) && DistinctIds(a.projections) && Injective(a.rows)
    requires b < |a.BindingBatches()| && b !in a.bound && p in a.BindingBatches()[b] && p.projectionId in a.rows
    requires forall k :: k in db.bindings && k.version == a.version ==>
      KeyInDone(k, a.version, a.BindingBatches(), a.bound, a.rows, db.bindings[k])
    ensures Bindable(db, a.version, a.rows, p)
  {
    forall k | k in db.bindings && k.version == a.version
      ensures k != KeyOf(a.version, p) && db.bindings[k] != a.rows[p.projectionId]
    {
      var c: nat, q: PageProjection :| c in a.bound && c < |a.BindingBatches()| && q in a.BindingBatches()[c] &&
        k == KeyOf(a.version, q) && q.projectionId in a.rows && a.rows[q.projectionId] == db.bindings[k];
      BatchesDisjoint(a.projections, BINDING_BATCH, b, c, p, q);
      assert KeyOf(0, p) != KeyOf(0, q);
    }
  }

  lemma BindDone(db: Db, db': Db, a: Attempt, b: nat)
    requires b < |a.BindingBatches()|
    requires db'.bindings.Keys == db.bindings.Keys + NewKeys(a.version, a.BindingBatches()[b])
    requires forall k :: k in db.bindings ==> db'.bindings[k] == db.bindings[k]
    requires forall p :: p in a.BindingBatches()[b] ==>
      p.projectionId in a.rows && KeyOf(a.version, p) in db'.bindings &&
        db'.bindings[KeyOf(a.version, p)] == a.rows[p.projectionId]
    requires forall k :: k in db.bindings && k.version == a.version ==>
      KeyInDone(k, a.version, a.BindingBatches(), a.bound, a.rows, db.bindings[k])
    ensures forall k :: k in db'.bindings && k.version == a.version ==>
      KeyInDone(k, a.version, a.BindingBatches(), a.bound + {b}, a.rows, db'.bindings[k])
  {
    forall k | k in db'.bindings && k.version == a.version
      ensures KeyInDone(k, a.version, a.BindingBatches(), a.bound + {b}, a.rows, db'.bindings[k])
    {
      if k in db.bindings {
        assert KeyInDone(k, a.version, a.BindingBatches(), a.bound, a.rows, db.bindings[k]);
      } else {
        var p: PageProjection :| p in a.BindingBatches()[b] && k == KeyOf(a.version, p);
      }
    }
  }

  function Projecting(order: seq<nat>): seq<Step> {
    seq(|order|, i requires 0 <= i < |order| => CommitProjections(order[i]))
  }

  function Binding(order: seq<nat>): seq<Step> {
    seq(|order|, i requires 0 <= i < |order| => CommitBindings(order[i]))
  }

  lemma {:induction false} RunConcat(s: State, first: seq<Step>, second: seq<Step>)
    ensures Run(s, first + second) == Run(Run(s, first), second)
    decreases |second|
  {
    if |second| == 0 {
      assert first + second == first;
    } else {
      var n := |second| - 1;
      assert (first + second)[..|first + second| - 1] == first + second[..n];
      RunConcat(s, first, second[..n]);
    }
  }

  lemma {:induction false} ProjectAll(s: State, t: State, pages: seq<PageProjection>, order: seq<nat>)
    requires Ready(s, pages) && Building(s, t, pages) && t.attempt.value.bound == {}
    requires forall b :: b in order ==> b < Count(|pages|, PROJECTION_BATCH)
    ensures var t' := Run(t, Projecting(order));
      && Building(s, t', pages) && t'.attempt.value.bound == {}
      && t'.attempt.value.projected == t.attempt.value.projected + set b | b in order
    decreases |order|
  {
    hide Building, Ready, ProjectStep, Inv;
    if |order| > 0 {
      var n := |order| - 1;
      assert forall b :: b in order <==> b in order[..n] || b == order[n];
      assert Projecting(order)[..n] == Projecting(order[..n]);
      ProjectAll(s, t, pages, order[..n]);
      assert forall b :: b in order <==> b in order[..n] || b == order[n];
      assert order[n] in order;
      ProjectBuilds(s, Run(t, Projecting(order[..n])), pages, order[n]);
    }
  }

  lemma {:induction false} BindAll(s: State, t: State, pages: seq<PageProjection>, order: seq<nat>)
    requires Ready(s, pages) && Building(s, t, pages) && t.attempt.value.AllProjected()
    requires forall b :: b in order ==> b < Count(|pages|, BINDING_BATCH)
    ensures var t' := Run(t, Binding(order));
      && Building(s, t', pages) && t'.attempt.value.AllProjected()
      && t'.attempt.value.bound == t.attempt.value.bound + set b | b in order
    decreases |order|
  {
    hide Building, Ready, BindStep, Inv;
    if |order| > 0 {
      var n := |order| - 1;
      assert forall b :: b in order <==> b in order[..n] || b == order[n];
      assert Binding(order)[..n] == Binding(order[..n]);
      BindAll(s, t, pages, order[..n]);
      assert order[n] in order;
      BindBuilds(s, Run(t, Binding(order[..n])), pages, order[n]);
    }
  }

  lemma ActivateGoesThrough(t: State)
    requires t.attempt.Some?
    requires var a := t.attempt.value;
      a.AllProjected() && a.AllBound() && Accepted(a.projections) && ActivateDb(t.db, a.seen, a.version).Some?
    ensures var a := t.attempt.value;
      ActivateStep(t).log == t.log + [Activation(a.number, a.version, a.projections)] && ActivateStep(t).attempt == None
  {
    hide BatchesOf, Accepted, ActivateDb;
  }

  lemma ActivateSucceeds(s: State, t: State, pages: seq<PageProjection>)
    requires Ready(s, pages) && Building(s, t, pages)
    requires t.attempt.value.AllProjected() && t.attempt.value.AllBound()
    ensures ActivateStep(t).log == s.log + [Activation(s.attempts, FreshVersion(s.db), pages)]
    ensures ActivateStep(t).attempt == None
  {
    BuildingFacts(s, t, pages);
    ReadyFacts(s, pages);
    hide Inv, Core, BaseKept, Building, Ready, Used, FreshVersion, Accepted, ProjectedOk, RowsOk, ActivateDb,
      ActivateStep;
    FreshIsUnused(s.db, t.db.snapshots);
    ActivateDbSucceeds(t.db, FreshVersion(s.db));
    ActivateGoesThrough(t);
  }

  lemma ReadyFacts(s: State, pages: seq<PageProjection>)
    requires Ready(s, pages)
    ensures Accepted(pages) && IsVersion(FreshVersion(s.db))
  {
    hide Inv, Accepted;
  }

  /** A pointer read just before is the one expected, and a fresh version has no snapshot yet. */
  lemma ActivateDbSucceeds(db: Db, version: nat)
    requires forall x :: x in db.snapshots ==> x.version != version
    ensures ActivateDb(db, db.pointer, version).Some?
  {
  }

  lemma FreshIsUnused(db: Db, snapshots: seq<Snapshot>)
    requires snapshots == db.snapshots && IsVersion(FreshVersion(db))
    ensures forall x :: x in snapshots ==> x.version != FreshVersion(db)
  {
    var version := FreshVersion(db);
    assert !Used(db, version);
    forall x | x in snapshots ensures x.version != version {
      var i :| 0 <= i < |snapshots| && snapshots[i] == x;
      assert SnapshotCells(db)[i] == Number(x.version);
      assert SnapshotVersion(Number(x.version)) == Some(version) ==> Used(db, version);
    }
  }

  lemma BuiltAll(s: State, t: State, pages: seq<PageProjection>)
    requires Building(s, t, pages)
    ensures (forall b :: 0 <= b < Count(|pages|, PROJECTION_BATCH) ==> b in t.attempt.value.projected) ==>
      t.attempt.value.AllProjected()
    ensures (forall b :: 0 <= b < Count(|pages|, BINDING_BATCH) ==> b in t.attempt.value.bound) ==>
      t.attempt.value.AllBound()
  {
  }

  ghost predicate Covers(order: seq<nat>, count: nat) {
    (forall b :: b in order ==> b < count) && (forall b :: 0 <= b < count ==> b in order)
  }

  /** From any reachable idle state, an attempt that nothing interrupts activates a fresh version
      with its pages, whatever the order in which the lanes commit the batches. */
  lemma {:induction false} AttemptSucceeds(s: State, pages: seq<PageProjection>, first: seq<nat>, second: seq<nat>)
    requires Ready(s, pages)
    requires Covers(first, Count(|pages|, PROJECTION_BATCH)) && Covers(second, Count(|pages|, BINDING_BATCH))
    ensures var t := Run(s, [Start(pages)] + Projecting(first) + Binding(second) + [Activate]);
      t.log == s.log + [Activation(s.attempts, FreshVersion(s.db), pages)] && t.attempt == None
  {
    hide Building, Ready, Run, ProjectStep, BindStep, ActivateStep, StartAttempt;
    var t0 := StartAttempt(s, pages);
    StartBuilds(s, pages);
    RunOne(s, Start(pages));
    var t1 := Run(t0, Projecting(first));
    ProjectAll(s, t0, pages, first);
    BuiltAll(s, t1, pages);
    var t2 := Run(t1, Binding(second));
    BindAll(s, t1, pages, second);
    BuiltAll(s, t2, pages);
    ActivateSucceeds(s, t2, pages);
    RunOne(t2, Activate);
    RunConcat(s, [Start(pages)], Projecting(first));
    RunConcat(s, [Start(pages)] + Projecting(first), Binding(second));
    RunConcat(s, [Start(pages)] + Projecting(first) + Binding(second), [Activate]);
  }

  lemma RunOne(s: State, e: Step)
    ensures Run(s, [e]) == Apply(s, e)
  {
    assert Run(s, []) == s;
  }
}
