/** When the publisher's transactions commit: the exact conditions, and what two publishers that saw one
    pointer can do. */
module PublicationExact {
  import opened Contracts
  import opened Versions
  import opened Publication

  // Projection batches ---------------------------------------------------------------------------

  ghost predicate DifferentIds(batch: seq<PageProjection>) {
    forall i, j :: 0 <= i < j < |batch| ==> batch[i].projectionId != batch[j].projectionId
  }

  /** Neither the page's workflow run nor its projection exists. */
  ghost predicate Unstored(db: Db, version: nat, p: PageProjection) {
    Text(WorkflowKey(version, p.projectionId)) !in db.workflows && p.projectionId !in db.projectionIndex
  }

  ghost predicate Persistable(db: Db, version: nat, batch: seq<PageProjection>) {
    DifferentIds(batch) && forall p :: p in batch ==> Unstored(db, version, p)
  }

  /** The indexes are those of the database and the pages stored so far. */
  ghost predicate StoredSoFar(db: Db, r: Db, version: nat, batch: seq<PageProjection>) {
    && (forall id :: id in r.projectionIndex <==>
      id in db.projectionIndex || exists p :: p in batch && p.projectionId == id)
    && (forall cell :: cell in r.workflows <==>
      cell in db.workflows || exists p :: p in batch && cell == Text(WorkflowKey(version, p.projectionId)))
  }

  lemma StoredThen(db: Db, before: Persisted, version: nat, batch: seq<PageProjection>)
    requires |batch| > 0 && StoredSoFar(db, before.db, version, batch[..|batch| - 1])
    requires PersistOne(before, version, batch[|batch| - 1]).Some?
    ensures StoredSoFar(db, PersistOne(before, version, batch[|batch| - 1]).value.db, version, batch)
  {
    hide WorkflowKey, StoreRow;
    var n := |batch| - 1;
    assert forall p :: p in batch <==> p in batch[..n] || p == batch[n];
  }

  /** The last page of a batch is unstored exactly when it was and its id is not among the others'. */
  lemma LastUnstored(db: Db, r: Db, version: nat, batch: seq<PageProjection>)
    requires IsVersion(version) && |batch| > 0 && StoredSoFar(db, r, version, batch[..|batch| - 1])
    ensures Unstored(r, version, batch[|batch| - 1]) <==>
      Unstored(db, version, batch[|batch| - 1]) &&
        forall i :: 0 <= i < |batch| - 1 ==> batch[i].projectionId != batch[|batch| - 1].projectionId
  {
    hide WorkflowKey;
    var n := |batch| - 1;
    var last := batch[n];
    forall p | p in batch[..n] && p.projectionId != last.projectionId
      ensures WorkflowKey(version, p.projectionId) != WorkflowKey(version, last.projectionId)
    {
      KeysDiffer(version, p.projectionId, version, last.projectionId);
    }
    forall i | 0 <= i < n ensures batch[i] in batch[..n] { assert batch[..n][i] == batch[i]; }
  }

  /** A projection batch commits exactly when its pages have different ids and none has a workflow run
      or a projection yet. */
  lemma {:induction false} PersistExact(db: Db, version: nat, batch: seq<PageProjection>)
    requires IsVersion(version)
    ensures PersistBatch(db, version, batch).Some? <==> Persistable(db, version, batch)
    ensures PersistBatch(db, version, batch).Some? ==>
      StoredSoFar(db, PersistBatch(db, version, batch).value.db, version, batch)
  {
    if |batch| > 0 {
      hide StoredSoFar, Unstored, PersistOne, Persistable;
      var n := |batch| - 1;
      PersistExact(db, version, batch[..n]);
      PersistableThen(db, version, batch);
      var before := PersistBatch(db, version, batch[..n]);
      if before.Some? {
        LastUnstored(db, before.value.db, version, batch);
        PersistOneWhen(before.value, version, batch[n]);
        if PersistOne(before.value, version, batch[n]).Some? { StoredThen(db, before.value, version, batch); }
      }
    }
  }

  lemma PersistableThen(db: Db, version: nat, batch: seq<PageProjection>)
    requires |batch| > 0
    ensures var n := |batch| - 1;
      Persistable(db, version, batch) <==>
        && Persistable(db, version, batch[..n]) && Unstored(db, version, batch[n])
        && forall i :: 0 <= i < n ==> batch[i].projectionId != batch[n].projectionId
  {
    hide Unstored;
    assert forall p :: p in batch <==> p in batch[..|batch| - 1] || p == batch[|batch| - 1];
  }

  lemma PersistOneWhen(s: Persisted, version: nat, p: PageProjection)
    ensures PersistOne(s, version, p).Some? <==> Unstored(s.db, version, p)
  {
    hide WorkflowKey, StoreRow;
  }

  // Binding batches ------------------------------------------------------------------------------

  /** The page's row is stored, its route is free, and the row is not bound in this version. */
  ghost predicate Unbound(db: Db, version: nat, rows: map<string, nat>, p: PageProjection) {
    && p.projectionId in rows && KeyOf(version, p) !in db.bindings
    && forall k :: k in db.bindings && k.version == version ==> db.bindings[k] != rows[p.projectionId]
  }

  /** Two pages of a batch have different routes and rows. */
  ghost predicate Apart(version: nat, rows: map<string, nat>, p: PageProjection, q: PageProjection) {
    && KeyOf(version, p) != KeyOf(version, q)
    && p.projectionId in rows && q.projectionId in rows && rows[p.projectionId] != rows[q.projectionId]
  }

  ghost predicate Bindable(db: Db, version: nat, rows: map<string, nat>, batch: seq<PageProjection>) {
    && (forall i :: 0 <= i < |batch| ==> Unbound(db, version, rows, batch[i]))
    && forall i, j :: 0 <= i < j < |batch| ==> Apart(version, rows, batch[i], batch[j])
  }

  predicate Bound(db: Db, k: BindingKey, row: nat) { k in db.bindings && db.bindings[k] == row }

  predicate Binds(version: nat, rows: map<string, nat>, p: PageProjection, k: BindingKey, row: nat) {
    KeyOf(version, p) == k && p.projectionId in rows && rows[p.projectionId] == row
  }

  /** The bindings are those of the database and the pages bound so far. */
  ghost predicate BoundSoFar(db: Db, r: Db, version: nat, rows: map<string, nat>, batch: seq<PageProjection>) {
    && (forall p :: p in batch ==> p.projectionId in rows)
    && (forall k, row :: Bound(r, k, row) <==>
      Bound(db, k, row) || exists p :: p in batch && Binds(version, rows, p, k, row))
  }

  lemma BoundOne(db: Db, before: Db, version: nat, rows: map<string, nat>, batch: seq<PageProjection>)
    requires |batch| > 0 && BoundSoFar(db, before, version, rows, batch[..|batch| - 1])
    requires BindOne(before, version, rows, batch[|batch| - 1]).Some?
    ensures BoundSoFar(db, BindOne(before, version, rows, batch[|batch| - 1]).value, version, rows, batch)
  {
    var n := |batch| - 1;
    var r := BindOne(before, version, rows, batch[n]).value;
    assert forall p :: p in batch <==> p in batch[..n] || p == batch[n];
    forall k, row ensures Bound(r, k, row) <==> Bound(before, k, row) || Binds(version, rows, batch[n], k, row) { }
    hide Bound, Binds, BindOne;
  }

  /** Binding the pages so far keeps the bindings, adds theirs, and nothing else. */
  lemma BoundMeans(db: Db, r: Db, version: nat, rows: map<string, nat>, front: seq<PageProjection>)
    requires BoundSoFar(db, r, version, rows, front)
    ensures forall k :: k in db.bindings ==> k in r.bindings && r.bindings[k] == db.bindings[k]
    ensures forall p :: p in front ==>
      p.projectionId in rows && KeyOf(version, p) in r.bindings && r.bindings[KeyOf(version, p)] == rows[p.projectionId]
    ensures forall k :: k in r.bindings && k !in db.bindings ==>
      exists p :: p in front && KeyOf(version, p) == k
  {
    forall k | k in db.bindings ensures k in r.bindings && r.bindings[k] == db.bindings[k] {
      assert Bound(db, k, db.bindings[k]) && Bound(r, k, db.bindings[k]);
    }
    forall p | p in front ensures p.projectionId in rows && Bound(r, KeyOf(version, p), rows[p.projectionId]) {
      assert Binds(version, rows, p, KeyOf(version, p), rows[p.projectionId]);
    }
    forall k | k in r.bindings && k !in db.bindings ensures exists p :: p in front && KeyOf(version, p) == k {
      assert Bound(r, k, r.bindings[k]);
    }
  }

  /** The last page of a batch can be bound exactly when it could before and is apart from the others. */
  lemma LastUnbound(db: Db, r: Db, version: nat, rows: map<string, nat>, batch: seq<PageProjection>)
    requires |batch| > 0 && BoundSoFar(db, r, version, rows, batch[..|batch| - 1])
    ensures Unbound(r, version, rows, batch[|batch| - 1]) <==>
      Unbound(db, version, rows, batch[|batch| - 1]) &&
        forall i :: 0 <= i < |batch| - 1 ==> Apart(version, rows, batch[i], batch[|batch| - 1])
  {
    var last, front := batch[|batch| - 1], batch[..|batch| - 1];
    BoundMeans(db, r, version, rows, front);
    assert forall i :: 0 <= i < |front| ==> batch[i] == front[i] && batch[i] in front;
    hide BoundSoFar;
    if Unbound(db, version, rows, last) && forall i :: 0 <= i < |front| ==> Apart(version, rows, batch[i], last) {
      assert forall p :: p in front ==>
        KeyOf(version, p) != KeyOf(version, last) && rows[p.projectionId] != rows[last.projectionId];
    }
  }

  lemma BindOneWhen(db: Db, version: nat, rows: map<string, nat>, p: PageProjection)
    ensures BindOne(db, version, rows, p).Some? <==> Unbound(db, version, rows, p)
  {
  }

  /** A binding batch commits exactly when every page's row is stored, no route and no row of it is bound
      in this version, and its pages have different routes and rows. */
  lemma {:induction false} BindExact(db: Db, version: nat, rows: map<string, nat>, batch: seq<PageProjection>)
    ensures BindBatch(db, version, rows, batch).Some? <==> Bindable(db, version, rows, batch)
    ensures BindBatch(db, version, rows, batch).Some? ==>
      BoundSoFar(db, BindBatch(db, version, rows, batch).value, version, rows, batch)
  {
    if |batch| > 0 {
      hide BoundSoFar, Unbound, Apart, BindOne, Bindable;
      var n := |batch| - 1;
      BindExact(db, version, rows, batch[..n]);
      BindableThen(db, version, rows, batch);
      var before := BindBatch(db, version, rows, batch[..n]);
      if before.Some? {
        LastUnbound(db, before.value, version, rows, batch);
        BindOneWhen(before.value, version, rows, batch[n]);
        if BindOne(before.value, version, rows, batch[n]).Some? { BoundOne(db, before.value, version, rows, batch); }
      }
    }
  }

  lemma BindableThen(db: Db, version: nat, rows: map<string, nat>, batch: seq<PageProjection>)
    requires |batch| > 0
    ensures var n := |batch| - 1;
      Bindable(db, version, rows, batch) <==>
        && Bindable(db, version, rows, batch[..n]) && Unbound(db, version, rows, batch[n])
        && forall i :: 0 <= i < n ==> Apart(version, rows, batch[i], batch[n])
  {
    hide Unbound, Apart;
    assert forall i :: 0 <= i < |batch| - 1 ==> batch[..|batch| - 1][i] == batch[i];
  }

  // The pointer ----------------------------------------------------------------------------------

  /** An activation commits exactly when the version has no snapshot and the pointer is still the one its
      publisher saw; it then adds that snapshot and moves the pointer by one. */
  lemma {:induction false} ActivateExact(db: Db, seen: Option<Pointer>, version: nat)
    ensures var r := ActivateDb(db, seen, version);
      && (r.Some? <==> (forall s :: s in db.snapshots ==> s.version != version) && db.pointer == seen)
      && (r.Some? ==>
        var first := seen.GetOr(Pointer(None, None, 0));
        r.value == db.(snapshots := db.snapshots + [Snapshot(version, first.publishVersion)],
          pointer := Some(Pointer(Some(version), first.publishVersion, first.revision + 1))))
  {
  }

  /** `next` has the pointer that some activation leaves. */
  ghost predicate Moves(db: Db, next: Db) {
    exists seen, version ::
      ActivateDb(db, seen, version).Some? && next.pointer == ActivateDb(db, seen, version).value.pointer
  }

  /** Each state's pointer is that of the state before after an activation, by whomever. */
  ghost predicate Activations(states: seq<Db>) {
    |states| > 0 && forall i :: 0 < i < |states| ==> Moves(states[i - 1], states[i])
  }

  function Revision(pointer: Option<Pointer>): int {
    match pointer case None => -1 case Some(p) => p.revision
  }

  lemma {:induction false} RevisionsGrow(states: seq<Db>)
    requires Activations(states)
    ensures states[|states| - 1].pointer == None ==> |states| == 1
    ensures Revision(states[|states| - 1].pointer) >= Revision(states[0].pointer) + |states| - 1
  {
    var n := |states| - 1;
    if n > 0 {
      RevisionsGrow(states[..n]);
      assert Moves(states[n - 1], states[n]);
      var seen, version :| ActivateDb(states[n - 1], seen, version).Some? &&
        states[n].pointer == ActivateDb(states[n - 1], seen, version).value.pointer;
      ActivateExact(states[n - 1], seen, version);
      hide ActivateDb, Moves;
    }
  }

  /** A publisher that saw the pointer before some activation can no longer activate anything, however
      many activations followed: of two publishers that saw one pointer, one at most moves it. */
  lemma {:induction false} StalePublisherIsRefused(states: seq<Db>, version: nat)
    requires Activations(states) && |states| > 1
    ensures ActivateDb(states[|states| - 1], states[0].pointer, version) == None
  {
    RevisionsGrow(states);
    ActivateExact(states[|states| - 1], states[0].pointer, version);
  }
}
