/** What linking does to one artifact, and which targets a plan produces. */
module TaxonomyLinks {
  import opened Contracts
  import opened Taxonomy

  // One artifact -------------------------------------------------------------------------------

  /** The assignments among the first n that target the artifact as a model, or otherwise. */
  function LinksUpTo(assignments: seq<Assignment>, x: Artifact, n: nat, models: bool): set<string>
    requires n <= |assignments|
  {
    set i | 0 <= i < n && (assignments[i].nodeType == Model <==> models) &&
      Matches(assignments[i], x) :: assignments[i].stableKey
  }

  function Links(m: Manifest, x: Artifact, models: bool): set<string> {
    LinksUpTo(m.assignments, x, |m.assignments|, models)
  }

  /** The artifact with every reference the manifest gives it, its revision raised by one exactly
      when it gains any. */
  function Linked(m: Manifest, x: Artifact): Artifact {
    var models, others := x.modelRefs + Links(m, x, true), x.taxonomyRefs + Links(m, x, false);
    if models == x.modelRefs && others == x.taxonomyRefs then x
    else x.(modelRefs := models, taxonomyRefs := others, revision := x.revision + 1)
  }

  predicate SameMatter(x: Artifact, y: Artifact) {
    x.isPrompt == y.isPrompt && x.sourceVersion == y.sourceVersion && x.source == y.source
  }

  lemma LinksSame(m: Manifest, x: Artifact, y: Artifact, models: bool)
    requires SameMatter(x, y)
    ensures Links(m, x, models) == Links(m, y, models)
  {
    assert forall a: Assignment :: Matches(a, x) <==> Matches(a, y);
  }

  /** Linking again adds nothing and bumps nothing. */
  lemma {:induction false} LinkedAgain(m: Manifest, x: Artifact)
    ensures SameMatter(x, Linked(m, x)) && Linked(m, Linked(m, x)) == Linked(m, x)
  {
    LinksSame(m, x, Linked(m, x), true);
    LinksSame(m, x, Linked(m, x), false);
    hide Links;
    var y := Linked(m, x);
    assert y.modelRefs + Links(m, x, true) == y.modelRefs;
    assert y.taxonomyRefs + Links(m, x, false) == y.taxonomyRefs;
  }

  lemma LinkedHas(m: Manifest, x: Artifact, i: nat)
    requires i < |m.assignments| && Matches(m.assignments[i], x)
    ensures m.assignments[i].stableKey in Linked(m, x).Refs(m.assignments[i].nodeType)
  {
    assert m.assignments[i].stableKey in Links(m, x, m.assignments[i].nodeType == Model);
  }

  /** An artifact that already has every reference is as linked as it will be. */
  lemma FullyLinked(m: Manifest, x: Artifact)
    requires forall i :: 0 <= i < |m.assignments| && Matches(m.assignments[i], x) ==>
      m.assignments[i].stableKey in x.Refs(m.assignments[i].nodeType)
    ensures Linked(m, x) == x
  {
    assert Links(m, x, true) <= x.modelRefs;
    assert Links(m, x, false) <= x.taxonomyRefs;
    hide Links;
    assert x.modelRefs + Links(m, x, true) == x.modelRefs;
    assert x.taxonomyRefs + Links(m, x, false) == x.taxonomyRefs;
  }

  // Many artifacts -----------------------------------------------------------------------------

  /** Every artifact is as it was or linked. */
  ghost predicate Between(m: Manifest, base: seq<Artifact>, now: seq<Artifact>) {
    |now| == |base| && forall i :: 0 <= i < |base| ==> now[i] == base[i] || now[i] == Linked(m, base[i])
  }

  ghost predicate FullyBetween(m: Manifest, base: seq<Artifact>, now: seq<Artifact>) {
    |now| == |base| && forall i :: 0 <= i < |base| ==> now[i] == Linked(m, base[i])
  }

  ghost predicate AlikeMatter(base: seq<Artifact>, now: seq<Artifact>) {
    |now| == |base| && forall i :: 0 <= i < |base| ==> SameMatter(base[i], now[i])
  }

  lemma BetweenAlike(m: Manifest, base: seq<Artifact>, now: seq<Artifact>)
    requires Between(m, base, now)
    ensures AlikeMatter(base, now)
  {
    hide Linked;
    forall i | 0 <= i < |base| ensures SameMatter(base[i], now[i]) { LinkedAgain(m, base[i]); }
  }

  lemma {:induction false} MatchIdsSame(a: Assignment, base: seq<Artifact>, now: seq<Artifact>)
    requires AlikeMatter(base, now)
    ensures MatchIds(a, base) == MatchIds(a, now)
  {
    if |base| > 0 {
      var n := |base| - 1;
      MatchIdsSame(a, base[..n], now[..n]);
      assert SameMatter(base[n], now[n]);
    }
  }

  /** The sources of the artifacts an assignment targets. */
  function SourcesIn(a: Assignment, artifacts: seq<Artifact>): set<string> {
    var ids := MatchIds(a, artifacts);
    if Sourced(artifacts, ids) then Sources(artifacts, ids) else {}
  }

  lemma SourcesSame(a: Assignment, base: seq<Artifact>, now: seq<Artifact>)
    requires AlikeMatter(base, now)
    ensures MatchIds(a, base) == MatchIds(a, now) && SourcesIn(a, base) == SourcesIn(a, now)
    ensures Sourced(base, MatchIds(a, base)) <==> Sourced(now, MatchIds(a, now))
  {
    MatchIdsSame(a, base, now);
    var ids := MatchIds(a, base);
    forall k | 0 <= k < |ids| ensures base[ids[k]].source ==
      now[ids[k]].source { assert SameMatter(base[ids[k]], now[ids[k]]); }
  }

  // Targets ------------------------------------------------------------------------------------

  function Find(targets: seq<Target>, id: nat): Option<Target> {
    if |targets| == 0 then None
    else if targets[0].id == id then Some(targets[0])
    else Find(targets[1..], id)
  }

  ghost predicate DistinctIds(targets: seq<Target>) {
    forall i, j :: 0 <= i < j < |targets| ==> targets[i].id != targets[j].id
  }

  lemma {:induction false} FindAt(targets: seq<Target>, k: nat)
    requires DistinctIds(targets) && k < |targets|
    ensures Find(targets, targets[k].id) == Some(targets[k])
  {
    if k > 0 { FindAt(targets[1..], k - 1); }
  }

  lemma {:induction false} FindIn(targets: seq<Target>, id: nat)
    requires Find(targets, id).Some?
    ensures Find(targets, id).value in targets && Find(targets, id).value.id == id
  {
    if targets[0].id != id { FindIn(targets[1..], id); }
  }

  function Empty(id: nat): Target { Target(id, {}, {}) }

  lemma {:induction false} FindAdded(targets: seq<Target>, id: nat, a: Assignment, j: nat)
    ensures Find(AddTarget(targets, id, a), j) == if j ==
      id then Some(Extend(Find(targets, id).GetOr(Empty(id)), a)) else Find(targets, j)
  {
    if |targets| > 0 {
      if targets[0].id == id {
        assert ([Extend(targets[0], a)] + targets[1..])[1..] == targets[1..];
      } else {
        FindAdded(targets[1..], id, a, j);
        assert ([targets[0]] + AddTarget(targets[1..], id, a))[1..] == AddTarget(targets[1..], id, a);
      }
    }
  }

  lemma {:induction false} AddedIds(targets: seq<Target>, id: nat, a: Assignment, t: Target)
    requires t in AddTarget(targets, id, a)
    ensures t.id == id || exists u :: u in targets && u.id == t.id
  {
    if |targets| > 0 && targets[0].id != id && t != targets[0] { AddedIds(targets[1..], id, a, t); }
  }

  lemma {:induction false} AddedDistinct(targets: seq<Target>, id: nat, a: Assignment)
    requires DistinctIds(targets)
    ensures DistinctIds(AddTarget(targets, id, a))
  {
    if |targets| > 0 && targets[0].id != id {
      var others := AddTarget(targets[1..], id, a);
      AddedDistinct(targets[1..], id, a);
      forall j | 0 <= j < |others| ensures others[j].id != targets[0].id { AddedIds(targets[1..], id, a, others[j]); }
    }
  }

  lemma ExtendTwice(t: Target, a: Assignment)
    ensures Extend(Extend(t, a), a) == Extend(t, a) && Extend(t, a).id == t.id
  {
    assert t.modelNodes + {a.stableKey} + {a.stableKey} == t.modelNodes + {a.stableKey};
    assert t.taxonomyNodes + {a.stableKey} + {a.stableKey} == t.taxonomyNodes + {a.stableKey};
  }

  lemma {:induction false} FindPlanned(targets: seq<Target>, ids: seq<nat>, a: Assignment, j: nat)
    requires DistinctIds(targets)
    ensures DistinctIds(AddPlan(targets, ids, a))
    ensures Find(AddPlan(targets, ids, a), j) == if j in ids then Some(Extend(Find(targets, j).GetOr(Empty(j)), a))
      else Find(targets, j)
  {
    hide Extend, Find, AddTarget;
    if |ids| > 0 {
      var n := |ids| - 1;
      FindPlanned(targets, ids[..n], a, j);
      var before := AddPlan(targets, ids[..n], a);
      AddedDistinct(before, ids[n], a);
      FindAdded(before, ids[n], a, j);
      ExtendTwice(Find(targets, j).GetOr(Empty(j)), a);
      assert j in ids <==> j in ids[..n] || j == ids[n];
    }
  }

  /** The plans read the artifacts as they are now. */
  ghost predicate PlansRead(artifacts: seq<Artifact>, plans: seq<Plan>) {
    forall i :: 0 <= i < |plans| ==> plans[i].artifacts == MatchIds(plans[i].assignment, artifacts)
  }

  function AssignmentsOf(plans: seq<Plan>): (assignments: seq<Assignment>)
    ensures |assignments| == |plans| && forall i :: 0 <= i < |plans| ==> assignments[i] == plans[i].assignment
  {
    seq(|plans|, i requires 0 <= i < |plans| => plans[i].assignment)
  }

  predicate Targeted(plans: seq<Plan>, id: nat) {
    exists i :: 0 <= i < |plans| && id in plans[i].artifacts
  }

  /** The target of an artifact: the nodes of exactly those plans that name it. */
  lemma {:induction false} TargetFor(artifacts: seq<Artifact>, plans: seq<Plan>, id: nat)
    requires PlansRead(artifacts, plans) && id < |artifacts|
    ensures DistinctIds(TargetsOf(plans))
    ensures Find(TargetsOf(plans), id) ==
      if Targeted(plans, id) then
        Some(Target(id, LinksUpTo(AssignmentsOf(plans), artifacts[id], |plans|, true),
          LinksUpTo(AssignmentsOf(plans), artifacts[id], |plans|, false)))
      else None
    ensures !Targeted(plans, id) ==>
      LinksUpTo(AssignmentsOf(plans), artifacts[id], |plans|, true) == {} && LinksUpTo(AssignmentsOf(plans), artifacts[id], |plans|, false) == {}
  {
    if |plans| > 0 {
      var n := |plans| - 1;
      var before, last := plans[..n], plans[n];
      TargetFor(artifacts, before, id);
      hide Find, AddPlan, LinksUpTo, Targeted, Matches, AssignmentsOf, Extend;
      FindPlanned(TargetsOf(before), last.artifacts, last.assignment, id);
      TargetedStep(plans, id);
      LinksStep(artifacts, plans, id, true);
      LinksStep(artifacts, plans, id, false);
      ExtendEither(id, last.assignment);
    }
  }

  lemma ExtendEither(id: nat, a: Assignment)
    ensures forall models, others ::
      Extend(Target(id, models, others), a) ==
        (if a.nodeType == Model then Target(id, models + {a.stableKey}, others)
          else Target(id, models, others + {a.stableKey}))
    ensures forall s: set<string> :: s + {} == s
  {
  }

  lemma TargetedStep(plans: seq<Plan>, id: nat)
    requires |plans| > 0
    ensures Targeted(plans, id) <==> Targeted(plans[..|plans| - 1], id) || id in plans[|plans| - 1].artifacts
  {
    var n := |plans| - 1;
    if Targeted(plans[..n], id) {
      var i :| 0 <= i < |plans[..n]| && id in plans[..n][i].artifacts;
      assert plans[..n][i] == plans[i];
    }
    if Targeted(plans, id) && id !in plans[n].artifacts {
      var i :| 0 <= i < |plans| && id in plans[i].artifacts;
      assert plans[..n][i] == plans[i];
    }
  }

  lemma LinksStep(artifacts: seq<Artifact>, plans: seq<Plan>, id: nat, models: bool)
    requires |plans| > 0 && PlansRead(artifacts, plans) && id < |artifacts|
    ensures var n := |plans| - 1;
      var a := plans[n].assignment;
      LinksUpTo(AssignmentsOf(plans), artifacts[id], |plans|, models) ==
        LinksUpTo(AssignmentsOf(plans[..n]), artifacts[id], n, models) +
          if id in plans[n].artifacts && (a.nodeType == Model <==> models) then {a.stableKey} else {}
  {
    var n := |plans| - 1;
    var all, some := AssignmentsOf(plans), AssignmentsOf(plans[..n]);
    assert forall i :: 0 <= i < n ==> all[i] == some[i];
    assert plans[n].artifacts == MatchIds(plans[n].assignment, artifacts);
    hide MatchIds, Matches;
    assert id in plans[n].artifacts <==> Matches(plans[n].assignment, artifacts[id]);
    LinksSplit(all, artifacts[id], n, models);
    LinksSameUpTo(all, some, artifacts[id], n, models);
  }

  lemma LinksSplit(all: seq<Assignment>, x: Artifact, n: nat, models: bool)
    requires n < |all|
    ensures LinksUpTo(all, x, n + 1, models) ==
      LinksUpTo(all, x, n, models) + if (all[n].nodeType == Model <==> models) &&
        Matches(all[n], x) then {all[n].stableKey} else {}
  {
    hide Matches;
  }

  lemma LinksSameUpTo(all: seq<Assignment>, some: seq<Assignment>, x: Artifact, n: nat, models: bool)
    requires n <= |all| && n <= |some| && forall i :: 0 <= i < n ==> all[i] == some[i]
    ensures LinksUpTo(all, x, n, models) == LinksUpTo(some, x, n, models)
  {
    hide Matches;
  }

  lemma {:induction false} PlannedIds(targets: seq<Target>, ids: seq<nat>, a: Assignment, t: Target)
    requires t in AddPlan(targets, ids, a)
    ensures t.id in ids || exists u :: u in targets && u.id == t.id
  {
    hide AddTarget;
    if |ids| > 0 {
      var n := |ids| - 1;
      AddedIds(AddPlan(targets, ids[..n], a), ids[n], a, t);
      if t.id != ids[n] {
        var u :| u in AddPlan(targets, ids[..n], a) && u.id == t.id;
        PlannedIds(targets, ids[..n], a, u);
        if t.id in ids[..n] { assert t.id in ids; }
      }
    }
  }

  lemma {:induction false} TargetsAreTargeted(plans: seq<Plan>, t: Target)
    requires t in TargetsOf(plans)
    ensures Targeted(plans, t.id)
  {
    hide AddPlan, Targeted;
    if |plans| > 0 {
      var n := |plans| - 1;
      TargetedStep(plans, t.id);
      PlannedIds(TargetsOf(plans[..n]), plans[n].artifacts, plans[n].assignment, t);
      if t.id !in plans[n].artifacts {
        var u :| u in TargetsOf(plans[..n]) && u.id == t.id;
        TargetsAreTargeted(plans[..n], u);
      }
    }
  }

  /** Each target carries exactly the nodes the manifest gives its artifact. */
  lemma {:induction false} TargetIsRight(m: Manifest, base: seq<Artifact>, plans: seq<Plan>, t: Target)
    requires PlansRead(base, plans) && AssignmentsOf(plans) == m.assignments && t in TargetsOf(plans)
    ensures Right(m, base, t)
  {
    TargetsAreTargeted(plans, t);
    var i :| 0 <= i < |plans| && t.id in plans[i].artifacts;
    assert plans[i].artifacts == MatchIds(plans[i].assignment, base);
    TargetFor(base, plans, t.id);
    hide Targeted, LinksUpTo, TargetsOf, Find, AssignmentsOf;
    var k :| 0 <= k < |TargetsOf(plans)| && TargetsOf(plans)[k] == t;
    FindAt(TargetsOf(plans), k);
  }

  /** An artifact without a target has nothing to gain. */
  lemma Untargeted(m: Manifest, base: seq<Artifact>, plans: seq<Plan>, id: nat)
    requires PlansRead(base, plans) && AssignmentsOf(plans) == m.assignments && id < |base|
    requires Find(TargetsOf(plans), id).None?
    ensures Linked(m, base[id]) == base[id]
  {
    TargetFor(base, plans, id);
    assert base[id].modelRefs + {} == base[id].modelRefs && base[id].taxonomyRefs + {} == base[id].taxonomyRefs;
    hide Targeted, LinksUpTo, TargetsOf, Find, AssignmentsOf;
  }

  /** Targets depend on the assignments and the artifacts they name only. */
  lemma {:induction false} TargetsSame(plans: seq<Plan>, others: seq<Plan>)
    requires |plans| == |others|
    requires forall i :: 0 <= i < |plans| ==>
      plans[i].assignment == others[i].assignment && plans[i].artifacts == others[i].artifacts
    ensures TargetsOf(plans) == TargetsOf(others)
  {
    if |plans| > 0 { TargetsSame(plans[..|plans| - 1], others[..|others| - 1]); }
  }

  // Linking a batch ----------------------------------------------------------------------------

  predicate HasMetadata(x: Artifact) {
    1 <= x.revision <= Versions.MAX_SAFE_INTEGER && x.hasUpdatedAt
  }

  /** The target carries what the manifest gives the artifact. */
  ghost predicate Right(m: Manifest, base: seq<Artifact>, t: Target) {
    t.id < |base| && t.modelNodes == Links(m, base[t.id], true) && t.taxonomyNodes == Links(m, base[t.id], false)
  }

  ghost predicate BatchLinked(m: Manifest, base: seq<Artifact>, now: seq<Artifact>, batch: seq<Target>) {
    |now| == |base| && forall k :: 0 <= k < |batch| ==>
      batch[k].id < |base| && now[batch[k].id] == Linked(m, base[batch[k].id])
  }

  lemma Grows(a: set<string>, b: set<string>)
    ensures |a| <= |a + b| && (|a| == |a + b| <==> a + b == a)
  {
    assert a + b == a + (b - a);
    assert a !! (b - a);
  }

  /** Either form of an artifact grows to the linked one, and only the unlinked one has to. */
  lemma GrowsToLinked(m: Manifest, x: Artifact, y: Artifact)
    requires y == x || y == Linked(m, x)
    ensures y.modelRefs + Links(m, x, true) == Linked(m, x).modelRefs
    ensures y.taxonomyRefs + Links(m, x, false) == Linked(m, x).taxonomyRefs
    ensures y == Linked(m, x) <==> Linked(m, x).modelRefs == y.modelRefs && Linked(m, x).taxonomyRefs == y.taxonomyRefs
    ensures y != Linked(m, x) ==>
      Linked(m, x) == y.(modelRefs := Linked(m, x).modelRefs, taxonomyRefs := Linked(m, x).taxonomyRefs, revision := y.revision + 1)
  {
    hide Links;
  }

  /** LinkOne, told what the artifact looks like and what it grows to. */
  lemma LinkOneCases(db: Db, t: Target, z: Artifact)
    requires t.id < |db.artifacts|
    requires var y := db.artifacts[t.id];
      && z.modelRefs == y.modelRefs + t.modelNodes && z.taxonomyRefs == y.taxonomyRefs + t.taxonomyNodes
      && (z == y || z == y.(modelRefs := z.modelRefs, taxonomyRefs := z.taxonomyRefs, revision := y.revision + 1))
      && (z == y <==> z.modelRefs == y.modelRefs && z.taxonomyRefs == y.taxonomyRefs)
    ensures LinkOne(db, t) ==
      if z != db.artifacts[t.id] && !HasMetadata(db.artifacts[t.id]) then None
      else Some(db.(artifacts := db.artifacts[t.id := z]))
  {
    NoGrowth(db.artifacts[t.id], t);
    assert db.artifacts == db.artifacts[t.id := db.artifacts[t.id]];
  }

  /** Linking one artifact completes it, or fails for want of metadata when it has to grow. */
  lemma {:induction false} LinkOneEffect(m: Manifest, base: seq<Artifact>, db: Db, t: Target)
    requires Between(m, base, db.artifacts) && Right(m, base, t)
    ensures LinkOne(db, t) ==
      if db.artifacts[t.id] != Linked(m, base[t.id]) && !HasMetadata(base[t.id]) then None
      else Some(db.(artifacts := db.artifacts[t.id := Linked(m, base[t.id])]))
  {
    hide Links, Linked, LinkOne, HasMetadata;
    var x, y := base[t.id], db.artifacts[t.id];
    assert y == x || y == Linked(m, x);
    GrowsToLinked(m, x, y);
    LinkOneCases(db, t, Linked(m, x));
  }

  lemma NoGrowth(y: Artifact, t: Target)
    ensures |y.modelRefs| + |y.taxonomyRefs| == |y.modelRefs + t.modelNodes| + |y.taxonomyRefs + t.taxonomyNodes| <==>
      (y.modelRefs + t.modelNodes == y.modelRefs && y.taxonomyRefs + t.taxonomyNodes == y.taxonomyRefs)
  {
    Grows(y.modelRefs, t.modelNodes);
    Grows(y.taxonomyRefs, t.taxonomyNodes);
  }

  lemma {:induction false} LinkBatchEffect(m: Manifest, base: seq<Artifact>, db: Db, batch: seq<Target>)
    requires Between(m, base, db.artifacts) && forall k :: 0 <= k < |batch| ==> Right(m, base, batch[k])
    requires LinkBatch(db, batch).Some?
    ensures var r := LinkBatch(db, batch).value;
      && r.nodes == db.nodes && r.events == db.events && Between(m, base, r.artifacts)
      && BatchLinked(m, base, r.artifacts, batch)
      && (forall i :: 0 <= i < |base| && db.artifacts[i] == Linked(m, base[i]) ==> r.artifacts[i] == Linked(m, base[i]))
  {
    hide Linked, Links, HasMetadata;
    if |batch| > 0 {
      var n := |batch| - 1;
      LinkBatchEffect(m, base, db, batch[..n]);
      var before := LinkBatch(db, batch[..n]).value;
      LinkOneEffect(m, base, before, batch[n]);
      hide LinkOne;
      var r := LinkBatch(db, batch).value;
      assert |r.artifacts| == |base|;
      forall k | 0 <= k < |batch| ensures batch[k].id < |base| &&
        r.artifacts[batch[k].id] == Linked(m, base[batch[k].id]) {
        assert Right(m, base, batch[k]);
        if k < n { assert batch[..n][k] == batch[k]; }
      }
    }
  }

  lemma {:induction false} LinkBatchSucceeds(m: Manifest, base: seq<Artifact>, db: Db, batch: seq<Target>)
    requires Between(m, base, db.artifacts) && forall k :: 0 <= k < |batch| ==> Right(m, base, batch[k])
    requires forall i :: 0 <= i < |base| ==> Linked(m, base[i]) == base[i] || HasMetadata(base[i])
    ensures LinkBatch(db, batch).Some?
  {
    hide Linked, Links, HasMetadata;
    if |batch| > 0 {
      var n := |batch| - 1;
      LinkBatchSucceeds(m, base, db, batch[..n]);
      LinkBatchEffect(m, base, db, batch[..n]);
      LinkOneEffect(m, base, LinkBatch(db, batch[..n]).value, batch[n]);
    }
  }
}
