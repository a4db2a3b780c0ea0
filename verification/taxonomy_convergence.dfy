/** Convergence of ingress: however often it is interrupted, running it to the end gives the result
    of one uninterrupted attempt, up to nodes that were qualified before. */
module TaxonomyConvergence {
  import opened Contracts
  import opened Batches
  import opened Taxonomy
  import opened TaxonomyLinks
  import opened TaxonomyForms
  import opened TaxonomySafety

  // A whole attempt ----------------------------------------------------------------------------

  function LinkSteps(order: seq<nat>): (steps: seq<Step>)
    ensures |steps| == |order| && forall i :: 0 <= i < |order| ==> steps[i] == Link(order[i])
  {
    seq(|order|, i requires 0 <= i < |order| => Link(order[i]))
  }

  /** An uninterrupted attempt, the lanes' batches committing in the given order. */
  function Attempt(order: seq<nat>): seq<Step> {
    [Begin, Stage] + LinkSteps(order) + [Promote]
  }

  /** The batches that linking works through. */
  function BatchCount(m: Manifest, base: Db): nat {
    match PlanAll(m, base, m.assignments) case None => 0 case Some(plans) => |LinkBatches(plans)|
  }

  ghost predicate Covers(order: seq<nat>, n: nat) {
    forall b :: 0 <= b < n ==> b in order
  }

  /** The manifest fits, and every artifact that has to grow has its revision and update time. */
  ghost predicate Ready(m: Manifest, base: Db) {
    Plannable(m, base) && forall i :: 0 <= i < |base.artifacts| ==>
      Linked(m, base.artifacts[i]) == base.artifacts[i] || HasMetadata(base.artifacts[i])
  }

  lemma {:induction false} RunConcat(m: Manifest, s: State, first: seq<Step>, second: seq<Step>)
    ensures Run(m, s, first + second) == Run(m, Run(m, s, first), second)
    decreases |second|
  {
    if |second| == 0 {
      assert first + second == first;
    } else {
      var n := |second| - 1;
      RunConcat(m, s, first, second[..n]);
      assert (first + second)[..|first + second| - 1] == first + second[..n];
    }
  }

  lemma RunOne(m: Manifest, s: State, step: Step)
    ensures Run(m, s, [step]) == Apply(m, s, step)
  {
    assert [step][..0] == [];
  }

  lemma RunAttempt(m: Manifest, s: State, order: seq<nat>)
    ensures Run(m, s, Attempt(order)) ==
      Apply(m, Run(m, Apply(m, Apply(m, s, Begin), Stage), LinkSteps(order)), Promote)
  {
    hide Apply;
    RunConcat(m, s, [Begin, Stage] + LinkSteps(order), [Promote]);
    RunConcat(m, s, [Begin, Stage], LinkSteps(order));
    RunConcat(m, s, [Begin], [Stage]);
    assert [Begin] + [Stage] == [Begin, Stage];
    RunOne(m, s, Begin);
    RunOne(m, Apply(m, s, Begin), Stage);
    RunOne(m, Run(m, Apply(m, Apply(m, s, Begin), Stage), LinkSteps(order)), Promote);
  }

  // Linking in any order -----------------------------------------------------------------------

  /** Whatever order the batches commit in, all of them succeed and all end up done. */
  lemma {:induction false} LinkingSucceeds(m: Manifest, base: Db, s: State, order: seq<nat>)
    requires Ready(m, base) && Inv(m, base, s) && s.phase.Linking? && !s.phase.failed
    ensures var r := Run(m, s, LinkSteps(order));
      && Inv(m, base, r) && r.interrupted == s.interrupted && r.phase.Linking? && !r.phase.failed
      && r.phase.plans == s.phase.plans && r.db.events == s.db.events
      && forall b :: b in order && b < |LinkBatches(s.phase.plans)| ==> b in r.phase.done
    decreases |order|
  {
    hide Inv, Ready, LinkBatches;
    if |order| > 0 {
      var n := |order| - 1;
      LinkingSucceeds(m, base, s, order[..n]);
      assert LinkSteps(order)[..n] == LinkSteps(order[..n]);
      var before := Run(m, s, LinkSteps(order[..n]));
      LinkKeeps(m, base, before, order[n]);
      BatchSucceeds(m, base, before, order[n]);
      hide LinkStep;
      assert forall b :: b in order <==> b in order[..n] || b == order[n];
    }
  }

  lemma BatchSucceeds(m: Manifest, base: Db, s: State, b: nat)
    requires Ready(m, base) && Inv(m, base, s) && s.phase.Linking? && !s.phase.failed
    ensures var r := LinkStep(s, b);
      r.phase.Linking? && !r.phase.failed && r.phase.plans == s.phase.plans
      && s.phase.done <= r.phase.done && (b < |LinkBatches(s.phase.plans)| ==> b in r.phase.done)
  {
    hide Between, NodesAre, PlansAre, EventsOk, LinkBatch, LinkBatches, Right, BatchesDone, Plannable, Linked,
      HasMetadata;
    if b < |LinkBatches(s.phase.plans)| {
      BatchIsRight(m, base, s.phase.plans, !s.interrupted, s.db.events, b);
      LinkBatchSucceeds(m, base.artifacts, s.db, LinkBatches(s.phase.plans)[b]);
    }
  }

  /** When every batch is done, every artifact is linked. */
  lemma AllBatchesLink(m: Manifest, base: Db, s: State)
    requires Inv(m, base, s) && s.phase.Linking? && forall b :: 0 <= b < |LinkBatches(s.phase.plans)| ==>
      b in s.phase.done
    ensures FullyBetween(m, base.artifacts, s.db.artifacts)
  {
    hide NodesAre, EventsOk, PlanIs, Linked, Targeted;
    var plans := s.phase.plans;
    PlansAreStaged(m, base, plans, !s.interrupted, s.db.events);
    hide PlansAre;
    forall i | 0 <= i < |base.artifacts| ensures s.db.artifacts[i] == Linked(m, base.artifacts[i]) {
      if Find(TargetsOf(plans), i).None? {
        Untargeted(m, base.artifacts, plans, i);
      } else {
        TargetIsDone(m, base, s.db, plans, s.phase.done, i);
      }
    }
  }

  lemma TargetIsDone(m: Manifest, base: Db, db: Db, plans: seq<Plan>, done: set<nat>, i: nat)
    requires BatchesDone(m, base, db, plans, done) && (forall b :: 0 <= b < |LinkBatches(plans)| ==> b in done)
    requires i < |base.artifacts| && Find(TargetsOf(plans), i).Some?
    ensures |db.artifacts| == |base.artifacts| && db.artifacts[i] == Linked(m, base.artifacts[i])
  {
    hide Linked, TargetsOf;
    FindIn(TargetsOf(plans), i);
    var t := Find(TargetsOf(plans), i).value;
    BatchMembers(TargetsOf(plans), BATCH_SIZE, t);
    var b :| 0 <= b < Count(|TargetsOf(plans)|, BATCH_SIZE) && t in BatchesOf(TargetsOf(plans), BATCH_SIZE)[b];
    assert b in done;
    assert BatchLinked(m, base.artifacts, db.artifacts, LinkBatches(plans)[b]);
    var k :| 0 <= k < |LinkBatches(plans)[b]| && LinkBatches(plans)[b][k] == t;
  }

  // Completeness -------------------------------------------------------------------------------

  lemma SameBatches(m: Manifest, base: Db, plans: seq<Plan>, kept: bool, events: map<string, AuditEvent>)
    requires Loaded(m) && Plannable(m, base) && PlansAre(m, base, plans, kept, events)
    ensures |LinkBatches(plans)| == BatchCount(m, base)
  {
    hide PlanIs, PlanOne, FormNode, Plannable, Loaded, LookupNode;
    BeforeIsBase(m, base);
    assert AlikeMatter(base.artifacts, base.artifacts);
    PlansFound(m, base, base, Before, true);
    var first := PlanAll(m, base, m.assignments).value;
    forall i | 0 <= i < |plans| ensures plans[i].assignment == first[i].assignment &&
      plans[i].artifacts == first[i].artifacts {
      SamePlanParts(base, plans[i], first[i], m.assignments[i], kept, events, true, base.events);
    }
    TargetsSame(plans, first);
  }

  lemma SamePlanParts(base: Db, p: Plan, q: Plan, a: Assignment, kept: bool, events: map<string, AuditEvent>,
      kept': bool, events': map<string, AuditEvent>)
    requires PlanIs(base, p, a, kept, events) && PlanIs(base, q, a, kept', events')
    ensures p.assignment == q.assignment && p.artifacts == q.artifacts
  {
  }

  /** From any state between attempts an uninterrupted attempt completes. */
  lemma {:induction false} AttemptCompletes(m: Manifest, base: Db, s: State, order: seq<nat>)
    requires Loaded(m) && Ready(m, base) && Inv(m, base, s) && s.phase.Idle? && Covers(order, BatchCount(m, base))
    ensures var r := Run(m, s, Attempt(order));
      r.phase.Idle? && r.interrupted == s.interrupted && r.report.Some? && Done(m, base, r.db, !s.interrupted)
    ensures AllComplete(PlanAll(m, s.db, m.assignments).GetOr([])) && PlanAll(m, s.db, m.assignments).Some? ==>
      Run(m, s, Attempt(order)).db == s.db && Apply(m, s, Begin) == Run(m, s, Attempt(order))
  {
    hide Settled, Halfway, Done, PlanAll, Loaded, Ready, TargetsOf, Created;
    RunAttempt(m, s, order);
    hide Run, Attempt;
    PlanningSucceeds(m, base, s);
    var plans := PlanAll(m, s.db, m.assignments).value;
    if AllComplete(plans) {
      CompleteIsDone(m, base, s, plans);
      RunIdle(m, BeginStep(m, s), order);
    } else {
      RunFromPlanned(m, base, BeginStep(m, s), order);
    }
  }

  lemma PlanningSucceeds(m: Manifest, base: Db, s: State)
    requires Ready(m, base) && Inv(m, base, s) && s.phase.Idle?
    ensures PlanAll(m, s.db, m.assignments).Some?
  {
    var form := SettledForm(m, base, s.db, s.interrupted);
    PlansFound(m, base, s.db, form, !s.interrupted);
  }

  /** With no attempt planned, linking steps do nothing. */
  lemma {:induction false} RunIdle(m: Manifest, s: State, order: seq<nat>)
    requires s.phase.Idle?
    ensures Run(m, s, LinkSteps(order)) == s
    decreases |order|
  {
    if |order| > 0 {
      RunIdle(m, s, order[..|order| - 1]);
      assert LinkSteps(order)[..|order| - 1] == LinkSteps(order[..|order| - 1]);
    }
  }

  lemma RunFromPlanned(m: Manifest, base: Db, s: State, order: seq<nat>)
    requires Loaded(m) && Ready(m, base) && Inv(m, base, s) && s.phase.Planned? && Covers(order, BatchCount(m, base))
    ensures var r := Apply(m, Run(m, Apply(m, s, Stage), LinkSteps(order)), Promote);
      && r.phase.Idle? && r.interrupted == s.interrupted && Done(m, base, r.db, !s.interrupted)
      && r.report ==
        Some(Report(Created(s.phase.plans), |s.phase.plans| - Created(s.phase.plans), |TargetsOf(s.phase.plans)|))
      && (AllRecorded(m, base, s.db.events, !s.interrupted) ==> r.db.events == s.db.events)
  {
    hide Done, PlanAll, Loaded, TargetsOf, Created, PlansAre, AllRecorded, NodesAre, Between, EventsOk, LinkBatches,
      BatchesDone, StageAll, PromoteAll, Settled, BatchCount, Run, Linked;
    StageKeeps(m, base, s);
    var staged := StageStep(m, s);
    LinkingSucceeds(m, base, staged, order);
    var linked := Run(m, staged, LinkSteps(order));
    SameBatches(m, base, s.phase.plans, !linked.interrupted, linked.db.events);
    AllBatchesLink(m, base, linked);
    PromoteEffect(m, base, linked);
  }

  // An attempt that finds everything complete ---------------------------------------------------

  /** A complete plan's node is already as promotion would leave it. */
  lemma CompletePlan(m: Manifest, base: Db, db: Db, a: Assignment, form: Form, kept: bool)
    requires PlanOne(m, base, a).Some? && AlikeMatter(base.artifacts, db.artifacts) && Carries(form, kept)
    requires LookupNode(db.nodes, a.stableKey) == FormNode(m, base, a, form)
    requires PlanOne(m, db, a).Some? && PlanOne(m, db, a).value.complete
    requires (a.promotion == Reviewed || a.promotion == Qualified)
    ensures form != AsCandidates && FormNode(m, base, a, form) == FormNode(m, base, a, AsPromoted(kept))
    ensures LinkedAll(a, db.artifacts, MatchIds(a, db.artifacts)) && a.stableKey in db.events
  {
    PlanFound(m, base, db, a, form, kept);
    SourcesSame(a, base.artifacts, db.artifacts);
    PlanSourcesOf(m, db, a);
    hide MatchIds, SourcesIn, Sources, LinkedAll, AlikeMatter, PlanIs;
    if form == Before {
      assert base.nodes[a.stableKey].evidence + SourcesIn(a, base.artifacts) == base.nodes[a.stableKey].evidence;
    }
  }

  lemma CompleteForms(m: Manifest, base: Db, db: Db, form: Form, kept: bool, plans: seq<Plan>)
    requires Loaded(m) && Plannable(m, base) && AlikeMatter(base.artifacts, db.artifacts) && Carries(form, kept)
    requires NodesAre(m, base, db.nodes, form) && PlanAll(m, db, m.assignments) == Some(plans) && AllComplete(plans)
    ensures form != AsCandidates && NodesAre(m, base, db.nodes, AsPromoted(kept))
    ensures LinkedUpTo(m, db.artifacts, |m.assignments|)
    ensures forall i :: 0 <= i < |m.assignments| ==> m.assignments[i].stableKey in db.events
  {
    hide PlanOne, FormNode, LookupNode, AlikeMatter, MatchIds, LinkedAll, Carries;
    forall i | 0 <= i < |m.assignments|
      ensures form != AsCandidates
      ensures FormNode(m, base, m.assignments[i], form) == FormNode(m, base, m.assignments[i], AsPromoted(kept))
      ensures LinkedAll(m.assignments[i], db.artifacts, MatchIds(m.assignments[i], db.artifacts))
      ensures m.assignments[i].stableKey in db.events
    {
      assert plans[i].complete;
      CompletePlan(m, base, db, m.assignments[i], form, kept);
    }
    assert form != AsCandidates by { assert 0 < |m.assignments|; }
  }

  lemma CompleteIsDone(m: Manifest, base: Db, s: State, plans: seq<Plan>)
    requires Loaded(m) && Ready(m, base) && Inv(m, base, s) && s.phase.Idle?
    requires PlanAll(m, s.db, m.assignments) == Some(plans) && AllComplete(plans)
    ensures Done(m, base, s.db, !s.interrupted)
  {
    hide PlanAll, Between, FullyBetween, Loaded, NodesMixed, Plannable, LinkedUpTo, Linked, AlikeMatter;
    var form := SettledForm(m, base, s.db, s.interrupted);
    CompleteForms(m, base, s.db, form, !s.interrupted, plans);
    LinkedAllIsFull(m, base.artifacts, s.db.artifacts);
    if s.db == base { NothingToRecord(m, base, base.events, base.events, true); }
  }

  // Convergence --------------------------------------------------------------------------------

  /** Staging forgets no qualification the manifest does not give back. */
  ghost predicate KeepsQualified(m: Manifest, base: Db) {
    forall i :: 0 <= i < |m.assignments| && WasQualified(base, m.assignments[i]) ==>
      m.assignments[i].promotion == Qualified
  }

  lemma SamePromotions(m: Manifest, base: Db, nodes: map<string, Node>, events: map<string, AuditEvent>)
    requires KeepsQualified(m, base)
    ensures NodesAre(m, base, nodes, AsPromoted(false)) <==> NodesAre(m, base, nodes, AsPromoted(true))
    ensures Recorded(m, base, events, false) <==> Recorded(m, base, events, true)
  {
    hide StagedNode, LookupNode;
    forall i | 0 <= i < |m.assignments| ensures FinalPromotion(base, m.assignments[i], false) ==
      FinalPromotion(base, m.assignments[i], true) {
    }
  }

  lemma FullDetermined(m: Manifest, base: seq<Artifact>, a: seq<Artifact>, b: seq<Artifact>)
    requires FullyBetween(m, base, a) && FullyBetween(m, base, b)
    ensures a == b
  {
  }

  lemma DoneDetermined(m: Manifest, base: Db, a: Db, b: Db)
    requires Done(m, base, a, true) && Done(m, base, b, true)
    ensures a == b
  {
    hide NodesAre, FullyBetween, Recorded;
    NodesDetermined(m, base, a.nodes, b.nodes, AsPromoted(true));
    FullDetermined(m, base.artifacts, a.artifacts, b.artifacts);
    EventsDetermined(m, base, a.events, b.events, true);
  }

  lemma DoneAnyhow(m: Manifest, base: Db, db: Db)
    requires KeepsQualified(m, base) && Done(m, base, db, false)
    ensures Done(m, base, db, true)
  {
    hide NodesAre, FullyBetween, Recorded;
    SamePromotions(m, base, db.nodes, db.events);
  }

  lemma DoneDiffers(m: Manifest, base: Db, a: Db, b: Db)
    requires !KeepsQualified(m, base) && Done(m, base, a, true) && Done(m, base, b, false)
    ensures a != b
  {
    hide NodesAre, FullyBetween, Recorded, AllRecorded;
    var i :| 0 <= i < |m.assignments| && WasQualified(base, m.assignments[i]) &&
      m.assignments[i].promotion != Qualified;
    FormPromotion(m, base, a.nodes, AsPromoted(true), i);
    FormPromotion(m, base, b.nodes, AsPromoted(false), i);
  }

  /** Any number of attempts, each crashing after any step, then one attempt run to the end: the
      database is the one a single uninterrupted attempt gives, whatever orders the lanes' batches
      commit in, exactly when no attempt stopped between staging and promotion or no node loses a
      qualification that the manifest does not give. */
  lemma {:induction false} IngressConverges(m: Manifest, base: Db, steps: seq<Step>, order: seq<nat>, other: seq<nat>)
    requires Loaded(m) && Ready(m, base) && Run(m, Init(base), steps).phase.Idle?
    requires Covers(order, BatchCount(m, base)) && Covers(other, BatchCount(m, base))
    ensures var before := Run(m, Init(base), steps);
      var once := Run(m, Init(base), Attempt(other));
      var after := Run(m, Init(base), steps + Attempt(order));
      && after.phase.Idle? && after.report.Some? && once.report.Some?
      && FullyBetween(m, base.artifacts, after.db.artifacts)
      && (after.db == once.db <==> !before.interrupted || KeepsQualified(m, base))
  {
    RunConcat(m, Init(base), steps, Attempt(order));
    hide Loaded, Done, Attempt, Run, Plannable, BatchCount, Covers, KeepsQualified, Linked, FullyBetween;
    var before := Run(m, Init(base), steps);
    RunKeeps(m, base, steps);
    hide Inv;
    AttemptCompletes(m, base, before, order);
    assert Inv(m, base, Init(base)) by { InitInv(m, base); }
    AttemptCompletes(m, base, Init(base), other);
    var once, after := Run(m, Init(base), Attempt(other)).db, Run(m, Init(base), steps + Attempt(order)).db;
    assert FullyBetween(m, base.artifacts, after.artifacts) by { DoneIsFull(m, base, after, !before.interrupted); }
    if !before.interrupted {
      DoneDetermined(m, base, after, once);
    } else if KeepsQualified(m, base) {
      DoneAnyhow(m, base, after);
      DoneDetermined(m, base, after, once);
    } else {
      DoneDiffers(m, base, once, after);
    }
  }

  lemma InitInv(m: Manifest, base: Db)
    ensures Inv(m, base, Init(base))
  {
  }

  lemma DoneIsFull(m: Manifest, base: Db, db: Db, kept: bool)
    requires Done(m, base, db, kept)
    ensures FullyBetween(m, base.artifacts, db.artifacts)
  {
  }

  // Running again ------------------------------------------------------------------------------

  /** No assignment without a description meets a node that has one. */
  ghost predicate DescriptionsMatch(m: Manifest, base: Db) {
    forall i :: 0 <= i < |m.assignments| && m.assignments[i].description.None? && m.assignments[i].stableKey in base.nodes ==>
      base.nodes[m.assignments[i].stableKey].description.None?
  }

  lemma DonePlan(m: Manifest, base: Db, db: Db, a: Assignment, kept: bool)
    requires PlanOne(m, base, a).Some? && AlikeMatter(base.artifacts, db.artifacts)
    requires LookupNode(db.nodes, a.stableKey) == FormNode(m, base, a, AsPromoted(kept))
    requires LinkedAll(a, db.artifacts, MatchIds(a, db.artifacts)) && a.stableKey in db.events
    ensures PlanOne(m, db, a).Some? && PlanOne(m, db, a).value.node.Some?
    ensures PlanOne(m, db, a).value.complete <==>
      (a.description.None? && a.stableKey in base.nodes ==> base.nodes[a.stableKey].description.None?)
  {
    PlanFound(m, base, db, a, AsPromoted(kept), kept);
    SourcesSame(a, base.artifacts, db.artifacts);
    PlanSourcesOf(m, db, a);
    hide MatchIds, SourcesIn, Sources, LinkedAll, AlikeMatter, PlanIs;
    assert SourcesIn(a, base.artifacts) <= StagedNode(m, base, a).evidence;
  }

  lemma DonePlans(m: Manifest, base: Db, db: Db, kept: bool)
    requires Plannable(m, base) && Done(m, base, db, kept) && AlikeMatter(base.artifacts, db.artifacts)
    ensures PlanAll(m, db, m.assignments).Some?
    ensures var plans := PlanAll(m, db, m.assignments).value;
      (AllComplete(plans) <==> DescriptionsMatch(m, base)) && forall i :: 0 <= i < |plans| ==> plans[i].node.Some?
  {
    hide PlanOne, FormNode, LookupNode, AlikeMatter, LinkedAll, MatchIds, FullyBetween, Recorded;
    FullIsBetween(m, base.artifacts, db.artifacts);
    LinkedAllIsFull(m, base.artifacts, db.artifacts);
    if Recorded(m, base, db.events, true) {
      RecordedAll(m, base, db.events, true);
    } else {
      RecordedAll(m, base, db.events, false);
    }
    forall i | 0 <= i < |m.assignments|
      ensures var a := m.assignments[i];
        PlanOne(m, db, a).Some? && PlanOne(m, db, a).value.node.Some? &&
        (PlanOne(m, db, a).value.complete <==>
          (a.description.None? && a.stableKey in base.nodes ==> base.nodes[a.stableKey].description.None?))
    {
      DonePlan(m, base, db, m.assignments[i], kept);
    }
  }

  lemma {:induction false} NothingCreated(plans: seq<Plan>)
    requires forall i :: 0 <= i < |plans| ==> plans[i].node.Some?
    ensures Created(plans) == 0
  {
    if |plans| > 0 { NothingCreated(plans[..|plans| - 1]); }
  }

  /** Once an attempt has run to the end, a further one leaves the database as it is. It returns
      without any write, reporting no created and no updated node, exactly when no assignment without
      a description meets a node that has one; otherwise it writes and reports every node updated. */
  lemma {:induction false} RerunChangesNothing(m: Manifest, base: Db, steps: seq<Step>, order: seq<nat>)
    requires Loaded(m) && Ready(m, base) && Run(m, Init(base), steps).phase.Idle? && Covers(order, BatchCount(m, base))
    ensures var s := Run(m, Init(base), steps + Attempt(order));
      var r := Run(m, s, Attempt(order));
      && r.db == s.db && r.report.Some?
      && (Apply(m, s, Begin).phase.Idle? <==> DescriptionsMatch(m, base))
      && r.report.value.created == 0
      && r.report.value.updated == (if DescriptionsMatch(m, base) then 0 else |m.assignments|)
  {
    RunConcat(m, Init(base), steps, Attempt(order));
    RunKeeps(m, base, steps);
    hide Run, Attempt, Inv, Done, Loaded, BatchCount, Covers, Plannable, Linked, PlanAll, DescriptionsMatch;
    var before := Run(m, Init(base), steps);
    AttemptCompletes(m, base, before, order);
    var s := Run(m, Init(base), steps + Attempt(order));
    assert Inv(m, base, s) by { DoneInv(m, base, s); }
    Rerun(m, base, s, order);
  }

  lemma DoneInv(m: Manifest, base: Db, s: State)
    requires s.phase.Idle? && Done(m, base, s.db, !s.interrupted)
    ensures Inv(m, base, s)
  {
  }

  lemma Rerun(m: Manifest, base: Db, s: State, order: seq<nat>)
    requires Loaded(m) && Ready(m, base) && s.phase.Idle? && Inv(m, base, s) && Done(m, base, s.db, !s.interrupted)
    requires Covers(order, BatchCount(m, base))
    ensures var r := Run(m, s, Attempt(order));
      && r.db == s.db && r.report.Some?
      && (Apply(m, s, Begin).phase.Idle? <==> DescriptionsMatch(m, base))
      && r.report.value.created == 0
      && r.report.value.updated == (if DescriptionsMatch(m, base) then 0 else |m.assignments|)
  {
    hide Loaded, BatchCount, Covers, PlanAll, DescriptionsMatch, NodesAre, FullyBetween, AllRecorded, AlikeMatter,
      Between, TargetsOf, Created, Plannable, Linked;
    FullIsBetween(m, base.artifacts, s.db.artifacts);
    BetweenAlike(m, base.artifacts, s.db.artifacts);
    DonePlans(m, base, s.db, !s.interrupted);
    var plans := PlanAll(m, s.db, m.assignments).value;
    NothingCreated(plans);
    RunAttempt(m, s, order);
    hide Run, Attempt;
    if AllComplete(plans) {
      RunIdle(m, BeginStep(m, s), order);
    } else {
      var begun := BeginStep(m, s);
      assert Inv(m, base, begun) by { BeginKeeps(m, base, s); }
      RunFromPlanned(m, base, begun, order);
      var r := Run(m, s, Attempt(order));
      NodesDetermined(m, base, r.db.nodes, s.db.nodes, AsPromoted(!s.interrupted));
      FullDetermined(m, base.artifacts, r.db.artifacts, s.db.artifacts);
    }
  }
}
