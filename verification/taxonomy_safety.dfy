/** Safety of ingress at every crash point: what holds after any steps from any database. */
module TaxonomySafety {
  import opened Contracts
  import opened Batches
  import opened Taxonomy
  import opened TaxonomyLinks
  import opened TaxonomyForms

  // The invariant ------------------------------------------------------------------------------

  /** The review events: as they were, or one added for every node. An attempt after an interrupted
      one may record the lower promotion. */
  ghost predicate EventsOk(m: Manifest, base: Db, events: map<string, AuditEvent>, kept: bool) {
    events == base.events || AllRecorded(m, base, events, kept)
  }

  ghost predicate AllRecorded(m: Manifest, base: Db, events: map<string, AuditEvent>, kept: bool) {
    Recorded(m, base, events, true) || (!kept && Recorded(m, base, events, false))
  }

  /** A whole attempt has committed. */
  ghost predicate Done(m: Manifest, base: Db, db: Db, kept: bool) {
    NodesAre(m, base, db.nodes, AsPromoted(kept)) && FullyBetween(m, base.artifacts, db.artifacts) &&
      AllRecorded(m, base, db.events, kept)
  }

  /** The nodes are staged and some artifacts linked. */
  ghost predicate Halfway(m: Manifest, base: Db, db: Db, kept: bool) {
    NodesAre(m, base, db.nodes, AsCandidates) && Between(m, base.artifacts, db.artifacts) &&
      EventsOk(m, base, db.events, kept)
  }

  /** The database between attempts. */
  ghost predicate Settled(m: Manifest, base: Db, db: Db, interrupted: bool) {
    if interrupted then Halfway(m, base, db, false) || Done(m, base, db, false)
    else db == base || Done(m, base, db, true)
  }

  ghost predicate BatchesDone(m: Manifest, base: Db, db: Db, plans: seq<Plan>, done: set<nat>) {
    forall b :: b in done && b < |LinkBatches(plans)| ==>
      BatchLinked(m, base.artifacts, db.artifacts, LinkBatches(plans)[b])
  }

  ghost predicate Inv(m: Manifest, base: Db, s: State) {
    match s.phase
    case Idle => Settled(m, base, s.db, s.interrupted)
    case Planned(plans) =>
      Settled(m, base, s.db, s.interrupted) && PlanAll(m, s.db, m.assignments) == Some(plans)
    case Linking(plans, done, _) =>
      && Halfway(m, base, s.db, !s.interrupted)
      && PlansAre(m, base, plans, !s.interrupted, s.db.events)
      && BatchesDone(m, base, s.db, plans, done)
  }

  // Each step keeps it -------------------------------------------------------------------------

  lemma FullIsBetween(m: Manifest, base: seq<Artifact>, now: seq<Artifact>)
    requires FullyBetween(m, base, now)
    ensures Between(m, base, now)
  {
  }

  lemma BaseIsBetween(m: Manifest, base: seq<Artifact>)
    ensures Between(m, base, base)
  {
  }

  /** Between attempts the database has one of the forms. */
  lemma SettledForm(m: Manifest, base: Db, db: Db, interrupted: bool) returns (form: Form)
    requires Settled(m, base, db, interrupted)
    ensures Carries(form, !interrupted) && NodesAre(m, base, db.nodes, form)
    ensures Between(m, base.artifacts, db.artifacts) && AlikeMatter(base.artifacts, db.artifacts)
    ensures EventsOk(m, base, db.events, !interrupted)
    ensures form == AsCandidates || db == base || Done(m, base, db, !interrupted)
    ensures form == AsCandidates ==> interrupted
  {
    hide Between, FullyBetween, NodesAre, AllRecorded, AlikeMatter;
    if !interrupted && db == base {
      form := Before;
      BeforeIsBase(m, base);
      BaseIsBetween(m, base.artifacts);
    } else if Done(m, base, db, !interrupted) {
      form := AsPromoted(!interrupted);
      FullIsBetween(m, base.artifacts, db.artifacts);
    } else {
      form := AsCandidates;
    }
    BetweenAlike(m, base.artifacts, db.artifacts);
  }

  /** Staging, from any state between attempts. */
  lemma StagingEffect(m: Manifest, base: Db, db: Db, interrupted: bool, plans: seq<Plan>)
    requires Loaded(m) && Plannable(m, base) && Settled(m, base, db, interrupted)
    requires PlanAll(m, db, m.assignments) == Some(plans)
    ensures PlansAre(m, base, plans, !interrupted, db.events)
    ensures StageAll(m, db, plans).Some? && StageAll(m, db, plans).value.events == db.events
    ensures Halfway(m, base, StageAll(m, db, plans).value, !interrupted)
  {
    var form := SettledForm(m, base, db, interrupted);
    PlansFound(m, base, db, form, !interrupted);
    hide Between, NodesMixed, AlikeMatter, EventsOk, PlansAre, FormNode, PlanAll, StageAll, Settled, Loaded, Plannable,
      SourcesIn;
    PlansAreStaged(m, base, plans, !interrupted, db.events);
    StageAllEffect(m, base, db, plans, form, |plans|);
    assert plans[..|plans|] == plans;
    WholeSplit(m, base, StageAll(m, db, plans).value.nodes, AsCandidates, form);
  }

  lemma StageKeeps(m: Manifest, base: Db, s: State)
    requires Loaded(m) && Plannable(m, base) && Inv(m, base, s) && s.phase.Planned?
    ensures Inv(m, base, StageStep(m, s)) && StageStep(m, s).interrupted == s.interrupted
    ensures StageStep(m, s).phase == Linking(s.phase.plans, {}, false) && StageStep(m, s).db.events == s.db.events
  {
    hide Halfway, PlansAre, PlanAll, StageAll, Settled, Loaded, Plannable;
    StagingEffect(m, base, s.db, s.interrupted, s.phase.plans);
  }

  lemma PlansAreStaged(m: Manifest, base: Db, plans: seq<Plan>, kept: bool, events: map<string, AuditEvent>)
    requires PlansAre(m, base, plans, kept, events)
    ensures |plans| == |m.assignments|
    ensures forall i :: 0 <= i < |plans| ==>
      plans[i].assignment == m.assignments[i] && plans[i].evidence == SourcesIn(m.assignments[i], base.artifacts)
    ensures PlansRead(base.artifacts, plans) && AssignmentsOf(plans) == m.assignments
  {
    hide SourcesIn, MatchIds, Sourced;
    forall i | 0 <= i < |plans|
      ensures plans[i].assignment == m.assignments[i]
      ensures plans[i].evidence == SourcesIn(m.assignments[i], base.artifacts)
      ensures plans[i].artifacts == MatchIds(plans[i].assignment, base.artifacts)
    {
      assert PlanIs(base, plans[i], m.assignments[i], kept, events);
    }
  }

  lemma BatchIsRight(m: Manifest, base: Db, plans: seq<Plan>, kept: bool, events: map<string, AuditEvent>, b: nat)
    requires PlansAre(m, base, plans, kept, events) && b < |LinkBatches(plans)|
    ensures forall k :: 0 <= k < |LinkBatches(plans)[b]| ==> Right(m, base.artifacts, LinkBatches(plans)[b][k])
  {
    hide PlansAre, Right, TargetsOf;
    PlansAreStaged(m, base, plans, kept, events);
    var batch := LinkBatches(plans)[b];
    forall k | 0 <= k < |batch| ensures Right(m, base.artifacts, batch[k]) {
      BatchIndex(TargetsOf(plans), BATCH_SIZE, b, k);
      TargetIsRight(m, base.artifacts, plans, batch[k]);
    }
  }

  lemma LinkKeeps(m: Manifest, base: Db, s: State, b: nat)
    requires Inv(m, base, s) && s.phase.Linking?
    ensures Inv(m, base, LinkStep(s, b)) && LinkStep(s, b).interrupted == s.interrupted
    ensures LinkStep(s, b).phase.Linking? && LinkStep(s, b).phase.plans == s.phase.plans
    ensures LinkStep(s, b).db.events == s.db.events
  {
    hide Between, NodesAre, PlansAre, EventsOk, LinkBatch;
    var plans := s.phase.plans;
    if b < |LinkBatches(plans)| && b !in s.phase.done {
      var batch := LinkBatches(plans)[b];
      if LinkBatch(s.db, batch).Some? {
        BatchIsRight(m, base, plans, !s.interrupted, s.db.events, b);
        LinkBatchEffect(m, base.artifacts, s.db, batch);
        var r := LinkBatch(s.db, batch).value;
        forall c | c in s.phase.done &&
          c < |LinkBatches(plans)| ensures BatchLinked(m, base.artifacts, r.artifacts, LinkBatches(plans)[c]) {
          StaysLinked(m, base.artifacts, s.db.artifacts, r.artifacts, LinkBatches(plans)[c]);
        }
      }
    }
  }

  lemma StaysLinked(m: Manifest, base: seq<Artifact>, before: seq<Artifact>, after: seq<Artifact>, batch: seq<Target>)
    requires BatchLinked(m, base, before, batch) && |after| == |base|
    requires forall i :: 0 <= i < |base| && before[i] == Linked(m, base[i]) ==> after[i] == Linked(m, base[i])
    ensures BatchLinked(m, base, after, batch)
  {
    hide Linked;
  }

  /** After promotion the attempt is done; it is refused exactly when some artifact is not linked. */
  lemma PromoteEffect(m: Manifest, base: Db, s: State)
    requires Loaded(m) && Inv(m, base, s) && s.phase.Linking?
    ensures PromoteAll(m, s.db, s.phase.plans).Some? <==> FullyBetween(m, base.artifacts, s.db.artifacts)
    ensures PromoteAll(m, s.db, s.phase.plans).Some? ==>
      Done(m, base, PromoteAll(m, s.db, s.phase.plans).value, !s.interrupted)
    ensures PromoteAll(m, s.db, s.phase.plans).Some? && AllRecorded(m, base, s.db.events, !s.interrupted) ==>
      PromoteAll(m, s.db, s.phase.plans).value.events == s.db.events
  {
    hide Between, FullyBetween, NodesMixed, PlanIs, PromoteAll, LinkedUpTo, Loaded, EventsUpTo, Recorded;
    var plans, kept := s.phase.plans, !s.interrupted;
    assert plans[..|plans|] == plans;
    BetweenAlike(m, base.artifacts, s.db.artifacts);
    PromoteAllEffect(m, base, s.db, plans, kept, |plans|);
    LinkedAllIsFull(m, base.artifacts, s.db.artifacts);
    if PromoteAll(m, s.db, plans).Some? {
      var r := PromoteAll(m, s.db, plans).value;
      WholeSplit(m, base, r.nodes, AsPromoted(kept), AsCandidates);
      EventsAfter(m, base, s.db.events, r.events, kept);
      if AllRecorded(m, base, s.db.events, kept) { RecordedStays(m, base, s.db.events, r.events, kept); }
    }
  }

  lemma RecordedStays(m: Manifest, base: Db, start: map<string, AuditEvent>, events: map<string, AuditEvent>,
      kept: bool)
    requires AllRecorded(m, base, start, kept) && EventsUpTo(m, base, start, events, |m.assignments|, kept)
    ensures events == start
  {
    hide EventsUpTo;
    if Recorded(m, base, start, true) {
      RecordedAll(m, base, start, true);
    } else {
      RecordedAll(m, base, start, false);
    }
    NothingToRecord(m, base, start, events, kept);
  }

  lemma EventsAfter(m: Manifest, base: Db, start: map<string, AuditEvent>, events: map<string, AuditEvent>, kept: bool)
    requires EventsOk(m, base, start, kept) && EventsUpTo(m, base, start, events, |m.assignments|, kept)
    ensures AllRecorded(m, base, events, kept)
  {
    hide EventsUpTo;
    if start != base.events { RecordedStays(m, base, start, events, kept); }
  }

  lemma PromoteKeeps(m: Manifest, base: Db, s: State)
    requires Loaded(m) && Inv(m, base, s) && s.phase.Linking?
    ensures Inv(m, base, PromoteStep(m, s))
  {
    hide Done, Halfway, PlansAre, PromoteAll, Loaded, FullyBetween;
    PromoteEffect(m, base, s);
    StopKeeps(m, base, s);
  }

  lemma StopKeeps(m: Manifest, base: Db, s: State)
    requires Inv(m, base, s)
    ensures Inv(m, base, Stop(s))
  {
    hide Between, NodesAre, PlansAre, Done, Recorded;
  }

  lemma ApplyKeeps(m: Manifest, base: Db, s: State, step: Step)
    requires Loaded(m) && Plannable(m, base) && Inv(m, base, s)
    ensures Inv(m, base, Apply(m, s, step))
  {
    hide Inv, Loaded, Plannable, StageStep, LinkStep, PromoteStep;
    StopKeeps(m, base, s);
    match step
    case Begin => if s.phase.Idle? { BeginKeeps(m, base, s); }
    case Stage => if s.phase.Planned? { StageKeeps(m, base, s); }
    case Link(b) => if s.phase.Linking? { LinkKeeps(m, base, s, b); }
    case Promote => if s.phase.Linking? { PromoteKeeps(m, base, s); }
    case Crash =>
  }

  lemma BeginKeeps(m: Manifest, base: Db, s: State)
    requires Inv(m, base, s) && s.phase.Idle?
    ensures Inv(m, base, BeginStep(m, s))
  {
    hide Halfway, Done, PlanAll;
  }

  lemma {:induction false} RunKeeps(m: Manifest, base: Db, steps: seq<Step>)
    requires Loaded(m) && Plannable(m, base)
    ensures Inv(m, base, Run(m, Init(base), steps))
    decreases |steps|
  {
    hide Halfway, Done, Loaded, Plannable;
    if |steps| > 0 {
      RunKeeps(m, base, steps[..|steps| - 1]);
      ApplyKeeps(m, base, Run(m, Init(base), steps[..|steps| - 1]), steps[|steps| - 1]);
    }
  }

  /** A manifest that does not fit the database never changes it. */
  lemma {:induction false} UnplannableChangesNothing(m: Manifest, base: Db, steps: seq<Step>)
    requires !Plannable(m, base)
    ensures Run(m, Init(base), steps).db == base && Run(m, Init(base), steps).phase.Idle?
    decreases |steps|
  {
    if |steps| > 0 {
      UnplannableChangesNothing(m, base, steps[..|steps| - 1]);
      PlanningFails(m, base);
      hide PlanAll, Plannable;
    }
  }

  lemma PlanningFails(m: Manifest, base: Db)
    requires !Plannable(m, base)
    ensures PlanAll(m, base, m.assignments).None?
  {
    hide PlanOne;
    var i :| 0 <= i < |m.assignments| && PlanOne(m, base, m.assignments[i]).None?;
  }

  // What it means ------------------------------------------------------------------------------

  /** A node that carries this manifest's hash and is reviewed or qualified. */
  predicate Accepted(m: Manifest, db: Db, a: Assignment) {
    a.stableKey in db.nodes && db.nodes[a.stableKey].sourceVersion == m.sourceHash
    && (db.nodes[a.stableKey].promotion == Reviewed || db.nodes[a.stableKey].promotion == Qualified)
  }

  /** Every accepted node has all its artifacts linked and its review recorded. */
  ghost predicate Safe(m: Manifest, db: Db) {
    forall i :: 0 <= i < |m.assignments| && Accepted(m, db, m.assignments[i]) ==>
      && LinkedAll(m.assignments[i], db.artifacts, MatchIds(m.assignments[i], db.artifacts))
      && m.assignments[i].stableKey in db.events
  }

  lemma FormPromotion(m: Manifest, base: Db, nodes: map<string, Node>, form: Form, i: nat)
    requires NodesAre(m, base, nodes, form) && form != Before && i < |m.assignments|
    ensures m.assignments[i].stableKey in nodes
    ensures nodes[m.assignments[i].stableKey].sourceVersion == m.sourceHash
    ensures nodes[m.assignments[i].stableKey].promotion ==
      if form == AsCandidates then Candidate else FinalPromotion(base, m.assignments[i], form.kept)
  {
    hide FinalPromotion, SourcesIn;
    var a := m.assignments[i];
    assert LookupNode(nodes, a.stableKey) == FormNode(m, base, a, form);
  }

  lemma HalfwayIsSafe(m: Manifest, base: Db, db: Db, kept: bool)
    requires Halfway(m, base, db, kept)
    ensures Safe(m, db)
  {
    hide NodesAre, MatchIds, LinkedAll;
    forall i | 0 <= i < |m.assignments| ensures !Accepted(m, db, m.assignments[i]) {
      FormPromotion(m, base, db.nodes, AsCandidates, i);
    }
  }

  lemma DoneIsSafe(m: Manifest, base: Db, db: Db, kept: bool)
    requires Done(m, base, db, kept)
    ensures Safe(m, db)
  {
    hide NodesAre, MatchIds, LinkedAll, FullyBetween, Accepted, Recorded;
    if Recorded(m, base, db.events, true) {
      RecordedAll(m, base, db.events, true);
    } else {
      RecordedAll(m, base, db.events, false);
    }
    FullIsBetween(m, base.artifacts, db.artifacts);
    LinkedAllIsFull(m, base.artifacts, db.artifacts);
  }

  /** At every crash point of every sequence of attempts, with the lanes' batches in any order: an
      accepted node has all its artifacts linked and its review recorded. */
  lemma {:induction false} IngressSafety(m: Manifest, base: Db, steps: seq<Step>)
    requires Loaded(m) && Safe(m, base)
    ensures Safe(m, Run(m, Init(base), steps).db)
  {
    hide Safe, Loaded, Halfway, Done, Run;
    var s := Run(m, Init(base), steps);
    if Plannable(m, base) {
      RunKeeps(m, base, steps);
      SafeByPhase(m, base, s);
    } else {
      UnplannableChangesNothing(m, base, steps);
    }
  }

  lemma SafeByPhase(m: Manifest, base: Db, s: State)
    requires Inv(m, base, s) && Safe(m, base)
    ensures Safe(m, s.db)
  {
    hide Safe, Halfway, Done, PlanAll, PlansAre;
    if s.phase.Linking? { HalfwayIsSafe(m, base, s.db, !s.interrupted); }
    else if s.interrupted && Halfway(m, base, s.db, false) { HalfwayIsSafe(m, base, s.db, false); }
    else if s.interrupted { DoneIsSafe(m, base, s.db, false); }
    else if s.db != base { DoneIsSafe(m, base, s.db, true); }
  }

  ghost predicate AllCandidates(m: Manifest, db: Db) {
    forall i :: 0 <= i < |m.assignments| ==>
      m.assignments[i].stableKey in db.nodes && db.nodes[m.assignments[i].stableKey].promotion == Candidate
  }

  ghost predicate AllAccepted(m: Manifest, db: Db) {
    forall i :: 0 <= i < |m.assignments| ==> Accepted(m, db, m.assignments[i])
  }

  /** The manifest's nodes are all untouched, all candidates or all accepted; the artifacts' contents
      never change except by gaining the manifest's references, with one bump each. */
  lemma {:induction false} IngressAllOrNothing(m: Manifest, base: Db, steps: seq<Step>)
    requires Loaded(m)
    ensures var db := Run(m, Init(base), steps).db;
      (db.nodes == base.nodes || AllCandidates(m, db) || AllAccepted(m, db)) && Between(m, base.artifacts, db.artifacts)
  {
    hide Halfway, Done, Run, Between, AllCandidates, AllAccepted, PlanAll, PlansAre, BatchesDone;
    var s := Run(m, Init(base), steps);
    BaseIsBetween(m, base.artifacts);
    if Plannable(m, base) {
      RunKeeps(m, base, steps);
      if Halfway(m, base, s.db, !s.interrupted) { CandidatesForm(m, base, s.db, !s.interrupted); }
      else if Done(m, base, s.db, !s.interrupted) { AcceptedForm(m, base, s.db, !s.interrupted); }
    } else {
      UnplannableChangesNothing(m, base, steps);
    }
  }

  lemma CandidatesForm(m: Manifest, base: Db, db: Db, kept: bool)
    requires Halfway(m, base, db, kept)
    ensures AllCandidates(m, db) && Between(m, base.artifacts, db.artifacts)
  {
    hide NodesAre, Between, EventsOk;
    forall i | 0 <= i < |m.assignments| ensures m.assignments[i].stableKey in db.nodes &&
      db.nodes[m.assignments[i].stableKey].promotion == Candidate {
      FormPromotion(m, base, db.nodes, AsCandidates, i);
    }
  }

  lemma AcceptedForm(m: Manifest, base: Db, db: Db, kept: bool)
    requires Loaded(m) && Done(m, base, db, kept)
    ensures AllAccepted(m, db) && Between(m, base.artifacts, db.artifacts)
  {
    hide NodesAre, FullyBetween, AllRecorded, Between;
    FullIsBetween(m, base.artifacts, db.artifacts);
    forall i | 0 <= i < |m.assignments| ensures Accepted(m, db, m.assignments[i]) {
      FormPromotion(m, base, db.nodes, AsPromoted(kept), i);
    }
  }
}
