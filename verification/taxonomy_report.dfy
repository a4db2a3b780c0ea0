/** What an ingress attempt reports: counts of the nodes the database lacked and had when the attempt
    began, and of the artifacts the manifest targets. */
module TaxonomyReport {
  import opened Contracts
  import opened Taxonomy
  import opened TaxonomyLinks
  import opened TaxonomyForms
  import opened TaxonomySafety
  import opened TaxonomyConvergence

  /** The assignments whose node is not there. */
  ghost function Missing(assignments: seq<Assignment>, nodes: map<string, Node>): set<nat> {
    set i: nat | i < |assignments| && assignments[i].stableKey !in nodes
  }

  /** The artifacts that some assignment targets. */
  ghost function Matched(assignments: seq<Assignment>, artifacts: seq<Artifact>): set<nat> {
    set i: nat | i < |artifacts| && exists j :: 0 <= j < |assignments| && Matches(assignments[j], artifacts[i])
  }

  // Counting -----------------------------------------------------------------------------------

  lemma {:induction false} CreatedCounts(m: Manifest, db: Db, assignments: seq<Assignment>, plans: seq<Plan>)
    requires |plans| == |assignments|
    requires forall i :: 0 <= i < |plans| ==> PlanOne(m, db, assignments[i]) == Some(plans[i])
    ensures Created(plans) == |Missing(assignments, db.nodes)|
  {
    if |plans| > 0 {
      var n := |plans| - 1;
      CreatedCounts(m, db, assignments[..n], plans[..n]);
      var before := Missing(assignments[..n], db.nodes);
      assert Missing(assignments, db.nodes) == before + if assignments[n].stableKey !in db.nodes then {n} else {};
      assert plans[n].node == LookupNode(db.nodes, assignments[n].stableKey);
    }
  }

  ghost predicate HasId(targets: seq<Target>, id: nat) {
    exists k :: 0 <= k < |targets| && targets[k].id == id
  }

  lemma {:induction false} DistinctCount(targets: seq<Target>, ids: set<nat>)
    requires DistinctIds(targets) && forall id :: id in ids <==> HasId(targets, id)
    ensures |ids| == |targets|
  {
    if |targets| == 0 {
      assert ids == {};
    } else {
      var n := |targets| - 1;
      var others := ids - {targets[n].id};
      forall id ensures id in others <==> HasId(targets[..n], id) {
        if id in others {
          var k :| 0 <= k < |targets| && targets[k].id == id;
          assert targets[..n][k].id == id;
        }
        if k :| 0 <= k < |targets[..n]| && targets[..n][k].id == id { assert targets[k].id == id; }
      }
      DistinctCount(targets[..n], others);
      assert targets[n].id in ids;
    }
  }

  lemma PlansAreRead(m: Manifest, db: Db, plans: seq<Plan>)
    requires PlanAll(m, db, m.assignments) == Some(plans)
    ensures PlansRead(db.artifacts, plans) && AssignmentsOf(plans) == m.assignments
  {
    forall i | 0 <= i < |plans|
      ensures plans[i].assignment == m.assignments[i] && plans[i].artifacts == MatchIds(m.assignments[i], db.artifacts)
    {
      assert PlanOne(m, db, m.assignments[i]) == Some(plans[i]);
    }
  }

  lemma TargetedWhen(m: Manifest, artifacts: seq<Artifact>, plans: seq<Plan>, id: nat)
    requires PlansRead(artifacts, plans) && AssignmentsOf(plans) == m.assignments
    ensures Targeted(plans, id) <==> id in Matched(m.assignments, artifacts)
  {
    if i :| 0 <= i < |plans| && id in plans[i].artifacts {
      assert Matches(m.assignments[i], artifacts[id]);
    }
    if id in Matched(m.assignments, artifacts) {
      var j :| 0 <= j < |m.assignments| && Matches(m.assignments[j], artifacts[id]);
      assert id in plans[j].artifacts;
    }
  }

  lemma TargetWhen(plans: seq<Plan>, artifacts: seq<Artifact>, id: nat)
    requires PlansRead(artifacts, plans) && (Targeted(plans, id) ==> id < |artifacts|)
    ensures Targeted(plans, id) <==> HasId(TargetsOf(plans), id)
  {
    hide TargetsOf, Targeted, PlansRead;
    if Targeted(plans, id) {
      TargetFor(artifacts, plans, id);
      FindIn(TargetsOf(plans), id);
    }
    if k :| 0 <= k < |TargetsOf(plans)| && TargetsOf(plans)[k].id == id {
      TargetsAreTargeted(plans, TargetsOf(plans)[k]);
    }
  }

  lemma TargetsCount(m: Manifest, db: Db, plans: seq<Plan>)
    requires PlanAll(m, db, m.assignments) == Some(plans)
    ensures |TargetsOf(plans)| == |Matched(m.assignments, db.artifacts)|
  {
    hide PlanAll, TargetsOf, Matches, Targeted, AssignmentsOf, PlansRead, HasId;
    PlansAreRead(m, db, plans);
    var targets, ids := TargetsOf(plans), Matched(m.assignments, db.artifacts);
    TargetsDistinct(db.artifacts, plans);
    forall id: nat ensures id in ids <==> HasId(targets, id) {
      TargetedWhen(m, db.artifacts, plans, id);
      TargetWhen(plans, db.artifacts, id);
    }
    DistinctCount(targets, ids);
  }

  lemma {:induction false} TargetsDistinct(artifacts: seq<Artifact>, plans: seq<Plan>)
    ensures DistinctIds(TargetsOf(plans))
  {
    if |plans| > 0 {
      var n := |plans| - 1;
      TargetsDistinct(artifacts, plans[..n]);
      FindPlanned(TargetsOf(plans[..n]), plans[n].artifacts, plans[n].assignment, 0);
    }
  }

  // The report of an attempt -------------------------------------------------------------------

  /** The report of an attempt that wrote, begun on this database. */
  ghost function WritingReport(m: Manifest, db: Db): Report {
    var missing := |Missing(m.assignments, db.nodes)|;
    MissingFit(m.assignments, db.nodes);
    Report(missing, |m.assignments| - missing, |Matched(m.assignments, db.artifacts)|)
  }

  lemma {:induction false} MissingFit(assignments: seq<Assignment>, nodes: map<string, Node>)
    ensures |Missing(assignments, nodes)| <= |assignments|
  {
    if |assignments| > 0 {
      var n := |assignments| - 1;
      MissingFit(assignments[..n], nodes);
      assert Missing(assignments, nodes) ==
        Missing(assignments[..n], nodes) + if assignments[n].stableKey !in nodes then {n} else {};
    }
  }

  lemma PlansReport(m: Manifest, db: Db, plans: seq<Plan>)
    requires PlanAll(m, db, m.assignments) == Some(plans)
    ensures Report(Created(plans), |plans| - Created(plans), |TargetsOf(plans)|) == WritingReport(m, db)
  {
    CreatedCounts(m, db, m.assignments, plans);
    TargetsCount(m, db, plans);
    hide PlanAll, TargetsOf, Created;
  }

  /** The attempt under way at the end of these steps began with the n-th. */
  ghost predicate BeganWith(m: Manifest, s: State, steps: seq<Step>, n: nat) {
    && n < |steps| && steps[n] == Begin && Run(m, s, steps[..n]).phase.Idle?
    && forall j :: n < j <= |steps| ==> !Run(m, s, steps[..j]).phase.Idle?
  }

  function PlansIn(phase: Phase): seq<Plan> {
    match phase case Idle => [] case Planned(plans) => plans case Linking(plans, _, _) => plans
  }

  lemma PhaseStep(m: Manifest, t: State, step: Step)
    requires !Apply(m, t, step).phase.Idle?
    ensures var phase := Apply(m, t, step).phase;
      if t.phase.Idle? then step == Begin && PlanAll(m, t.db, m.assignments) == Some(PlansIn(phase))
      else PlansIn(phase) == PlansIn(t.phase)
  {
    hide PlanAll, StageAll, LinkBatch, PromoteAll, LinkBatches, TargetsOf, Created;
  }

  lemma BeganNow(m: Manifest, s: State, steps: seq<Step>)
    requires |steps| > 0 && steps[|steps| - 1] == Begin && Run(m, s, steps[..|steps| - 1]).phase.Idle?
    requires !Run(m, s, steps).phase.Idle?
    ensures BeganWith(m, s, steps, |steps| - 1)
  {
    hide Run;
    assert steps[..|steps|] == steps;
  }

  lemma BeganBefore(m: Manifest, s: State, steps: seq<Step>, n: nat)
    requires |steps| > 0 && BeganWith(m, s, steps[..|steps| - 1], n) && !Run(m, s, steps).phase.Idle?
    ensures n < |steps| - 1 && BeganWith(m, s, steps, n) && steps[..|steps| - 1][..n] == steps[..n]
  {
    hide Run;
    var last := |steps| - 1;
    assert steps[..last][..n] == steps[..n];
    forall j | n < j <= |steps| ensures !Run(m, s, steps[..j]).phase.Idle? {
      if j <= last { assert steps[..last][..j] == steps[..j]; } else { assert steps[..j] == steps; }
    }
  }

  lemma RunLast(m: Manifest, s: State, steps: seq<Step>)
    requires |steps| > 0
    ensures Run(m, s, steps) == Apply(m, Run(m, s, steps[..|steps| - 1]), steps[|steps| - 1])
  {
  }

  lemma RunNone(m: Manifest, s: State)
    ensures Run(m, s, []) == s
  {
  }

  /** The plans of an attempt under way are those made when it began. */
  lemma {:induction false} AttemptBegan(m: Manifest, s: State, steps: seq<Step>) returns (n: nat)
    requires s.phase.Idle? && !Run(m, s, steps).phase.Idle?
    ensures n < |steps| && BeganWith(m, s, steps, n)
    ensures PlanAll(m, Run(m, s, steps[..n]).db, m.assignments) == Some(PlansIn(Run(m, s, steps).phase))
    decreases |steps|
  {
    hide *;
    RunNone(m, s);
    var last := |steps| - 1;
    var t := Run(m, s, steps[..last]);
    RunLast(m, s, steps);
    PhaseStep(m, t, steps[last]);
    if t.phase.Idle? {
      n := last;
      BeganNow(m, s, steps);
    } else {
      n := AttemptBegan(m, s, steps[..last]);
      BeganBefore(m, s, steps, n);
    }
  }

  /** Over every run, a report comes from one of the two returns. One that finds everything in place
      writes nothing and reports no node. One that has written reports as created exactly the nodes
      that were missing when its attempt began and as updated the others. Both count the artifacts
      that some assignment targets. */
  lemma {:induction false} ReportIsExact(m: Manifest, s: State, steps: seq<Step>, step: Step)
    requires s.phase.Idle?
    ensures var t := Run(m, s, steps);
      var r := Apply(m, t, step);
      r != t && r.report.Some? ==>
        if t.phase.Idle? then
          step == Begin && r.db == t.db && r.report.value == Report(0, 0, |Matched(m.assignments, t.db.artifacts)|)
        else
          step == Promote && exists n: nat ::
            BeganWith(m, s, steps, n) && r.report.value == WritingReport(m, Run(m, s, steps[..n]).db)
  {
    var t := Run(m, s, steps);
    var r := Apply(m, t, step);
    hide PlanAll, StageAll, LinkBatch, PromoteAll, LinkBatches, TargetsOf, Created, BeganWith, WritingReport;
    NoReportYet(m, s, steps);
    if r != t && r.report.Some? {
      if t.phase.Idle? {
        TargetsCount(m, t.db, PlanAll(m, t.db, m.assignments).value);
      } else {
        var n := AttemptBegan(m, s, steps);
        PlansReport(m, Run(m, s, steps[..n]).db, PlansIn(t.phase));
      }
    }
  }

  /** An attempt under way has not reported. */
  lemma {:induction false} NoReportYet(m: Manifest, s: State, steps: seq<Step>)
    requires s.phase.Idle?
    ensures Run(m, s, steps).phase.Idle? || Run(m, s, steps).report.None?
    decreases |steps|
  {
    if |steps| > 0 { NoReportYet(m, s, steps[..|steps| - 1]); }
    hide PlanAll, StageAll, LinkBatch, PromoteAll, LinkBatches, TargetsOf, Created;
  }

  /** From any state between attempts, an uninterrupted attempt reports the nodes it found missing as
      created and the others as updated, or no node if it had nothing to write. */
  lemma {:induction false} AttemptReports(m: Manifest, base: Db, s: State, order: seq<nat>)
    requires Loaded(m) && Ready(m, base) && Inv(m, base, s) && s.phase.Idle? && Covers(order, BatchCount(m, base))
    ensures Run(m, s, Attempt(order)).report ==
      Some(if Apply(m, s, Begin).phase.Idle? then Report(0, 0, |Matched(m.assignments, s.db.artifacts)|)
           else WritingReport(m, s.db))
  {
    hide *;
    RunAttempt(m, s, order);
    ReadyPlans(m, base, s);
    var plans := PlanAll(m, s.db, m.assignments).value;
    TargetsCount(m, s.db, plans);
    PlansReport(m, s.db, plans);
    var begun := Apply(m, s, Begin);
    BeginCases(m, s, plans);
    if AllComplete(plans) {
      IdleAttempt(m, begun, order);
    } else {
      BeginKeepsAll(m, base, s);
      RunFromPlanned(m, base, begun, order);
    }
  }

  lemma ReadyPlans(m: Manifest, base: Db, s: State)
    requires Ready(m, base) && Inv(m, base, s) && s.phase.Idle?
    ensures PlanAll(m, s.db, m.assignments).Some?
  {
    hide *;
    PlanningSucceeds(m, base, s);
  }

  lemma BeginKeepsAll(m: Manifest, base: Db, s: State)
    requires Loaded(m) && Ready(m, base) && Inv(m, base, s) && s.phase.Idle?
    ensures Inv(m, base, Apply(m, s, Begin))
  {
    BeginKeeps(m, base, s);
  }

  lemma BeginCases(m: Manifest, s: State, plans: seq<Plan>)
    requires PlanAll(m, s.db, m.assignments) == Some(plans) && s.phase.Idle?
    ensures Apply(m, s, Begin) ==
      if AllComplete(plans) then State(s.db, Idle, s.interrupted, Some(Report(0, 0, |TargetsOf(plans)|)))
      else State(s.db, Planned(plans), s.interrupted, None)
  {
    hide PlanAll, AllComplete, TargetsOf;
  }

  lemma IdleAttempt(m: Manifest, s: State, order: seq<nat>)
    requires s.phase.Idle?
    ensures Apply(m, Run(m, Apply(m, s, Stage), LinkSteps(order)), Promote) == s
  {
    RunIdle(m, s, order);
    hide Run;
  }

  /** So does the first attempt on any database the manifest fits. */
  lemma {:induction false} FirstAttemptReports(m: Manifest, base: Db, order: seq<nat>)
    requires Loaded(m) && Ready(m, base) && Covers(order, BatchCount(m, base))
    ensures var report := Run(m, Init(base), Attempt(order)).report;
      var missing := |Missing(m.assignments, base.nodes)|;
      && report.Some? && report.value.linked == |Matched(m.assignments, base.artifacts)|
      && (missing > 0 ==> report.value.created == missing && report.value.updated == |m.assignments| - missing)
  {
    assert Inv(m, base, Init(base)) by { InitInv(m, base); }
    hide Inv;
    AttemptReports(m, base, Init(base), order);
    if |Missing(m.assignments, base.nodes)| > 0 {
      var i :| i in Missing(m.assignments, base.nodes);
      MissingIsWritten(m, base, i);
    }
  }

  lemma MissingIsWritten(m: Manifest, base: Db, i: nat)
    requires Plannable(m, base) && i in Missing(m.assignments, base.nodes)
    ensures !Apply(m, Init(base), Begin).phase.Idle?
  {
    assert PlanOne(m, base, m.assignments[i]).Some?;
    assert !PlanOne(m, base, m.assignments[i]).value.complete;
    var plans := PlanAll(m, base, m.assignments);
    hide PlanOne;
    assert plans.Some? ==> plans.value[i] == PlanOne(m, base, m.assignments[i]).value;
  }
}
