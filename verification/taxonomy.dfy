/** Ingress of a reviewed taxonomy manifest: every node is staged as a candidate, artifacts are
    linked in concurrent batches, then all nodes are promoted and audited in one transaction. Rows
    are named by their stable keys, artifacts by their place in id order. */
module Taxonomy {
  import opened Contracts
  import opened Batches
  import Versions

  // The database -------------------------------------------------------------------------------

  datatype NodeType = Output | Model | UseCase | Style | Technique | Creator | Subject

  datatype Promotion = Candidate | Reviewed | Qualified | Retired

  datatype Node = Node(
    nodeType: NodeType, name: string, description: Option<string>, promotion: Promotion,
    evidence: set<string>, inventory: nat, sourceVersion: string, active: bool)

  datatype Artifact = Artifact(
    isPrompt: bool, sourceVersion: string, source: Option<string>,
    modelRefs: set<string>, taxonomyRefs: set<string>, revision: int, hasUpdatedAt: bool)
  {
    function Refs(nodeType: NodeType): set<string> {
      if nodeType == Model then modelRefs else taxonomyRefs
    }
  }

  datatype AuditEvent = AuditEvent(stableKey: string, promotion: Promotion, expected: nat)

  /** The events are those of this manifest's review, by the node they are about. */
  datatype Db = Db(nodes: map<string, Node>, artifacts: seq<Artifact>, events: map<string, AuditEvent>)

  // The manifest -------------------------------------------------------------------------------

  datatype Assignment = Assignment(
    nodeType: NodeType, stableKey: string, name: string, description: Option<string>,
    promotion: Promotion, targets: set<string>, expected: nat)

  datatype Manifest = Manifest(sourceHash: string, assignments: seq<Assignment>)

  /** What loading a manifest checks. */
  ghost predicate Loaded(m: Manifest) {
    && |m.assignments| > 0
    && (forall i :: 0 <= i < |m.assignments| ==>
          m.assignments[i].promotion == Reviewed || m.assignments[i].promotion == Qualified)
    && (forall i, j :: 0 <= i < j < |m.assignments| ==> m.assignments[i].stableKey != m.assignments[j].stableKey)
  }

  const BATCH_SIZE: nat := 50

  // Planning -----------------------------------------------------------------------------------

  predicate Matches(a: Assignment, x: Artifact) {
    x.isPrompt && x.sourceVersion in a.targets
  }

  /** The artifacts an assignment targets, in id order. */
  function MatchIds(a: Assignment, artifacts: seq<Artifact>): (ids: seq<nat>)
    ensures forall k :: 0 <= k < |ids| ==> ids[k] < |artifacts| && Matches(a, artifacts[ids[k]])
    ensures forall i :: 0 <= i < |artifacts| && Matches(a, artifacts[i]) ==> i in ids
  {
    if |artifacts| == 0 then []
    else
      var n := |artifacts| - 1;
      MatchIds(a, artifacts[..n]) + if Matches(a, artifacts[n]) then [n] else []
  }

  predicate Sourced(artifacts: seq<Artifact>, ids: seq<nat>)
    requires forall k :: 0 <= k < |ids| ==> ids[k] < |artifacts|
  {
    forall k :: 0 <= k < |ids| ==> artifacts[ids[k]].source.Some?
  }

  function Sources(artifacts: seq<Artifact>, ids: seq<nat>): set<string>
    requires (forall k :: 0 <= k < |ids| ==> ids[k] < |artifacts|) && Sourced(artifacts, ids)
  {
    set k | 0 <= k < |ids| :: artifacts[ids[k]].source.value
  }

  predicate LinkedAll(a: Assignment, artifacts: seq<Artifact>, ids: seq<nat>)
    requires forall k :: 0 <= k < |ids| ==> ids[k] < |artifacts|
  {
    forall k :: 0 <= k < |ids| ==> a.stableKey in artifacts[ids[k]].Refs(a.nodeType)
  }

  datatype Plan = Plan(
    assignment: Assignment, artifacts: seq<nat>, node: Option<Node>, eventExists: bool,
    finalPromotion: Promotion, evidence: set<string>, complete: bool)

  function LookupNode(nodes: map<string, Node>, key: string): Option<Node> {
    if key in nodes then Some(nodes[key]) else None
  }

  /** None: the artifacts are not as many as expected, one has no source, or the node conflicts. */
  function PlanOne(m: Manifest, db: Db, a: Assignment): Option<Plan> {
    var ids := MatchIds(a, db.artifacts);
    var node := LookupNode(db.nodes, a.stableKey);
    if |ids| != a.expected || !Sourced(db.artifacts, ids) then None
    else if node.Some? && (node.value.nodeType != a.nodeType || node.value.name != a.name) then None
    else
      var evidence := Sources(db.artifacts, ids);
      var final := if node.Some? && node.value.promotion == Qualified then Qualified else a.promotion;
      var eventExists := a.stableKey in db.events;
      var complete :=
        && node.Some? && node.value.sourceVersion == m.sourceHash && node.value.active
        && node.value.description == a.description
        && node.value.promotion == final && node.value.inventory == a.expected
        && evidence <= node.value.evidence
        && LinkedAll(a, db.artifacts, ids)
        && eventExists;
      Some(Plan(a, ids, node, eventExists, final, evidence, complete))
  }

  function PlanAll(m: Manifest, db: Db, assignments: seq<Assignment>): (plans: Option<seq<Plan>>)
    ensures plans.Some? ==> |plans.value| == |assignments|
    ensures plans.Some? ==>
      forall i :: 0 <= i < |assignments| ==> PlanOne(m, db, assignments[i]) == Some(plans.value[i])
    ensures plans.None? ==> exists i :: 0 <= i < |assignments| && PlanOne(m, db, assignments[i]).None?
  {
    if |assignments| == 0 then Some([])
    else
      var n := |assignments| - 1;
      match PlanAll(m, db, assignments[..n])
      case None => None
      case Some(plans) =>
        match PlanOne(m, db, assignments[n]) case None => None case Some(plan) => Some(plans + [plan])
  }

  predicate AllComplete(plans: seq<Plan>) {
    forall i :: 0 <= i < |plans| ==> plans[i].complete
  }

  // Staging ------------------------------------------------------------------------------------

  /** Creates the node as a candidate, or makes the node found by the plan one. An undefined
      description leaves the stored one. */
  function StageOne(m: Manifest, db: Db, plan: Plan): Option<Db> {
    var a := plan.assignment;
    match plan.node
    case None =>
      if a.stableKey in db.nodes then None
      else
        var node := Node.Node(a.nodeType, a.name, a.description, Candidate, plan.evidence, a.expected, m.sourceHash,
          true);
        Some(db.(nodes := db.nodes[a.stableKey := node]))
    case Some(found) =>
      if a.stableKey !in db.nodes then None
      else
        var node := db.nodes[a.stableKey];
        var staged := node.(
          sourceVersion := m.sourceHash, active := true,
          description := if a.description.Some? then a.description else node.description,
          promotion := Candidate, evidence := found.evidence + plan.evidence, inventory := a.expected);
        Some(db.(nodes := db.nodes[a.stableKey := staged]))
  }

  function StageAll(m: Manifest, db: Db, plans: seq<Plan>): Option<Db> {
    if |plans| == 0 then Some(db)
    else
      var n := |plans| - 1;
      match StageAll(m, db, plans[..n]) case None => None case Some(staged) => StageOne(m, staged, plans[n])
  }

  // Linking ------------------------------------------------------------------------------------

  /** The nodes to link to one artifact. */
  datatype Target = Target(id: nat, modelNodes: set<string>, taxonomyNodes: set<string>)

  function Extend(t: Target, a: Assignment): Target {
    if a.nodeType == Model then t.(modelNodes := t.modelNodes + {a.stableKey})
    else t.(taxonomyNodes := t.taxonomyNodes + {a.stableKey})
  }

  /** Adds an assignment to the artifact's target, which goes last when it is new. */
  function AddTarget(targets: seq<Target>, id: nat, a: Assignment): seq<Target> {
    if |targets| == 0 then [Extend(Target(id, {}, {}), a)]
    else if targets[0].id == id then [Extend(targets[0], a)] + targets[1..]
    else [targets[0]] + AddTarget(targets[1..], id, a)
  }

  function AddPlan(targets: seq<Target>, ids: seq<nat>, a: Assignment): seq<Target> {
    if |ids| == 0 then targets
    else AddTarget(AddPlan(targets, ids[..|ids| - 1], a), ids[|ids| - 1], a)
  }

  function TargetsOf(plans: seq<Plan>): seq<Target> {
    if |plans| == 0 then []
    else
      var last := plans[|plans| - 1];
      AddPlan(TargetsOf(plans[..|plans| - 1]), last.artifacts, last.assignment)
  }

  function LinkBatches(plans: seq<Plan>): seq<seq<Target>> {
    BatchesOf(TargetsOf(plans), BATCH_SIZE)
  }

  /** Unions the target's nodes into the artifact's references; only growth bumps the revision. */
  function LinkOne(db: Db, t: Target): Option<Db> {
    if t.id >= |db.artifacts| then None
    else
      var x := db.artifacts[t.id];
      var models, others := x.modelRefs + t.modelNodes, x.taxonomyRefs + t.taxonomyNodes;
      if |x.modelRefs| + |x.taxonomyRefs| == |models| + |others| then Some(db)
      else if x.revision < 1 || x.revision > Versions.MAX_SAFE_INTEGER || !x.hasUpdatedAt then None
      else Some(db.(artifacts :=
        db.artifacts[t.id := x.(modelRefs := models, taxonomyRefs := others, revision := x.revision + 1)]))
  }

  function LinkBatch(db: Db, batch: seq<Target>): Option<Db> {
    if |batch| == 0 then Some(db)
    else
      var n := |batch| - 1;
      match LinkBatch(db, batch[..n]) case None => None case Some(linked) => LinkOne(linked, batch[n])
  }

  // Promoting ----------------------------------------------------------------------------------

  /** Checks the links again, promotes the node and records the review once. */
  function PromoteOne(m: Manifest, db: Db, plan: Plan): Option<Db> {
    var a := plan.assignment;
    var ids := MatchIds(a, db.artifacts);
    if |ids| != a.expected || !LinkedAll(a, db.artifacts, ids) || a.stableKey !in db.nodes ||
      !Sourced(db.artifacts, ids) then None
    else if !plan.eventExists && a.stableKey in db.events then None
    else
      var node := db.nodes[a.stableKey];
      var promoted := node.(
        sourceVersion := m.sourceHash, active := true,
        description := if a.description.Some? then a.description else node.description,
        promotion :=
          plan.finalPromotion, evidence := node.evidence + Sources(db.artifacts, ids), inventory := a.expected);
      var events :=
        if plan.eventExists then db.events
        else db.events[a.stableKey := AuditEvent(a.stableKey, plan.finalPromotion, a.expected)];
      Some(Db(db.nodes[a.stableKey := promoted], db.artifacts, events))
  }

  function PromoteAll(m: Manifest, db: Db, plans: seq<Plan>): Option<Db> {
    if |plans| == 0 then Some(db)
    else
      var n := |plans| - 1;
      match PromoteAll(m, db, plans[..n]) case None => None case Some(promoted) => PromoteOne(m, promoted, plans[n])
  }

  // Attempts -----------------------------------------------------------------------------------

  datatype Report = Report(created: nat, updated: nat, linked: nat)

  function Created(plans: seq<Plan>): (n: nat)
    ensures n <= |plans|
  {
    if |plans| == 0 then 0 else Created(plans[..|plans| - 1]) + if plans[|plans| - 1].node.None? then 1 else 0
  }

  datatype Phase =
    | Idle
    | Planned(plans: seq<Plan>)
    | Linking(plans: seq<Plan>, done: set<nat>, failed: bool)

  /** `interrupted` records that some attempt stopped between staging and promotion; `report` is
      what the last attempt returned, if it returned. */
  datatype State = State(db: Db, phase: Phase, interrupted: bool, report: Option<Report>)

  /** Link(b) is a lane's transaction on batch b; a crash can come between any two steps. */
  datatype Step = Begin | Stage | Link(batch: nat) | Promote | Crash

  function Stop(s: State): State {
    State(s.db, Idle, s.interrupted || s.phase.Linking?, None)
  }

  function BeginStep(m: Manifest, s: State): State {
    match PlanAll(m, s.db, m.assignments)
    case None => Stop(s)
    case Some(plans) =>
      if AllComplete(plans) then State(s.db, Idle, s.interrupted, Some(Report(0, 0, |TargetsOf(plans)|)))
      else State(s.db, Planned(plans), s.interrupted, None)
  }

  function StageStep(m: Manifest, s: State): State
    requires s.phase.Planned?
  {
    match StageAll(m, s.db, s.phase.plans)
    case None => Stop(s)
    case Some(db) => State(db, Linking(s.phase.plans, {}, false), s.interrupted, None)
  }

  /** After a failed batch the other lanes may still commit theirs. */
  function LinkStep(s: State, b: nat): State
    requires s.phase.Linking?
  {
    var batches := LinkBatches(s.phase.plans);
    if b >= |batches| || b in s.phase.done then s
    else
      match LinkBatch(s.db, batches[b])
      case None => s.(phase := s.phase.(failed := true))
      case Some(db) => s.(db := db, phase := s.phase.(done := s.phase.done + {b}))
  }

  function PromoteStep(m: Manifest, s: State): State
    requires s.phase.Linking?
  {
    var plans := s.phase.plans;
    if s.phase.failed then Stop(s)
    else if exists b :: 0 <= b < |LinkBatches(plans)| && b !in s.phase.done then s
    else
      match PromoteAll(m, s.db, plans)
      case None => Stop(s)
      case Some(db) =>
        var created := Created(plans);
        State(db, Idle, s.interrupted, Some(Report(created, |plans| - created, |TargetsOf(plans)|)))
  }

  /** A step that the phase does not allow changes nothing. */
  function Apply(m: Manifest, s: State, step: Step): State {
    match step
    case Begin => if s.phase.Idle? then BeginStep(m, s) else s
    case Stage => if s.phase.Planned? then StageStep(m, s) else s
    case Link(b) => if s.phase.Linking? then LinkStep(s, b) else s
    case Promote => if s.phase.Linking? then PromoteStep(m, s) else s
    case Crash => Stop(s)
  }

  function Run(m: Manifest, s: State, steps: seq<Step>): State {
    if |steps| == 0 then s else Apply(m, Run(m, s, steps[..|steps| - 1]), steps[|steps| - 1])
  }

  function Init(db: Db): State {
    State(db, Idle, false, None)
  }
}
