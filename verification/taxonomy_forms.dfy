/** The few forms the nodes and events can take between transactions, and how staging and promotion
    move from one form to another. */
module TaxonomyForms {
  import opened Contracts
  import opened Taxonomy
  import opened TaxonomyLinks

  /** The manifest fits the database: every assignment can be planned. */
  ghost predicate Plannable(m: Manifest, db: Db) {
    forall i :: 0 <= i < |m.assignments| ==> PlanOne(m, db, m.assignments[i]).Some?
  }

  /** The artifacts an assignment names. */
  function Named(a: Assignment, artifacts: seq<Artifact>): set<nat> {
    set i | 0 <= i < |artifacts| && Matches(a, artifacts[i])
  }

  lemma {:induction false} NamedCount(a: Assignment, artifacts: seq<Artifact>)
    ensures |MatchIds(a, artifacts)| == |Named(a, artifacts)|
  {
    if |artifacts| > 0 {
      hide Matches;
      var n := |artifacts| - 1;
      NamedCount(a, artifacts[..n]);
      assert Named(a, artifacts) == Named(a, artifacts[..n]) + if Matches(a, artifacts[n]) then {n} else {};
    }
  }

  /** A manifest fits exactly when each assignment names as many artifacts as it expects, all of them
      with a source, and a node of its key is of its type and name. */
  lemma {:induction false} PlannableWhen(m: Manifest, db: Db)
    ensures Plannable(m, db) <==> forall i :: 0 <= i < |m.assignments| ==>
      var a := m.assignments[i];
      && |Named(a, db.artifacts)| == a.expected
      && (forall id :: id in Named(a, db.artifacts) ==> db.artifacts[id].source.Some?)
      && (a.stableKey in db.nodes ==>
        db.nodes[a.stableKey].nodeType == a.nodeType && db.nodes[a.stableKey].name == a.name)
  {
    forall i | 0 <= i < |m.assignments|
      ensures var a := m.assignments[i];
        PlanOne(m, db, a).Some? <==>
          && |Named(a, db.artifacts)| == a.expected
          && (forall id :: id in Named(a, db.artifacts) ==> db.artifacts[id].source.Some?)
          && (a.stableKey in db.nodes ==>
            db.nodes[a.stableKey].nodeType == a.nodeType && db.nodes[a.stableKey].name == a.name)
    {
      PlannedWhen(m, db, m.assignments[i]);
    }
  }

  lemma PlannedWhen(m: Manifest, db: Db, a: Assignment)
    ensures PlanOne(m, db, a).Some? <==>
      && |Named(a, db.artifacts)| == a.expected
      && (forall id :: id in Named(a, db.artifacts) ==> db.artifacts[id].source.Some?)
      && (a.stableKey in db.nodes ==>
        db.nodes[a.stableKey].nodeType == a.nodeType && db.nodes[a.stableKey].name == a.name)
  {
    hide Matches, LinkedAll, Sources;
    var ids := MatchIds(a, db.artifacts);
    NamedCount(a, db.artifacts);
    forall id | id in Named(a, db.artifacts) ensures id in ids { }
    forall k | 0 <= k < |ids| ensures ids[k] in Named(a, db.artifacts) { }
    assert Sourced(db.artifacts, ids) <==> forall id :: id in Named(a, db.artifacts) ==> db.artifacts[id].source.Some?;
  }

  /** The nodes before any staging, all staged, or all promoted; `kept` when nodes that were
      qualified before the first staging are promoted to that again. */
  datatype Form = Before | AsCandidates | AsPromoted(kept: bool)

  function StagedNode(m: Manifest, base: Db, a: Assignment): Node {
    var node := LookupNode(base.nodes,
      a.stableKey).GetOr(Node.Node(a.nodeType, a.name, None, Candidate, {}, 0, "", true));
    node.(
      sourceVersion := m.sourceHash, active := true,
      description := if a.description.Some? then a.description else node.description,
      promotion := Candidate, evidence := node.evidence + SourcesIn(a, base.artifacts), inventory := a.expected)
  }

  function WasQualified(base: Db, a: Assignment): bool {
    a.stableKey in base.nodes && base.nodes[a.stableKey].promotion == Qualified
  }

  function FinalPromotion(base: Db, a: Assignment, kept: bool): Promotion {
    if kept && WasQualified(base, a) then Qualified else a.promotion
  }

  function FormNode(m: Manifest, base: Db, a: Assignment, form: Form): Option<Node> {
    match form
    case Before => LookupNode(base.nodes, a.stableKey)
    case AsCandidates => Some(StagedNode(m, base, a))
    case AsPromoted(kept) => Some(StagedNode(m, base, a).(promotion := FinalPromotion(base, a, kept)))
  }

  function Keys(m: Manifest): set<string> {
    set i | 0 <= i < |m.assignments| :: m.assignments[i].stableKey
  }

  /** The first n assignments' nodes have the form `first`, the others the form `second`; nodes
      outside the manifest are untouched. */
  ghost predicate NodesMixed(m: Manifest, base: Db, nodes: map<string, Node>, n: nat, first: Form, second: Form) {
    && (forall k :: k !in Keys(m) ==> LookupNode(nodes, k) == LookupNode(base.nodes, k))
    && (forall i :: 0 <= i < |m.assignments| ==>
          LookupNode(nodes, m.assignments[i].stableKey) ==
            FormNode(m, base, m.assignments[i], if i < n then first else second))
  }

  ghost predicate NodesAre(m: Manifest, base: Db, nodes: map<string, Node>, form: Form) {
    NodesMixed(m, base, nodes, 0, form, form)
  }

  lemma AnySplit(m: Manifest, base: Db, nodes: map<string, Node>, n: nat, form: Form)
    ensures NodesAre(m, base, nodes, form) <==> NodesMixed(m, base, nodes, n, form, form)
  {
    hide FormNode, LookupNode;
  }

  /** All of the first form, or none yet. */
  lemma WholeSplit(m: Manifest, base: Db, nodes: map<string, Node>, first: Form, second: Form)
    ensures NodesMixed(m, base, nodes, |m.assignments|, first, second) <==> NodesAre(m, base, nodes, first)
    ensures NodesMixed(m, base, nodes, 0, first, second) <==> NodesAre(m, base, nodes, second)
  {
    hide FormNode, LookupNode;
  }

  lemma KeyIn(m: Manifest, i: nat)
    requires i < |m.assignments|
    ensures m.assignments[i].stableKey in Keys(m)
  {
  }

  /** Giving assignment n its first form. */
  lemma NodesStep(m: Manifest, base: Db, nodes: map<string, Node>, n: nat, first: Form, second: Form, node: Node)
    requires Loaded(m) && n < |m.assignments| && NodesMixed(m, base, nodes, n, first, second)
    requires FormNode(m, base, m.assignments[n], first) == Some(node)
    ensures NodesMixed(m, base, nodes[m.assignments[n].stableKey := node], n + 1, first, second)
  {
    hide FormNode;
    KeyIn(m, n);
    var now := nodes[m.assignments[n].stableKey := node];
    forall i | 0 <= i < |m.assignments|
      ensures LookupNode(now, m.assignments[i].stableKey) ==
        FormNode(m, base, m.assignments[i], if i < n + 1 then first else second)
    {
      if i < n { assert m.assignments[i].stableKey != m.assignments[n].stableKey; }
      if i > n { assert m.assignments[i].stableKey != m.assignments[n].stableKey; }
    }
    hide Keys;
  }

  /** A form determines the nodes. */
  lemma NodesDetermined(m: Manifest, base: Db, a: map<string, Node>, b: map<string, Node>, form: Form)
    requires NodesAre(m, base, a, form) && NodesAre(m, base, b, form)
    ensures a == b
  {
    hide FormNode;
    forall k ensures LookupNode(a, k) == LookupNode(b, k) {
      if k in Keys(m) {
        var i :| 0 <= i < |m.assignments| && m.assignments[i].stableKey == k;
      }
    }
    SameLookups(a, b);
  }

  lemma SameLookups(a: map<string, Node>, b: map<string, Node>)
    requires forall k :: LookupNode(a, k) == LookupNode(b, k)
    ensures a == b
  {
    forall k ensures (k in a <==> k in b) && (k in a ==> a[k] == b[k]) { assert LookupNode(a, k) == LookupNode(b, k); }
  }

  lemma BeforeIsBase(m: Manifest, base: Db)
    ensures NodesAre(m, base, base.nodes, Before)
  {
  }

  // Events -------------------------------------------------------------------------------------

  function EventOf(base: Db, a: Assignment, kept: bool): AuditEvent {
    AuditEvent(a.stableKey, FinalPromotion(base, a, kept), a.expected)
  }

  /** The events at the start of a promotion, and one for each of the first n assignments that had
      none. */
  ghost predicate EventsUpTo(m: Manifest, base: Db, start: map<string, AuditEvent>, events: map<string, AuditEvent>,
      n: nat, kept: bool) {
    && n <= |m.assignments|
    && (forall k :: k in start ==> k in events && events[k] == start[k])
    && (forall k :: k in events && k !in start ==> k in Keys(m))
    && (forall i :: 0 <= i < |m.assignments| && m.assignments[i].stableKey !in start ==>
          (m.assignments[i].stableKey in events <==> i < n))
    && (forall i :: 0 <= i < n && m.assignments[i].stableKey !in start ==>
          events[m.assignments[i].stableKey] == EventOf(base, m.assignments[i], kept))
  }

  /** Every assignment has its review event. */
  ghost predicate Recorded(m: Manifest, base: Db, events: map<string, AuditEvent>, kept: bool) {
    EventsUpTo(m, base, base.events, events, |m.assignments|, kept)
  }

  lemma EventsStep(m: Manifest, base: Db, start: map<string, AuditEvent>, events: map<string, AuditEvent>, n: nat,
      kept: bool)
    requires Loaded(m) && n < |m.assignments| && EventsUpTo(m, base, start, events, n, kept)
    ensures var a := m.assignments[n];
      EventsUpTo(m, base, start, if a.stableKey in start then events
        else events[a.stableKey := EventOf(base, a, kept)], n + 1, kept)
  {
    hide EventOf;
    KeyIn(m, n);
    var a := m.assignments[n];
    var now := if a.stableKey in start then events else events[a.stableKey := EventOf(base, a, kept)];
    forall i | 0 <= i < |m.assignments| && i != n ensures m.assignments[i].stableKey != a.stableKey {
      if i < n {
        assert m.assignments[i].stableKey != m.assignments[n].stableKey;
      } else {
        assert m.assignments[n].stableKey != m.assignments[i].stableKey;
      }
    }
    hide Keys, Loaded;
  }

  lemma EventsDetermined(m: Manifest, base: Db, a: map<string, AuditEvent>, b: map<string, AuditEvent>, kept: bool)
    requires Recorded(m, base, a, kept) && Recorded(m, base, b, kept)
    ensures a == b
  {
    hide EventOf;
    forall k ensures (k in a <==> k in b) && (k in a ==> a[k] == b[k]) {
      if k in Keys(m) {
        var i :| 0 <= i < |m.assignments| && m.assignments[i].stableKey == k;
      }
    }
  }

  /** Recorded events have nothing to add. */
  lemma NothingToRecord(m: Manifest, base: Db, start: map<string, AuditEvent>, events: map<string, AuditEvent>,
      kept: bool)
    requires forall i :: 0 <= i < |m.assignments| ==> m.assignments[i].stableKey in start
    ensures EventsUpTo(m, base, start, events, |m.assignments|, kept) <==> events == start
  {
    if EventsUpTo(m, base, start, events, |m.assignments|, kept) {
      forall k ensures k in events <==> k in start {
        if k in Keys(m) { var i :| 0 <= i < |m.assignments| && m.assignments[i].stableKey == k; }
      }
    }
  }

  lemma RecordedAll(m: Manifest, base: Db, events: map<string, AuditEvent>, kept: bool)
    requires Recorded(m, base, events, kept)
    ensures forall i :: 0 <= i < |m.assignments| ==> m.assignments[i].stableKey in events
  {
  }

  // Plans --------------------------------------------------------------------------------------

  /** What a plan made after any number of interrupted attempts still says. */
  ghost predicate PlanIs(base: Db, plan: Plan, a: Assignment, kept: bool, events: map<string, AuditEvent>) {
    && plan.assignment == a
    && plan.artifacts == MatchIds(a, base.artifacts) && Sourced(base.artifacts, plan.artifacts)
    && |plan.artifacts| == a.expected
    && plan.evidence == SourcesIn(a, base.artifacts)
    && plan.eventExists == (a.stableKey in events)
    && plan.finalPromotion == FinalPromotion(base, a, kept)
  }

  ghost predicate PlansAre(m: Manifest, base: Db, plans: seq<Plan>, kept: bool, events: map<string, AuditEvent>) {
    |plans| == |m.assignments| && forall i :: 0 <= i < |plans| ==>
      PlanIs(base, plans[i], m.assignments[i], kept, events)
  }

  /** Which qualification a form carries on. */
  predicate Carries(form: Form, kept: bool) {
    match form case Before => kept case AsCandidates => !kept case AsPromoted(k) => k == kept
  }

  lemma PlanFound(m: Manifest, base: Db, db: Db, a: Assignment, form: Form, kept: bool)
    requires PlanOne(m, base, a).Some? && AlikeMatter(base.artifacts, db.artifacts) && Carries(form, kept)
    requires LookupNode(db.nodes, a.stableKey) == FormNode(m, base, a, form)
    ensures PlanOne(m, db, a).Some?
    ensures var plan := PlanOne(m, db, a).value;
      PlanIs(base, plan, a, kept, db.events) && plan.node == FormNode(m, base, a, form)
  {
    SourcesSame(a, base.artifacts, db.artifacts);
    hide MatchIds, SourcesIn, Sources, LinkedAll, AlikeMatter;
    PlanSources(m, base, a);
    PlanSourcesOf(m, db, a);
    hide StagedNode;
    StagedNodeSame(m, base, a);
  }

  lemma PlanSources(m: Manifest, db: Db, a: Assignment)
    requires PlanOne(m, db, a).Some?
    ensures Sourced(db.artifacts, MatchIds(a, db.artifacts)) && |MatchIds(a, db.artifacts)| == a.expected
  {
  }

  lemma PlanSourcesOf(m: Manifest, db: Db, a: Assignment)
    requires Sourced(db.artifacts, MatchIds(a, db.artifacts))
    ensures SourcesIn(a, db.artifacts) == Sources(db.artifacts, MatchIds(a, db.artifacts))
  {
  }

  lemma StagedNodeSame(m: Manifest, base: Db, a: Assignment)
    requires PlanOne(m, base, a).Some?
    ensures StagedNode(m, base, a).nodeType == a.nodeType && StagedNode(m, base, a).name == a.name
    ensures StagedNode(m, base, a).promotion == Candidate
  {
  }

  /** Planning again always succeeds, and reads the same artifacts and sources. */
  lemma {:induction false} PlansFound(m: Manifest, base: Db, db: Db, form: Form, kept: bool)
    requires Plannable(m, base) && AlikeMatter(base.artifacts, db.artifacts) && Carries(form, kept)
    requires NodesAre(m, base, db.nodes, form)
    ensures PlanAll(m, db, m.assignments).Some?
    ensures var plans := PlanAll(m, db, m.assignments).value;
      && PlansAre(m, base, plans, kept, db.events)
      && forall i :: 0 <= i < |plans| ==> plans[i].node == FormNode(m, base, m.assignments[i], form)
  {
    hide PlanIs, FormNode, LookupNode, PlanOne, AlikeMatter, Carries;
    forall i | 0 <= i < |m.assignments|
      ensures PlanOne(m, db, m.assignments[i]).Some?
      ensures PlanIs(base, PlanOne(m, db, m.assignments[i]).value, m.assignments[i], kept, db.events)
      ensures PlanOne(m, db, m.assignments[i]).value.node == FormNode(m, base, m.assignments[i], form)
    {
      PlanFound(m, base, db, m.assignments[i], form, kept);
    }
  }

  // Staging ------------------------------------------------------------------------------------

  lemma StageOneEffect(m: Manifest, base: Db, db: Db, plan: Plan, a: Assignment, form: Form)
    requires plan.assignment == a && plan.evidence == SourcesIn(a, base.artifacts)
    requires plan.node == FormNode(m, base, a, form) == LookupNode(db.nodes, a.stableKey)
    ensures StageOne(m, db, plan) == Some(db.(nodes := db.nodes[a.stableKey := StagedNode(m, base, a)]))
  {
    hide SourcesIn;
    var node := StagedNode(m, base, a);
    assert {} + plan.evidence == plan.evidence;
    assert node.evidence + plan.evidence == node.evidence;
  }

  lemma {:induction false} StageAllEffect(m: Manifest, base: Db, db: Db, plans: seq<Plan>, form: Form, n: nat)
    requires Loaded(m) && NodesAre(m, base, db.nodes, form) && n <= |plans| == |m.assignments|
    requires forall i :: 0 <= i < |plans| ==>
      plans[i].assignment == m.assignments[i] && plans[i].evidence == SourcesIn(m.assignments[i], base.artifacts)
      && plans[i].node == FormNode(m, base, m.assignments[i], form)
    ensures StageAll(m, db, plans[..n]).Some?
    ensures var staged := StageAll(m, db, plans[..n]).value;
      staged == db.(nodes := staged.nodes) && NodesMixed(m, base, staged.nodes, n, AsCandidates, form)
    decreases n
  {
    hide FormNode, StagedNode, LookupNode, StageOne, SourcesIn;
    if n == 0 {
      WholeSplit(m, base, db.nodes, AsCandidates, form);
    } else {
      StageAllEffect(m, base, db, plans, form, n - 1);
      assert plans[..n][..n - 1] == plans[..n - 1];
      var staged := StageAll(m, db, plans[..n - 1]).value;
      var a := m.assignments[n - 1];
      StageOneEffect(m, base, staged, plans[n - 1], a, form);
      assert FormNode(m, base, a, AsCandidates) == Some(StagedNode(m, base, a)) by { CandidateForm(m, base, a); }
      NodesStep(m, base, staged.nodes, n - 1, AsCandidates, form, StagedNode(m, base, a));
    }
  }

  lemma CandidateForm(m: Manifest, base: Db, a: Assignment)
    ensures FormNode(m, base, a, AsCandidates) == Some(StagedNode(m, base, a))
  {
  }

  // Promotion ----------------------------------------------------------------------------------

  /** Promotion of one staged node: refused when a link is missing, otherwise final and recorded. */
  lemma PromoteOneEffect(m: Manifest, base: Db, db: Db, plan: Plan, a: Assignment, kept: bool, start: map<string,
      AuditEvent>)
    requires PlanIs(base, plan, a, kept, start) && AlikeMatter(base.artifacts, db.artifacts)
    requires LookupNode(db.nodes, a.stableKey) == FormNode(m, base, a, AsCandidates)
    requires a.stableKey in db.events <==> a.stableKey in start
    ensures PromoteOne(m, db, plan).Some? <==> LinkedAll(a, db.artifacts, MatchIds(a, db.artifacts))
    ensures PromoteOne(m, db, plan).Some? ==>
      PromoteOne(m, db, plan).value == Db(
        db.nodes[a.stableKey := FormNode(m, base, a, AsPromoted(kept)).value], db.artifacts,
        if a.stableKey in start then db.events else db.events[a.stableKey := EventOf(base, a, kept)])
  {
    SourcesSame(a, base.artifacts, db.artifacts);
    PlanSourcesOf(m, db, a);
    hide MatchIds, SourcesIn, Sources, LinkedAll, AlikeMatter, FinalPromotion;
    var node := StagedNode(m, base, a);
    assert node.evidence + SourcesIn(a, base.artifacts) == node.evidence;
  }

  ghost predicate LinkedUpTo(m: Manifest, artifacts: seq<Artifact>, n: nat) {
    n <= |m.assignments| && forall i :: 0 <= i < n ==>
      LinkedAll(m.assignments[i], artifacts, MatchIds(m.assignments[i], artifacts))
  }

  lemma PromoteAllStep(m: Manifest, db: Db, plans: seq<Plan>, n: nat)
    requires n < |plans|
    ensures PromoteAll(m, db, plans[..n + 1]) ==
      match PromoteAll(m, db, plans[..n]) { case None => None case Some(r) => PromoteOne(m, r, plans[n]) }
  {
    assert plans[..n + 1][..n] == plans[..n];
  }

  /** What the promotion transaction has done after n plans. */
  ghost predicate PromotedUpTo(m: Manifest, base: Db, db: Db, r: Db, n: nat, kept: bool) {
    && r.artifacts == db.artifacts && NodesMixed(m, base, r.nodes, n, AsPromoted(kept), AsCandidates)
    && EventsUpTo(m, base, db.events, r.events, n, kept)
  }

  lemma PromoteNone(m: Manifest, base: Db, db: Db, kept: bool)
    requires NodesAre(m, base, db.nodes, AsCandidates)
    ensures PromotedUpTo(m, base, db, db, 0, kept)
  {
    hide FormNode, LookupNode, EventOf;
    WholeSplit(m, base, db.nodes, AsPromoted(kept), AsCandidates);
  }

  lemma {:induction false} PromoteAllEffect(m: Manifest, base: Db, db: Db, plans: seq<Plan>, kept: bool, n: nat)
    requires Loaded(m) && PlansAre(m, base, plans, kept, db.events) && n <= |plans|
    requires NodesAre(m, base, db.nodes, AsCandidates) && AlikeMatter(base.artifacts, db.artifacts)
    ensures PromoteAll(m, db, plans[..n]).Some? <==> LinkedUpTo(m, db.artifacts, n)
    ensures PromoteAll(m, db, plans[..n]).Some? ==>
      PromotedUpTo(m, base, db, PromoteAll(m, db, plans[..n]).value, n, kept)
    decreases n
  {
    hide PromoteAll, PromoteOne, LinkedAll, PlanIs, AlikeMatter, PromotedUpTo, NodesMixed, Loaded;
    if n == 0 {
      PromoteNone(m, base, db, kept);
      assert PromoteAll(m, db, plans[..0]) == Some(db) by { PromoteNothing(m, db); }
    } else {
      PromoteAllEffect(m, base, db, plans, kept, n - 1);
      PromoteAllStep(m, db, plans, n - 1);
      if PromoteAll(m, db, plans[..n - 1]).Some? {
        PromoteStepEffect(m, base, db, PromoteAll(m, db, plans[..n - 1]).value, plans, kept, n - 1);
      }
    }
  }

  lemma PromoteNothing(m: Manifest, db: Db)
    ensures PromoteAll(m, db, []) == Some(db)
  {
  }

  lemma PromoteStepEffect(m: Manifest, base: Db, db: Db, r: Db, plans: seq<Plan>, kept: bool, n: nat)
    requires Loaded(m) && PlansAre(m, base, plans, kept, db.events) && n < |plans|
    requires AlikeMatter(base.artifacts, db.artifacts) && PromotedUpTo(m, base, db, r, n, kept)
    ensures PromoteOne(m, r, plans[n]).Some? <==>
      LinkedAll(m.assignments[n], db.artifacts, MatchIds(m.assignments[n], db.artifacts))
    ensures PromoteOne(m, r, plans[n]).Some? ==>
      PromotedUpTo(m, base, db, PromoteOne(m, r, plans[n]).value, n + 1, kept)
  {
    hide LookupNode, PromoteOne, MatchIds, LinkedAll, EventOf, PlanIs, AlikeMatter, StagedNode;
    var a := m.assignments[n];
    PromoteOneEffect(m, base, r, plans[n], a, kept, db.events);
    if PromoteOne(m, r, plans[n]).Some? {
      NodesStep(m, base, r.nodes, n, AsPromoted(kept), AsCandidates, FormNode(m, base, a, AsPromoted(kept)).value);
      EventsStep(m, base, db.events, r.events, n, kept);
    }
  }

  /** When every assignment's artifacts are linked, every artifact is. */
  lemma LinkedAllIsFull(m: Manifest, base: seq<Artifact>, now: seq<Artifact>)
    requires Between(m, base, now)
    ensures LinkedUpTo(m, now, |m.assignments|) <==> FullyBetween(m, base, now)
  {
    hide Linked;
    if LinkedUpTo(m, now, |m.assignments|) {
      forall k | 0 <= k < |base| ensures now[k] == Linked(m, base[k]) { AllLinkedAt(m, base, now, k); }
    }
    if FullyBetween(m, base, now) {
      forall i | 0 <= i < |m.assignments| ensures LinkedAll(m.assignments[i], now, MatchIds(m.assignments[i], now)) {
        LinkedAllAt(m, base, now, i);
      }
    }
  }

  lemma AllLinkedAt(m: Manifest, base: seq<Artifact>, now: seq<Artifact>, k: nat)
    requires Between(m, base, now) && k < |base|
    requires LinkedUpTo(m, now, |m.assignments|)
    ensures now[k] == Linked(m, base[k])
  {
    forall i | 0 <= i < |m.assignments| && Matches(m.assignments[i], now[k])
      ensures m.assignments[i].stableKey in now[k].Refs(m.assignments[i].nodeType)
    {
      var ids := MatchIds(m.assignments[i], now);
      assert k in ids;
      var j :| 0 <= j < |ids| && ids[j] == k;
      assert LinkedAll(m.assignments[i], now, ids);
    }
    FullyLinked(m, now[k]);
    LinkedAgain(m, base[k]);
  }

  lemma LinkedAllAt(m: Manifest, base: seq<Artifact>, now: seq<Artifact>, i: nat)
    requires FullyBetween(m, base, now) && i < |m.assignments|
    ensures LinkedAll(m.assignments[i], now, MatchIds(m.assignments[i], now))
  {
    hide Linked;
    var ids := MatchIds(m.assignments[i], now);
    forall j | 0 <= j < |ids| ensures m.assignments[i].stableKey in now[ids[j]].Refs(m.assignments[i].nodeType) {
      LinkedAgain(m, base[ids[j]]);
      LinkedHas(m, base[ids[j]], i);
    }
  }
}
