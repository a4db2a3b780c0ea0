/** The page reader: three separate queries, between which the publisher may take any number of steps. */
module PublicationReader {
  import opened Contracts
  import opened Versions
  import opened Publication
  import opened PublicationSafety

  datatype Answer = Answer(publishVersion: nat, projection: PageProjection)

  // The three queries ------------------------------------------------------------------------

  function QueryPointer(db: Db): Option<nat> {
    if db.pointer.Some? && db.pointer.value.publishVersion.Some? && IsVersion(db.pointer.value.publishVersion.value)
    then db.pointer.value.publishVersion
    else None
  }

  function QueryBinding(db: Db, version: nat, request: RouteRequest): Option<nat> {
    var key := BindingKey(version, request.locale, request.family, request.route);
    if key in db.bindings then Some(db.bindings[key]) else None
  }

  function QueryProjection(db: Db, version: nat, row: nat, request: RouteRequest): Option<Answer> {
    if row !in db.projections then None
    else
      match Materialize(db.projections[row])
      case None => None
      case Some(p) =>
        if p.state != Released || p.page.indexState != DiscoverableNoindex then None
        else if p.page.route != request.route || p.locale != request.locale || p.family != request.family then None
        else Some(Answer(version, p))
  }

  /** readBoundProjection, with each query answered by the database of its own moment. */
  function Read(atPointer: Db, atBinding: Db, atProjection: Db, request: RouteRequest): Option<Answer> {
    match QueryPointer(atPointer)
    case None => None
    case Some(version) =>
      match QueryBinding(atBinding, version, request)
      case None => None
      case Some(row) => QueryProjection(atProjection, version, row, request)
  }

  // What an answer must be -------------------------------------------------------------------

  ghost predicate Matches(p: PageProjection, request: RouteRequest) {
    p.locale == request.locale && p.family == request.family && p.page.route == request.route
  }

  /** The three queries answer with a page exactly when its version is the active one, the route is bound
      there to a row that reads back as the page, and the page is released, not indexed, and of the route
      asked for: whatever happens between the queries, nothing else is ever served. */
  lemma {:induction false} AnswerExactly(atPointer: Db, atBinding: Db, atProjection: Db, request: RouteRequest,
      version: nat, p: PageProjection)
    ensures Read(atPointer, atBinding, atProjection, request) == Some(Answer(version, p)) <==>
      var key := BindingKey(version, request.locale, request.family, request.route);
      && IsVersion(version) && atPointer.pointer.Some? && atPointer.pointer.value.publishVersion == Some(version)
      && key in atBinding.bindings && Holds(atProjection, atBinding.bindings[key], p)
      && p.state == Released && p.page.indexState == DiscoverableNoindex && Matches(p, request)
  {
    hide Materialize;
  }

  /** The answer an activation owes: its page under the requested route, if it has one. */
  ghost predicate OwedBy(a: Activation, request: RouteRequest, answer: Option<Answer>) {
    match answer
    case None => forall p :: p in a.projections ==> !Matches(p, request)
    case Some(x) =>
      x.publishVersion == a.version && x.projection in a.projections && Matches(x.projection, request)
  }

  /** The answer owed: by the last activation, or before the first one by the database as it was found. */
  ghost predicate Owed(base: Db, log: seq<Activation>, request: RouteRequest, answer: Option<Answer>) {
    if |log| == 0 then answer == Read(base, base, base, request) else OwedBy(log[|log| - 1], request, answer)
  }

  lemma OwedUnique(base: Db, log: seq<Activation>, request: RouteRequest, a: Option<Answer>, b: Option<Answer>)
    requires |log| > 0 ==> Accepted(log[|log| - 1].projections)
    requires Owed(base, log, request, a) && Owed(base, log, request, b)
    ensures a == b
  {
    hide Read;
    if |log| > 0 && a.Some? && b.Some? {
      var projections := log[|log| - 1].projections;
      var i :| 0 <= i < |projections| && projections[i] == a.value.projection;
      var j :| 0 <= j < |projections| && projections[j] == b.value.projection;
      assert KeyOf(0, projections[i]) == KeyOf(0, projections[j]);
    }
  }

  lemma BoundFound(atBinding: Db, writer: map<BindingKey, nat>, atProjection: Db, a: Activation, request: RouteRequest)
    requires CompleteSet(atBinding, writer, a) && Grows(atBinding, atProjection)
    requires forall p :: p in a.projections ==> p.state == Released && p.page.indexState == DiscoverableNoindex
    requires QueryBinding(atBinding, a.version, request).Some?
    ensures var row := QueryBinding(atBinding, a.version, request).value;
      OwedBy(a, request, QueryProjection(atProjection, a.version, row, request))
  {
    hide Materialize;
    var key := BindingKey(a.version, request.locale, request.family, request.route);
    assert key in NewKeys(a.version, a.projections);
    var p :| p in a.projections && KeyOf(a.version, p) == key;
    assert BoundTo(atBinding, a.version, p);
    HoldsGrows(atBinding, atProjection, atBinding.bindings[key], p);
  }

  lemma BoundMissing(atBinding: Db, writer: map<BindingKey, nat>, a: Activation, request: RouteRequest)
    requires CompleteSet(atBinding, writer, a) && QueryBinding(atBinding, a.version, request).None?
    ensures OwedBy(a, request, None)
  {
    hide Holds, OnlyBy;
    forall p | p in a.projections ensures !Matches(p, request) {
      assert BoundTo(atBinding, a.version, p);
    }
  }

  lemma AllServed(a: Activation)
    requires Accepted(a.projections)
    ensures forall p :: p in a.projections ==> p.state == Released && p.page.indexState == DiscoverableNoindex
  {
    forall p | p in a.projections ensures p.state == Released && p.page.indexState == DiscoverableNoindex {
      var i :| 0 <= i < |a.projections| && a.projections[i] == p;
    }
  }

  lemma BoundReadIsOwed(atPointer: Db, atBinding: Db, writer: map<BindingKey, nat>, atProjection: Db, a: Activation,
      request: RouteRequest)
    requires QueryPointer(atPointer) == Some(a.version)
    requires ActivationOk(atBinding, writer, a) && Grows(atBinding, atProjection)
    ensures OwedBy(a, request, Read(atPointer, atBinding, atProjection, request))
  {
    hide CompleteSet, Grows, Accepted, QueryBinding, QueryProjection, OwedBy, QueryPointer, Used;
    AllServed(a);
    if QueryBinding(atBinding, a.version, request).Some? {
      BoundFound(atBinding, writer, atProjection, a, request);
    } else {
      BoundMissing(atBinding, writer, a, request);
    }
  }

  lemma PointerAtLast(s: State)
    requires Inv(s)
    ensures QueryPointer(s.db) ==
      if |s.log| == 0 then QueryPointer(s.base) else Some(s.log[|s.log| - 1].version)
    ensures |s.log| > 0 ==> ActivationOk(s.db, s.writer, s.log[|s.log| - 1])
  {
    hide CompleteSet, Used, Accepted, AttemptOk, RowsOk, BindingsOk;
  }

  /** Before the first activation a read is answered by what was found: the active version's bindings
      are not added to, and the rows they lead to are not changed. */
  lemma BaseReadStays(base: Db, atPointer: Db, atBinding: Db, atProjection: Db, request: RouteRequest)
    requires BaseOk(base) && Frozen(base, atBinding) && Frozen(base, atProjection)
    requires atPointer.pointer == base.pointer
    ensures Read(atPointer, atBinding, atProjection, request) == Read(base, base, base, request)
  {
    hide Used, Materialize, RowsOk, BindingsOk;
    if QueryPointer(base).Some? {
      var key := BindingKey(QueryPointer(base).value, request.locale, request.family, request.route);
      assert key in atBinding.bindings <==> key in base.bindings;
    }
  }

  lemma ActivationStays(s: State, t: State)
    requires Inv(t) && s.log <= t.log && |s.log| > 0
    ensures ActivationOk(t.db, t.writer, s.log[|s.log| - 1])
  {
    hide ActivationOk, AttemptOk, RowsOk, BindingsOk, PointerOk, Increasing;
    assert t.log[|s.log| - 1] == s.log[|s.log| - 1];
  }

  /** Whatever the publisher does between the queries, the answer is the page of the one version
      that was active at the pointer query. */
  lemma {:induction false} ReadIsOwed(s: State, between: seq<Step>, after: seq<Step>, request: RouteRequest)
    requires Inv(s)
    ensures var t := Run(s, between);
      Owed(s.base, s.log, request, Read(s.db, t.db, Run(t, after).db, request))
  {
    hide Run, Core, Grows, ActivationOk, OwedBy, QueryPointer, Read, BaseOk, Frozen;
    var t := Run(s, between);
    RunKeeps(s, between);
    RunGrows(s, between);
    RunKeeps(t, after);
    RunGrows(t, after);
    PointerAtLast(s);
    if |s.log| > 0 {
      ActivationStays(s, t);
      BoundReadIsOwed(s.db, t.db, t.writer, Run(t, after).db, s.log[|s.log| - 1], request);
    } else {
      PointerAsFound(s);
      BaseReadStays(s.base, s.db, t.db, Run(t, after).db, request);
    }
  }

  lemma PointerAsFound(s: State)
    requires Core(s) && |s.log| == 0
    ensures s.db.pointer == s.base.pointer
  {
  }

  /** An interleaved read answers exactly as if all three queries had run at once at the moment of
      the pointer query: it never mixes versions and never loses a page. */
  lemma {:induction false} InterleavedReadIsAtomic(s: State, before: seq<Step>, between: seq<Step>, after: seq<Step>,
      request: RouteRequest)
    requires Init(s)
    ensures var r := Run(s, before); var t := Run(r, between);
      Read(r.db, t.db, Run(t, after).db, request) == Read(r.db, r.db, r.db, request)
  {
    InitKeeps(s);
    RunKeeps(s, before);
    var r := Run(s, before);
    var t := Run(r, between);
    hide Run, Read;
    ReadIsOwed(r, between, after, request);
    ReadIsOwed(r, [], [], request);
    if |r.log| > 0 { assert ActivationOk(r.db, r.writer, r.log[|r.log| - 1]); }
    OwedUnique(r.base, r.log, request, Read(r.db, t.db, Run(t, after).db, request), Read(r.db, r.db, r.db, request));
  }

  /** No step other than a successful activation changes any answer. */
  lemma {:induction false} AnswersStableUntilActivation(s: State, e: Step, request: RouteRequest)
    requires Inv(s) && Apply(s, e).log == s.log
    ensures var t := Apply(s, e); Read(t.db, t.db, t.db, request) == Read(s.db, s.db, s.db, request)
  {
    var t := Apply(s, e);
    StepKeeps(s, e);
    StepGrows(s, e);
    assert Run(s, []) == s && Run(t, []) == t;
    hide Run, Apply, Read, CompleteSet, Used, AttemptOk, BaseKept;
    ReadIsOwed(s, [], [], request);
    ReadIsOwed(t, [], [], request);
    if |s.log| > 0 { assert ActivationOk(s.db, s.writer, s.log[|s.log| - 1]); }
    OwedUnique(s.base, s.log, request, Read(s.db, s.db, s.db, request), Read(t.db, t.db, t.db, request));
  }

  lemma LogStep(s: State, e: Step)
    requires Apply(s, e).log != s.log
    ensures s.attempt.Some?
    ensures Apply(s, e).log ==
      s.log + [Activation(s.attempt.value.number, s.attempt.value.version, s.attempt.value.projections)]
  {
  }

  /** After an activation every page of its attempt is read back, equal to what was stored. */
  lemma {:induction false} ActivatedPagesAreServed(s: State, e: Step, p: PageProjection)
    requires Inv(s) && s.attempt.Some? && p in s.attempt.value.projections
    requires Apply(s, e).log != s.log
    ensures var t := Apply(s, e);
      Read(t.db, t.db, t.db, RouteRequest(p.family, p.locale, p.page.route)) == Some(Answer(s.attempt.value.version, p))
  {
    var t := Apply(s, e);
    var request := RouteRequest(p.family, p.locale, p.page.route);
    StepKeeps(s, e);
    LogStep(s, e);
    hide Apply, Read, CompleteSet, Used;
    ReadIsOwed(t, [], [], request);
    assert Run(t, []) == t;
    assert ActivationOk(t.db, t.writer, t.log[|t.log| - 1]);
    OwedUnique(t.base, t.log, request, Read(t.db, t.db, t.db, request), Some(Answer(s.attempt.value.version, p)));
  }
}
