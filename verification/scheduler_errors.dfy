/** What the bounded scheduler does with errors: when a lane claims an index after an error was caught,
    when the error raised is not the first one, and when the call returns although a worker threw.
    Each happens under some schedule exactly when a condition on the workers and the number of lanes
    holds. */
module SchedulerErrors {
  import opened Contracts
  import opened Scheduler

  // Counting -----------------------------------------------------------------------------------

  /** How many of 0..m satisfy `p`. */
  function Count(p: nat -> bool, m: nat): (c: nat)
    ensures c <= m
  {
    if m == 0 then 0 else Count(p, m - 1) + if p(m - 1) then 1 else 0
  }

  lemma {:induction false} CountGrows(p: nat -> bool, m: nat, k: nat)
    requires m <= k
    ensures Count(p, m) <= Count(p, k)
    ensures m < k && p(m) ==> Count(p, m) < Count(p, k)
    decreases k
  {
    if m < k { CountGrows(p, m, k - 1); }
  }

  /** One more index satisfies the wider predicate. */
  lemma {:induction false} CountWithOne(p: nat -> bool, q: nat -> bool, u: nat, m: nat)
    requires !p(u) && forall i: nat :: q(i) == (p(i) || i == u)
    ensures Count(q, m) == Count(p, m) + if u < m then 1 else 0
  {
    if m > 0 { CountWithOne(p, q, u, m - 1); }
  }

  function Tally(f: Lane -> bool, lanes: seq<Lane>): (c: nat)
    ensures c <= |lanes|
  {
    if |lanes| == 0 then 0 else Tally(f, lanes[..|lanes| - 1]) + if f(lanes[|lanes| - 1]) then 1 else 0
  }

  lemma {:induction false} TallyUpdate(f: Lane -> bool, lanes: seq<Lane>, l: nat, lane: Lane)
    requires l < |lanes|
    ensures Tally(f, lanes[l := lane]) + (if f(lanes[l]) then 1 else 0) == Tally(f, lanes) + if f(lane) then 1 else 0
  {
    var n := |lanes| - 1;
    if l < n {
      TallyUpdate(f, lanes[..n], l, lane);
      assert lanes[l := lane][..n] == lanes[..n][l := lane];
    } else {
      assert lanes[l := lane][..n] == lanes[..n];
    }
  }

  /** Lanes counted twice or not at all show in the total. */
  lemma {:induction false} TallyApart(f: Lane -> bool, g: Lane -> bool, lanes: seq<Lane>)
    requires forall lane :: !(f(lane) && g(lane))
    ensures Tally(f, lanes) + Tally(g, lanes) <= |lanes|
    ensures forall l :: 0 <= l < |lanes| && !f(lanes[l]) && !g(lanes[l]) ==> Tally(f, lanes) + Tally(g, lanes) < |lanes|
  {
    if |lanes| > 0 { TallyApart(f, g, lanes[..|lanes| - 1]); }
  }

  lemma {:induction false} TallyConstant(f: Lane -> bool, lanes: seq<Lane>, b: bool)
    requires forall l :: 0 <= l < |lanes| ==> f(lanes[l]) == b
    ensures Tally(f, lanes) == if b then |lanes| else 0
  {
    if |lanes| > 0 { TallyConstant(f, lanes[..|lanes| - 1], b); }
  }

  /** Busy with an index that satisfies `p`. */
  function BusyWith(p: nat -> bool): Lane -> bool {
    (lane: Lane) => lane.Busy? && p(lane.index)
  }

  function Done(): Lane -> bool {
    (lane: Lane) => lane.Finished?
  }

  /** The indices whose worker throws an error other than undefined. */
  function Defined<I, V, E>(work: Work<I, V, E>): nat -> bool {
    (i: nat) => i < |work.values| && work.Answer(i).Threw? && work.Answer(i).error.Some?
  }

  function SomeCount<E>(caught: seq<Option<E>>): nat {
    if |caught| == 0 then 0 else SomeCount(caught[..|caught| - 1]) + if caught[|caught| - 1].Some? then 1 else 0
  }

  // What every schedule keeps ------------------------------------------------------------------

  /** Some index below `m` throws `error`, with fewer defined throwers below it than lanes. */
  ghost predicate InTime<I, V, E>(work: Work<I, V, E>, m: nat, lanes: nat, error: Option<E>) {
    exists i: nat :: i < m && i < |work.values| && work.Answer(i) == Threw(error) && Count(Defined(work), i) < lanes
  }

  /** Every defined thrower claimed is still busy or was caught, and a lane that caught one has stopped. */
  ghost predicate Tallied<I, V, E(!new)>(work: Work<I, V, E>, s: State<V, E>) {
    && Count(Defined(work), s.next) == Tally(BusyWith(Defined(work)), s.lanes) + SomeCount(s.caught)
    && SomeCount(s.caught) <= Tally(Done(), s.lanes)
    && (None in s.caught ==> InTime(work, s.next, |s.lanes|, None))
    && (|s.caught| > 0 && s.FirstError().None? ==> SomeCount(s.caught) < |s.lanes|)
  }

  lemma TalliedBound<I, V, E(!new)>(work: Work<I, V, E>, s: State<V, E>)
    requires Tallied(work, s)
    ensures Count(Defined(work), s.next) <= |s.lanes|
    ensures forall l :: 0 <= l < |s.lanes| && s.lanes[l].Busy? && !Defined(work)(s.lanes[l].index) ==>
      Count(Defined(work), s.next) < |s.lanes|
  {
    TallyApart(BusyWith(Defined(work)), Done(), s.lanes);
  }

  lemma TalliedProceed<I, V, E(!new)>(work: Work<I, V, E>, s: State<V, E>, l: nat)
    requires Inv(work, s) && l < |s.lanes| && s.lanes[l] == Ready && Tallied(work, s)
    ensures Tallied(work, Proceed(work, s, l))
  {
    hide Tally, SomeCount, InTime, Active, Accounted, ThrownBefore;
    var r := Proceed(work, s, l);
    if None in s.caught { InTimeGrows(work, s.next, r.next, |s.lanes|, None); }
    TallyUpdate(BusyWith(Defined(work)), s.lanes, l, r.lanes[l]);
    TallyUpdate(Done(), s.lanes, l, r.lanes[l]);
  }

  lemma SomeCountPush<E>(caught: seq<Option<E>>, error: Option<E>)
    ensures SomeCount(caught + [error]) == SomeCount(caught) + if error.Some? then 1 else 0
  {
    assert (caught + [error])[..|caught|] == caught;
  }

  lemma InTimeGrows<I, V, E>(work: Work<I, V, E>, m: nat, k: nat, lanes: nat, error: Option<E>)
    requires m <= k && InTime(work, m, lanes, error)
    ensures InTime(work, k, lanes, error)
  {
    var i: nat :| i < m && i < |work.values| && work.Answer(i) == Threw(error) && Count(Defined(work), i) < lanes;
    assert i < k;
  }

  /** A lane with an undefined in hand leaves one lane too few for all defined throwers. */
  lemma UndefinedInHand<I, V, E(!new)>(work: Work<I, V, E>, s: State<V, E>, l: nat)
    requires Tallied(work, s) && l < |s.lanes| && s.lanes[l].Busy? && s.lanes[l].index < s.next <= |work.values|
    requires work.Answer(s.lanes[l].index) == Threw(None)
    ensures InTime(work, s.next, |s.lanes|, None) && SomeCount(s.caught) < |s.lanes|
  {
    TalliedBound(work, s);
    CountGrows(Defined(work), s.lanes[l].index, s.next);
  }

  /** Storing or catching and going on, taken together: in between, the lane that caught a defined
      error is not yet counted as stopped. */
  lemma TalliedSettle<I, V, E(!new)>(work: Work<I, V, E>, s: State<V, E>, l: nat)
    requires l < |s.lanes| && s.lanes[l].Busy? && Tallied(work, s)
    requires |work.values| == |s.results| && s.lanes[l].index < s.next <= |work.values|
    ensures Tallied(work, Proceed(work, Record(work, s, l), l))
  {
    hide Tally, SomeCount, InTime;
    var i, m := s.lanes[l].index, Record(work, s, l);
    var r := Proceed(work, m, l);
    assert r.lanes == s.lanes[l := r.lanes[l]];
    TallyUpdate(BusyWith(Defined(work)), s.lanes, l, r.lanes[l]);
    TallyUpdate(Done(), s.lanes, l, r.lanes[l]);
    if None in s.caught { InTimeGrows(work, s.next, r.next, |s.lanes|, None); }
    match work.Answer(i)
    case Returned(_) =>
    case Threw(error) =>
      SomeCountPush(s.caught, error);
      if error.None? {
        UndefinedInHand(work, s, l);
        InTimeGrows(work, s.next, r.next, |s.lanes|, None);
      }
  }

  lemma {:induction false} RunTallied<I, V, E(!new)>(work: Work<I, V, E>, concurrency: nat, steps: seq<nat>)
    ensures Tallied(work, Run(work, Init(work, concurrency), steps))
    decreases |steps|
  {
    if |steps| == 0 {
      var s := Init(work, concurrency);
      TallyConstant(BusyWith(Defined(work)), s.lanes, false);
    } else {
      var s, l := Run(work, Init(work, concurrency), steps[..|steps| - 1]), steps[|steps| - 1];
      RunKeeps(work, concurrency, steps[..|steps| - 1]);
      RunTallied(work, concurrency, steps[..|steps| - 1]);
      if Enabled(work, s, l) {
        if s.lanes[l] == Ready { TalliedProceed(work, s, l); } else { TalliedSettle(work, s, l); }
      }
    }
  }

  // Building schedules -------------------------------------------------------------------------

  /** One step of a busy lane once all have been started. */
  lemma SettleEffect<I, V, E(!new)>(work: Work<I, V, E>, s: State<V, E>, l: nat)
    requires Inv(work, s) && s.AllStarted() && l < |s.lanes| && s.lanes[l].Busy?
    ensures Enabled(work, s, l) && s.lanes[l].index < s.next <= |work.values|
    ensures var answer, t := work.Answer(s.lanes[l].index), Apply(work, s, l);
      && t.lanes == s.lanes[l := t.lanes[l]] && t.AllStarted()
      && t.caught == s.caught + (if answer.Threw? then [answer.error] else [])
      && if t.FirstError().Some? || s.next == |work.values| then t.lanes[l] == Finished && t.next == s.next
         else t.lanes[l] == Busy(s.next) && t.next == s.next + 1
  {
    hide Active, Accounted, ThrownBefore;
  }

  ghost predicate Reached<I, V, E>(work: Work<I, V, E>, concurrency: nat, s: State<V, E>) {
    exists steps :: s == Run(work, Init(work, concurrency), steps)
  }

  /** A reached state keeps the invariants, and so does the state after any step from it. */
  lemma ReachedStep<I, V, E(!new)>(work: Work<I, V, E>, concurrency: nat, s: State<V, E>, l: nat)
    requires Reached(work, concurrency, s)
    ensures Inv(work, s) && Tallied(work, s) && |s.lanes| == LaneCount(|work.values|, concurrency)
    ensures Reached(work, concurrency, Apply(work, s, l))
  {
    var steps :| s == Run(work, Init(work, concurrency), steps);
    RunKeeps(work, concurrency, steps);
    RunTallied(work, concurrency, steps);
    assert (steps + [l])[..|steps|] == steps;
    assert Apply(work, s, l) == Run(work, Init(work, concurrency), steps + [l]);
  }

  /** The first `k` lanes started, each at its own index, and nothing caught. */
  lemma {:induction false} StartLanes<I, V, E(!new)>(work: Work<I, V, E>, concurrency: nat, k: nat)
      returns (s: State<V, E>)
    requires k <= LaneCount(|work.values|, concurrency)
    ensures Reached(work, concurrency, s) && s.next == k && s.caught == []
    ensures |s.lanes| == LaneCount(|work.values|, concurrency)
    ensures forall l :: 0 <= l < |s.lanes| ==> s.lanes[l] == if l < k then Busy(l) else Ready
  {
    if k == 0 {
      s := Init(work, concurrency);
      assert s == Run(work, s, []);
    } else {
      var r := StartLanes(work, concurrency, k - 1);
      ReachedStep(work, concurrency, r, k - 1);
      assert Enabled(work, r, k - 1);
      s := Apply(work, r, k - 1);
    }
  }

  lemma {:induction false} StartedTally(p: nat -> bool, lanes: seq<Lane>)
    requires forall l :: 0 <= l < |lanes| ==> lanes[l] == Busy(l)
    ensures Tally(BusyWith(p), lanes) == Count(p, |lanes|)
  {
    if |lanes| > 0 { StartedTally(p, lanes[..|lanes| - 1]); }
  }

  /** Every lane is busy, no index that satisfies `keep` has settled, and only undefined was caught. */
  ghost predicate Holding<V, E(!new)>(s: State<V, E>, keep: nat -> bool) {
    && (forall l :: 0 <= l < |s.lanes| ==> s.lanes[l].Busy?)
    && (forall k :: 0 <= k < |s.caught| ==> s.caught[k].None?)
    && Count(keep, s.next) == Tally(BusyWith(keep), s.lanes)
    && (forall x: nat :: x < s.next && keep(x) ==> Active(s, x))
  }

  lemma StartHolding<I, V, E(!new)>(work: Work<I, V, E>, concurrency: nat, keep: nat -> bool)
      returns (s: State<V, E>)
    ensures Reached(work, concurrency, s) && Holding(s, keep)
    ensures |s.lanes| == s.next == LaneCount(|work.values|, concurrency)
  {
    s := StartLanes(work, concurrency, LaneCount(|work.values|, concurrency));
    StartedTally(keep, s.lanes);
    forall x: nat | x < s.next && keep(x) ensures Active(s, x) { assert s.lanes[x] == Busy(x); }
  }

  /** A lane whose index need not be kept settles and claims the next one. */
  lemma HoldStep<I, V, E(!new)>(work: Work<I, V, E>, s: State<V, E>, keep: nat -> bool, l: nat)
    requires Inv(work, s) && Holding(s, keep) && l < |s.lanes| && !keep(s.lanes[l].index) && s.next < |work.values|
    requires forall i: nat :: Defined(work)(i) ==> keep(i)
    ensures var t := Apply(work, s, l);
      Holding(t, keep) && t.next == s.next + 1 && t.lanes == s.lanes[l := Busy(s.next)]
  {
    hide Inv, Apply, Enabled, Tally;
    SettleEffect(work, s, l);
    var t := Apply(work, s, l);
    assert !Defined(work)(s.lanes[l].index);
    TallyUpdate(BusyWith(keep), s.lanes, l, Busy(s.next));
    KeptActive(s, t, keep, l);
  }

  lemma KeptActive<V, E(!new)>(s: State<V, E>, t: State<V, E>, keep: nat -> bool, l: nat)
    requires l < |s.lanes| && s.lanes[l].Busy? && !keep(s.lanes[l].index)
    requires t.lanes == s.lanes[l := Busy(s.next)] && t.next == s.next + 1
    requires forall x: nat :: x < s.next && keep(x) ==> Active(s, x)
    ensures forall x: nat :: x < t.next && keep(x) ==> Active(t, x)
  {
    forall x: nat | x < t.next && keep(x) ensures Active(t, x) {
      if x < s.next {
        var k :| 0 <= k < |s.lanes| && s.lanes[k] == Busy(x);
        assert t.lanes[k] == Busy(x);
      } else {
        assert t.lanes[l] == Busy(x);
      }
    }
  }

  lemma FreeLane<V, E(!new)>(s: State<V, E>, keep: nat -> bool) returns (l: nat)
    requires Holding(s, keep) && Count(keep, s.next) < |s.lanes|
    ensures l < |s.lanes| && !keep(s.lanes[l].index)
  {
    if forall k :: 0 <= k < |s.lanes| ==> keep(s.lanes[k].index) {
      TallyConstant(BusyWith(keep), s.lanes, true);
      assert false;
    }
    l :| l < |s.lanes| && !keep(s.lanes[l].index);
  }

  /** With fewer kept indices than lanes below it, an index is claimed before any kept one settles. */
  lemma {:induction false} HoldUntil<I, V, E(!new)>(
      work: Work<I, V, E>, concurrency: nat, s: State<V, E>, keep: nat -> bool, m: nat) returns (r: State<V, E>)
    requires Reached(work, concurrency, s) && Holding(s, keep)
    requires forall i: nat :: Defined(work)(i) ==> keep(i)
    requires m < |work.values| && Count(keep, m) < |s.lanes|
    ensures Reached(work, concurrency, r) && Holding(r, keep) && m < r.next
    ensures if m < s.next then r == s
            else r.next == m + 1 && exists l :: 0 <= l < |r.lanes| && r.lanes[l] == Busy(m)
    decreases m + 1 - s.next
  {
    hide *;
    if m < s.next {
      r := s;
    } else {
      CountGrows(keep, s.next, m);
      var l := FreeLane(s, keep);
      ReachedStep(work, concurrency, s, l);
      HoldStep(work, s, keep, l);
      r := HoldUntil(work, concurrency, Apply(work, s, l), keep, m);
      if s.next == m { assert r.lanes[l] == Busy(m); }
    }
  }

  /** All lanes but one run to their end. */
  lemma {:induction false} Drain<I, V, E(!new)>(work: Work<I, V, E>, concurrency: nat, s: State<V, E>, h: nat)
      returns (r: State<V, E>)
    requires Reached(work, concurrency, s) && s.AllStarted() && h < |s.lanes| && s.next <= |work.values|
    ensures Reached(work, concurrency, r) && |r.lanes| == |s.lanes| && r.lanes[h] == s.lanes[h]
    ensures forall l :: 0 <= l < |s.lanes| && l != h ==> r.lanes[l] == Finished
    ensures s.caught <= r.caught && s.next <= r.next
    decreases Left(work, s)
  {
    if l :| 0 <= l < |s.lanes| && l != h && s.lanes[l] != Finished {
      hide Inv, Tallied, Apply, Enabled, Left, LaneCount;
      ReachedStep(work, concurrency, s, l);
      SettleEffect(work, s, l);
      StepsRunOut(work, s, l);
      r := Drain(work, concurrency, Apply(work, s, l), h);
    } else {
      r := s;
    }
  }

  // A claim after a catch ----------------------------------------------------------------------

  ghost predicate ClaimsAfterCatch<I, V, E>(work: Work<I, V, E>, concurrency: nat) {
    exists steps: seq<nat>, l: nat ::
      var s := Run(work, Init(work, concurrency), steps);
      |Apply(work, s, l).caught| > 0 && s.next < Apply(work, s, l).next
  }

  /** Under some schedule a lane claims an index after an error was caught, exactly when a worker throws
      undefined, its index is not the last one, and the workers before it that throw anything else
      are fewer than the lanes: they must all still be busy when it is caught. */
  lemma {:induction false} ClaimAfterCatchWhen<I, V, E(!new)>(work: Work<I, V, E>, concurrency: nat)
    ensures ClaimsAfterCatch(work, concurrency) <==>
      exists i: nat :: i + 1 < |work.values| && work.Answer(i) == Threw(None)
        && Count(Defined(work), i) < LaneCount(|work.values|, concurrency)
  {
    if ClaimsAfterCatch(work, concurrency) {
      var steps: seq<nat>, l: nat :|
        var s := Run(work, Init(work, concurrency), steps);
        |Apply(work, s, l).caught| > 0 && s.next < Apply(work, s, l).next;
      var s := Run(work, Init(work, concurrency), steps);
      ReachedStep(work, concurrency, s, l);
      ClaimAfterCatchNeeds(work, s, l);
    }
    var lanes := LaneCount(|work.values|, concurrency);
    if i: nat :| i + 1 < |work.values| && work.Answer(i) == Threw(None) && Count(Defined(work), i) < lanes {
      ClaimAfterCatchHappens(work, concurrency, i);
    }
  }

  lemma ClaimAfterCatchNeeds<I, V, E(!new)>(work: Work<I, V, E>, s: State<V, E>, l: nat)
    requires Inv(work, s) && Tallied(work, s)
    requires |Apply(work, s, l).caught| > 0 && s.next < Apply(work, s, l).next
    ensures s.next < |work.values| && InTime(work, s.next, |s.lanes|, None)
  {
    hide Count, Tally, Active, Accounted, ThrownBefore, InTime, SomeCount;
    if None !in s.caught {
      assert s.lanes[l].Busy? && work.Answer(s.lanes[l].index) == Threw(None);
      UndefinedInHand(work, s, l);
    }
  }

  lemma ClaimAfterCatchHappens<I, V, E(!new)>(work: Work<I, V, E>, concurrency: nat, i: nat)
    requires i + 1 < |work.values| && work.Answer(i) == Threw(None)
    requires Count(Defined(work), i) < LaneCount(|work.values|, concurrency)
    ensures ClaimsAfterCatch(work, concurrency)
  {
    var s: State<V, E>, l: nat;
    if i < LaneCount(|work.values|, concurrency) {
      s := StartLanes(work, concurrency, i + 1);
      l := i;
    } else {
      s := StartHolding(work, concurrency, Defined(work));
      s := HoldUntil(work, concurrency, s, Defined(work), i);
      l :| l < |s.lanes| && s.lanes[l] == Busy(i);
    }
    ReachedStep(work, concurrency, s, l);
    UndefinedClaims(work, s, l);
    var steps :| s == Run(work, Init(work, concurrency), steps);
  }

  lemma UndefinedClaims<I, V, E(!new)>(work: Work<I, V, E>, s: State<V, E>, l: nat)
    requires Inv(work, s) && l < |s.lanes| && s.lanes[l].Busy? && s.next < |work.values|
    requires work.Answer(s.lanes[l].index) == Threw(None)
    requires s.AllStarted() || forall k :: l < k < |s.lanes| ==> s.lanes[k] == Ready
    ensures |Apply(work, s, l).caught| > 0 && s.next < Apply(work, s, l).next
  {
    hide Active, Accounted, ThrownBefore;
  }

  // Which error is raised ----------------------------------------------------------------------

  ghost predicate RaisesOtherThanFirst<I, V, E>(work: Work<I, V, E>, concurrency: nat) {
    exists steps ::
      var s := Run(work, Init(work, concurrency), steps);
      s.Complete() && Conclude(s).Raised? && s.caught[0] != Some(Conclude(s).error)
  }

  /** Under some complete schedule the error raised is not the first one caught, exactly when two
      workers throw differently, the one raised not undefined, and each has fewer throwers before it
      than there are lanes. Throwers of undefined do not count towards these. */
  lemma {:induction false} RaisesOtherThanFirstWhen<I, V, E(!new)>(work: Work<I, V, E>, concurrency: nat)
    ensures RaisesOtherThanFirst(work, concurrency) <==>
      exists first: Option<E>, last: E :: first != Some(last)
        && InTime(work, |work.values|, LaneCount(|work.values|, concurrency), first)
        && InTime(work, |work.values|, LaneCount(|work.values|, concurrency), Some(last))
  {
    var n, lanes := |work.values|, LaneCount(|work.values|, concurrency);
    if RaisesOtherThanFirst(work, concurrency) {
      var steps :|
        var s := Run(work, Init(work, concurrency), steps);
        s.Complete() && Conclude(s).Raised? && s.caught[0] != Some(Conclude(s).error);
      var s := Run(work, Init(work, concurrency), steps);
      ReachedStep(work, concurrency, s, 0);
      CaughtInTime(work, s, 0);
      CaughtInTime(work, s, |s.caught| - 1);
      InTimeGrows(work, s.next, n, lanes, s.caught[0]);
      InTimeGrows(work, s.next, n, lanes, Some(Conclude(s).error));
    }
    if first: Option<E>, last: E :|
      first != Some(last) && InTime(work, n, lanes, first) && InTime(work, n, lanes, Some(last))
    {
      RaisesOtherHappens(work, concurrency, first, last);
    }
  }

  lemma CaughtInTime<I, V, E(!new)>(work: Work<I, V, E>, s: State<V, E>, k: nat)
    requires Inv(work, s) && Tallied(work, s) && k < |s.caught|
    ensures InTime(work, s.next, |s.lanes|, s.caught[k])
  {
    if s.caught[k].Some? {
      assert ThrownBefore(work, s.next, s.caught[k]);
      var i: nat :| i < s.next && work.Answer(i) == Threw(s.caught[k]);
      TalliedBound(work, s);
      CountGrows(Defined(work), i, s.next);
    }
  }

  lemma DefinedThrows<I, V, E>(work: Work<I, V, E>, j: nat, error: E)
    requires j < |work.values| && work.Answer(j) == Threw(Some(error))
    ensures Defined(work)(j)
  {
  }

  lemma RaisesOtherHappens<I, V, E(!new)>(work: Work<I, V, E>, concurrency: nat, first: Option<E>, last: E)
    requires first != Some(last)
    requires InTime(work, |work.values|, LaneCount(|work.values|, concurrency), first)
    requires InTime(work, |work.values|, LaneCount(|work.values|, concurrency), Some(last))
    ensures RaisesOtherThanFirst(work, concurrency)
  {
    hide Inv, Tallied, Count, Tally, Run, Init, Apply, LaneCount, Defined;
    var n, lanes, keep := |work.values|, LaneCount(|work.values|, concurrency), Defined(work);
    var i: nat :| i < n && work.Answer(i) == Threw(first) && Count(keep, i) < lanes;
    var j: nat :| j < n && work.Answer(j) == Threw(Some(last)) && Count(keep, j) < lanes;
    var s := StartHolding(work, concurrency, keep);
    s := HoldUntil(work, concurrency, s, keep, if i < j then j else i);
    DefinedThrows(work, j, last);
    assert Active(s, j);
    var h :| 0 <= h < |s.lanes| && s.lanes[h] == Busy(j);
    s := CatchFirst(work, concurrency, s, i, h);
    s := Drain(work, concurrency, s, h);
    ReachedStep(work, concurrency, s, h);
    CatchLast(work, s, h, last);
    var steps :| Apply(work, s, h) == Run(work, Init(work, concurrency), steps);
  }

  /** An error other than the held one becomes the first one caught, if it was not so before. */
  lemma CatchFirst<I, V, E(!new)>(work: Work<I, V, E>, concurrency: nat, s: State<V, E>, i: nat, h: nat)
      returns (r: State<V, E>)
    requires Reached(work, concurrency, s) && Holding(s, Defined(work)) && i < s.next && i < |work.values|
    requires h < |s.lanes| && s.lanes[h].Busy? && s.lanes[h].index < |work.values|
    requires Defined(work)(s.lanes[h].index) && work.Answer(i).Threw? && work.Answer(i) != work.Answer(s.lanes[h].index)
    ensures Reached(work, concurrency, r) && r.AllStarted() && |r.lanes| == |s.lanes| && r.next <= |work.values|
    ensures r.lanes[h] == s.lanes[h] && |r.caught| > 0 && Threw(r.caught[0]) != work.Answer(s.lanes[h].index)
  {
    hide Tallied, Count, Tally, LaneCount, Apply, Enabled;
    ReachedStep(work, concurrency, s, 0);
    if |s.caught| > 0 {
      r := s;
    } else {
      assert Accounted(work, s, i);
      hide Inv;
      var l :| 0 <= l < |s.lanes| && s.lanes[l] == Busy(i);
      ReachedStep(work, concurrency, s, l);
      SettleEffect(work, s, l);
      r := Apply(work, s, l);
    }
  }

  /** The last lane catches its error and everything has come to an end. */
  lemma CatchLast<I, V, E(!new)>(work: Work<I, V, E>, s: State<V, E>, h: nat, last: E)
    requires Inv(work, s) && h < |s.lanes| && s.lanes[h].Busy? && work.Answer(s.lanes[h].index) == Threw(Some(last))
    requires forall l :: 0 <= l < |s.lanes| && l != h ==> s.lanes[l] == Finished
    ensures var t := Apply(work, s, h); t.Complete() && t.caught == s.caught + [Some(last)]
  {
    hide Inv, Apply, Enabled;
    SettleEffect(work, s, h);
  }

  // Errors that go unnoticed -------------------------------------------------------------------

  ghost predicate ReturnsDespiteThrow<I, V, E>(work: Work<I, V, E>, concurrency: nat) {
    && (exists i :: 0 <= i < |work.values| && work.Answer(i).Threw?)
    && exists steps ::
      var s := Run(work, Init(work, concurrency), steps); s.Complete() && Conclude(s).Results?
  }

  /** Under some complete schedule the call returns although a worker throws, exactly when a worker
      throws undefined and the workers that throw anything else are fewer than the lanes. */
  lemma {:induction false} ReturnsDespiteThrowWhen<I, V, E(!new)>(work: Work<I, V, E>, concurrency: nat)
    requires ValidConcurrency(concurrency)
    ensures ReturnsDespiteThrow(work, concurrency) <==>
      (exists u :: 0 <= u < |work.values| && work.Answer(u) == Threw(None))
      && Count(Defined(work), |work.values|) < LaneCount(|work.values|, concurrency)
  {
    if ReturnsDespiteThrow(work, concurrency) {
      var steps :|
        var s := Run(work, Init(work, concurrency), steps); s.Complete() && Conclude(s).Results?;
      var s := Run(work, Init(work, concurrency), steps);
      ReachedStep(work, concurrency, s, 0);
      ConcludesWithLastCaught(work, concurrency, steps);
      TallyConstant(BusyWith(Defined(work)), s.lanes, false);
    }
    if Count(Defined(work), |work.values|) < LaneCount(|work.values|, concurrency) {
      if u: nat :| u < |work.values| && work.Answer(u) == Threw(None) {
        ReturnsDespiteHappens(work, concurrency, u);
      }
    }
  }

  /** The last index below `m` that satisfies `p`. */
  lemma {:induction false} LastOf(p: nat -> bool, m: nat) returns (k: nat)
    requires exists i: nat :: i < m && p(i)
    ensures k < m && p(k) && forall i: nat :: k < i < m ==> !p(i)
  {
    k := m - 1;
    if !p(k) { k := LastOf(p, k); }
  }

  function WithOne(p: nat -> bool, u: nat): nat -> bool {
    (i: nat) => p(i) || i == u
  }

  /** Every defined thrower is held, and with them one undefined. */
  lemma HoldUndefined<I, V, E(!new)>(work: Work<I, V, E>, concurrency: nat, u: nat)
      returns (s: State<V, E>, h: nat)
    requires u < |work.values| && work.Answer(u) == Threw(None)
    requires Count(Defined(work), |work.values|) < LaneCount(|work.values|, concurrency)
    ensures Reached(work, concurrency, s) && s.AllStarted() && h < |s.lanes| && s.lanes[h] == Busy(u)
    ensures forall i: nat :: s.next <= i < |work.values| ==> !Defined(work)(i)
  {
    var keep, n := WithOne(Defined(work), u), |work.values|;
    assert !Defined(work)(u) && keep(u) && forall i: nat :: keep(i) == (Defined(work)(i) || i == u);
    hide Inv, Tallied, Count, Tally, Run, Init, Apply, LaneCount, Defined, WithOne;
    CountWithOne(Defined(work), keep, u, n);
    var k := LastOf(keep, n);
    CountGrows(keep, k, n);
    s := StartHolding(work, concurrency, keep);
    s := HoldUntil(work, concurrency, s, keep, k);
    assert Active(s, u);
    h :| h < |s.lanes| && s.lanes[h] == Busy(u);
  }

  lemma ReturnsDespiteHappens<I, V, E(!new)>(work: Work<I, V, E>, concurrency: nat, u: nat)
    requires u < |work.values| && work.Answer(u) == Threw(None)
    requires Count(Defined(work), |work.values|) < LaneCount(|work.values|, concurrency)
    ensures ReturnsDespiteThrow(work, concurrency)
  {
    assert !Defined(work)(u);
    hide Tallied, Count, Tally, Run, Init, Apply, LaneCount, Defined;
    var s, h := HoldUndefined(work, concurrency, u);
    ReachedStep(work, concurrency, s, h);
    s := Drain(work, concurrency, s, h);
    ReachedStep(work, concurrency, s, h);
    s := Tail(work, concurrency, s, h);
    var steps :| s == Run(work, Init(work, concurrency), steps);
  }

  /** One lane is left, no index left to it throws anything but undefined, and it has an undefined in
      hand or was the last to catch one: no error is left when it stops. */
  lemma {:induction false} Tail<I, V, E(!new)>(work: Work<I, V, E>, concurrency: nat, s: State<V, E>, h: nat)
      returns (r: State<V, E>)
    requires Reached(work, concurrency, s) && h < |s.lanes| && s.lanes[h] != Ready && s.next <= |work.values|
    requires forall l :: 0 <= l < |s.lanes| && l != h ==> s.lanes[l] == Finished
    requires forall i: nat :: s.next <= i < |work.values| ==> !Defined(work)(i)
    requires s.lanes[h].Busy? ==> !Defined(work)(s.lanes[h].index)
    requires s.FirstError().None? ||
             (s.lanes[h].Busy? && s.lanes[h].index < |work.values| && work.Answer(s.lanes[h].index) == Threw(None))
    ensures Reached(work, concurrency, r) && r.Complete() && Conclude(r).Results?
    decreases Left(work, s)
  {
    if s.lanes[h] == Finished {
      r := s;
    } else {
      hide Inv, Tallied, Apply, Enabled, Left, LaneCount;
      ReachedStep(work, concurrency, s, h);
      SettleEffect(work, s, h);
      assert var answer := work.Answer(s.lanes[h].index); answer.Threw? ==> answer.error.None?;
      hide Defined;
      StepsRunOut(work, s, h);
      r := Tail(work, concurrency, Apply(work, s, h), h);
    }
  }

  // At an input --------------------------------------------------------------------------------

  /** One lane, two values, the first worker throwing undefined: it is caught, the second index is
      claimed all the same, and if its worker returns, so does the call, with a hole. */
  lemma {:induction false} UndefinedIsSwallowed<I, V, E(!new)>(
      first: I, second: I, value: V, worker: (I, nat) -> Settled<V, E>)
    requires worker(first, 0) == Threw(None) && worker(second, 1) == Returned(value)
    ensures var work := Work([first, second], worker);
      var s, t := Run(work, Init(work, 1), [0]), Run(work, Init(work, 1), [0, 0]);
      var end := Run(work, Init(work, 1), [0, 0, 0]);
      && s.claimed == [0] && s.caught == [] && t.claimed == [0, 1] && t.caught == [None]
      && end.Complete() && Conclude(end) == Results([None, Some(value)])
  {
    var work := Work([first, second], worker);
    var s0 := Init(work, 1);
    assert s0 == State(0, [], [], [None, None], [Ready]);
    assert [0, 0, 0][..2] == [0, 0] && [0, 0][..1] == [0] && [0][..0] == [];
    assert Run(work, s0, []) == s0;
    assert Run(work, s0, [0]) == State(1, [0], [], [None, None], [Busy(0)]);
    assert Run(work, s0, [0, 0]) == State(2, [0, 1], [None], [None, None], [Busy(1)]);
    assert Run(work, s0, [0, 0, 0]) == State(2, [0, 1], [None], [None, Some(value)], [Finished]);
  }

  /** Two lanes, two workers that throw: the error caught first is not the one raised. */
  lemma {:induction false} FirstErrorIsLost<I, V, E(!new)>(
      first: I, second: I, a: E, b: E, worker: (I, nat) -> Settled<V, E>)
    requires worker(first, 0) == Threw(Some(a)) && worker(second, 1) == Threw(Some(b))
    ensures var work := Work([first, second], worker);
      var s := Run(work, Init(work, 2), [0, 1, 0, 1]);
      s.Complete() && s.caught == [Some(a), Some(b)] && Conclude(s) == Raised(b)
  {
    var work := Work([first, second], worker);
    var s0 := Init(work, 2);
    assert s0 == State(0, [], [], [None, None], [Ready, Ready]);
    TwoStarted(work);
    hide Apply;
    assert [0, 1, 0, 1][..3] == [0, 1, 0] && [0, 1, 0][..2] == [0, 1] && [0, 1][..1] == [0] && [0][..0] == [];
    assert Run(work, s0, []) == s0;
    assert Run(work, s0, [0, 1]) == Apply(work, Apply(work, s0, 0), 1);
    assert Run(work, s0, [0, 1, 0, 1]) == Apply(work, Apply(work, Run(work, s0, [0, 1]), 0), 1);
  }

  lemma TwoStarted<I, V, E(!new)>(work: Work<I, V, E>)
    requires |work.values| == 2 && work.Answer(0).Threw? && work.Answer(1).Threw?
    requires work.Answer(0).error.Some? && work.Answer(1).error.Some?
    ensures var s0: State<V, E> := State(0, [], [], [None, None], [Ready, Ready]);
      var s2 := State(2, [0, 1], [], [None, None], [Busy(0), Busy(1)]);
      var caught := [work.Answer(0).error, work.Answer(1).error];
      && Apply(work, Apply(work, s0, 0), 1) == s2
      && Apply(work, Apply(work, s2, 0), 1) == State(2, [0, 1], caught, [None, None], [Finished, Finished])
  {
    var s0: State<V, E> := State(0, [], [], [None, None], [Ready, Ready]);
    assert Apply(work, s0, 0) == State(1, [0], [], [None, None], [Busy(0), Ready]);
    var s2: State<V, E> := State(2, [0, 1], [], [None, None], [Busy(0), Busy(1)]);
    assert Apply(work, s2, 0) == State(2, [0, 1], [work.Answer(0).error], [None, None], [Finished, Busy(1)]);
  }
}
