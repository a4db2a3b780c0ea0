/** The bounded scheduler: lanes that share a next index and the last error caught. Between two worker
    calls a lane does not give way: it stores or catches what the call settled to, checks for an error
    and claims the next index in one go. The lanes are started one after the other. */
module Scheduler {
  import opened Contracts
  import opened Batches

  /** What a worker call settles to. JavaScript may throw undefined, which is Threw(None). */
  datatype Settled<V, E> = Returned(value: V) | Threw(error: Option<E>)

  datatype Work<!I, V, E> = Work(values: seq<I>, worker: (I, nat) -> Settled<V, E>) {
    function Answer(i: nat): Settled<V, E>
      requires i < |values|
    {
      worker(values[i], i)
    }
  }

  /** A Ready lane has not been started. */
  datatype Lane = Ready | Busy(index: nat) | Finished

  /** `claimed` and `caught` list the indices claimed and the errors caught so far, in order. */
  datatype State<V, E> =
    State(next: nat, claimed: seq<nat>, caught: seq<Option<E>>, results: seq<Option<V>>, lanes: seq<Lane>)
  {
    /** The variable firstError: every catch overwrites it. */
    function FirstError(): Option<E> {
      if |caught| == 0 then None else caught[|caught| - 1]
    }

    predicate AllStarted() {
      forall l :: 0 <= l < |lanes| ==> lanes[l] != Ready
    }

    predicate Complete() {
      forall l :: 0 <= l < |lanes| ==> lanes[l] == Finished
    }
  }

  /** The head of the lane's loop: stop, or claim an index and call its worker. */
  function Proceed<I, V, E>(work: Work<I, V, E>, s: State<V, E>, l: nat): State<V, E>
    requires l < |s.lanes|
  {
    if s.FirstError().Some? || s.next >= |work.values| then s.(lanes := s.lanes[l := Finished])
    else s.(next := s.next + 1, claimed := s.claimed + [s.next], lanes := s.lanes[l := Busy(s.next)])
  }

  /** The end of a worker call: its value is stored or its error caught. */
  function Record<I, V, E>(work: Work<I, V, E>, s: State<V, E>, l: nat): State<V, E>
    requires l < |s.lanes| && s.lanes[l].Busy? && s.lanes[l].index < |work.values| == |s.results|
  {
    var i := s.lanes[l].index;
    match work.Answer(i)
    case Returned(value) => s.(results := s.results[i := Some(value)], lanes := s.lanes[l := Ready])
    case Threw(error) => s.(caught := s.caught + [error], lanes := s.lanes[l := Ready])
  }

  /** Which lanes may go on. They are started in order, and a call settles after all have been started,
      except that the lane started last may throw at once, without an await. */
  predicate Enabled<I, V, E>(work: Work<I, V, E>, s: State<V, E>, l: nat) {
    l < |s.lanes| &&
    match s.lanes[l]
    case Ready => forall k :: 0 <= k < l ==> s.lanes[k] != Ready
    case Busy(i) =>
      i < |work.values| == |s.results| &&
      (s.AllStarted() || (work.Answer(i).Threw? && forall k :: l < k < |s.lanes| ==> s.lanes[k] == Ready))
    case Finished => false
  }

  function Apply<I, V, E>(work: Work<I, V, E>, s: State<V, E>, l: nat): State<V, E> {
    if !Enabled(work, s, l) then s
    else if s.lanes[l] == Ready then Proceed(work, s, l)
    else Proceed(work, Record(work, s, l), l)
  }

  /** A schedule says which lane goes on next, and next, and so on. */
  function Run<I, V, E>(work: Work<I, V, E>, s: State<V, E>, steps: seq<nat>): State<V, E> {
    if |steps| == 0 then s else Apply(work, Run(work, s, steps[..|steps| - 1]), steps[|steps| - 1])
  }

  predicate ValidConcurrency(concurrency: int) { 1 <= concurrency <= 16 }

  function LaneCount(n: nat, concurrency: nat): nat { if concurrency < n then concurrency else n }

  function Init<I, V, E>(work: Work<I, V, E>, concurrency: nat): State<V, E> {
    var n := |work.values|;
    State(0, [], [], seq(n, i => None), seq(LaneCount(n, concurrency), l => Ready))
  }

  /** What the call does once every lane has finished. */
  datatype Outcome<V, E> = Results(results: seq<Option<V>>) | Raised(error: E)

  function Conclude<V, E>(s: State<V, E>): Outcome<V, E> {
    match s.FirstError() case Some(e) => Raised(e) case None => Results(s.results)
  }

  // The invariant ------------------------------------------------------------------------------

  ghost predicate Active<V, E>(s: State<V, E>, i: nat) {
    exists l :: 0 <= l < |s.lanes| && s.lanes[l] == Busy(i)
  }

  /** A claimed index is with one lane, or has its result stored or its error caught. */
  ghost predicate Accounted<I, V, E(!new)>(work: Work<I, V, E>, s: State<V, E>, i: nat)
    requires i < |work.values| == |s.results|
  {
    Active(s, i) ||
    match work.Answer(i)
    case Returned(value) => s.results[i] == Some(value)
    case Threw(error) => s.results[i] == None && error in s.caught
  }

  ghost predicate ThrownBefore<I, V, E>(work: Work<I, V, E>, n: nat, error: Option<E>)
    requires n <= |work.values|
  {
    exists i :: 0 <= i < n && work.Answer(i) == Threw(error)
  }

  ghost predicate Inv<I, V, E(!new)>(work: Work<I, V, E>, s: State<V, E>) {
    var n := |work.values|;
    && |s.results| == n && s.next <= n
    && s.claimed == seq(s.next, i requires 0 <= i => i)
    && (forall l :: 0 <= l < |s.lanes| && s.lanes[l].Busy? ==>
      s.lanes[l].index < s.next && s.results[s.lanes[l].index] == None)
    && (forall l, k :: 0 <= l < k < |s.lanes| && s.lanes[l].Busy? ==> s.lanes[k] != s.lanes[l])
    && (forall i :: 0 <= i < s.next ==> Accounted(work, s, i))
    && (forall i :: s.next <= i < n ==> s.results[i] == None)
    && (forall k :: 0 <= k < |s.caught| ==> ThrownBefore(work, s.next, s.caught[k]))
    && (s.Complete() && |s.lanes| > 0 ==> s.next == n || s.FirstError().Some?)
  }

  lemma InitInv<I, V, E(!new)>(work: Work<I, V, E>, concurrency: nat)
    ensures Inv(work, Init(work, concurrency))
  {
    var s := Init(work, concurrency);
    assert |s.lanes| > 0 ==> s.lanes[0] == Ready;
  }

  lemma ProceedKeeps<I, V, E(!new)>(work: Work<I, V, E>, s: State<V, E>, l: nat)
    requires Inv(work, s) && l < |s.lanes| && s.lanes[l] == Ready
    ensures Inv(work, Proceed(work, s, l))
  {
    var r := Proceed(work, s, l);
    assert r.Complete() ==> r.lanes[l] == Finished;
    forall i | 0 <= i < r.next ensures Accounted(work, r, i) {
      if i < s.next {
        assert Accounted(work, s, i);
        if Active(s, i) {
          var k :| 0 <= k < |s.lanes| && s.lanes[k] == Busy(i);
          assert r.lanes[k] == Busy(i);
        }
      } else {
        assert r.lanes[l] == Busy(i);
      }
    }
  }

  lemma RecordKeeps<I, V, E(!new)>(work: Work<I, V, E>, s: State<V, E>, l: nat)
    requires Inv(work, s) && l < |s.lanes| && s.lanes[l].Busy?
    ensures Inv(work, Record(work, s, l))
  {
    var r, at := Record(work, s, l), s.lanes[l].index;
    assert r.lanes[l] == Ready;
    forall k | 0 <= k < |r.lanes| && r.lanes[k].Busy? ensures r.lanes[k].index != at {
      if k < l { assert s.lanes[l] != s.lanes[k]; } else { assert s.lanes[k] != s.lanes[l]; }
    }
    forall i | 0 <= i < r.next ensures Accounted(work, r, i) {
      assert Accounted(work, s, i);
      if i != at && Active(s, i) {
        var k :| 0 <= k < |s.lanes| && s.lanes[k] == Busy(i);
        assert r.lanes[k] == Busy(i);
      }
    }
    forall k | 0 <= k < |r.caught| ensures ThrownBefore(work, r.next, r.caught[k]) {
      if k < |s.caught| { assert r.caught[k] == s.caught[k]; } else { assert work.Answer(at) == Threw(r.caught[k]); }
    }
  }

  lemma {:induction false} RunKeeps<I, V, E(!new)>(work: Work<I, V, E>, concurrency: nat, steps: seq<nat>)
    ensures var s := Run(work, Init(work, concurrency), steps);
      Inv(work, s) && |s.lanes| == LaneCount(|work.values|, concurrency)
    decreases |steps|
  {
    hide Inv;
    if |steps| == 0 {
      InitInv(work, concurrency);
    } else {
      RunKeeps(work, concurrency, steps[..|steps| - 1]);
      StepKeeps(work, Run(work, Init(work, concurrency), steps[..|steps| - 1]), steps[|steps| - 1]);
    }
  }

  lemma StepKeeps<I, V, E(!new)>(work: Work<I, V, E>, s: State<V, E>, l: nat)
    requires Inv(work, s)
    ensures Inv(work, Apply(work, s, l)) && |Apply(work, s, l).lanes| == |s.lanes|
  {
    if Enabled(work, s, l) {
      if s.lanes[l] == Ready {
        ProceedKeeps(work, s, l);
      } else {
        RecordKeeps(work, s, l);
        ProceedKeeps(work, Record(work, s, l), l);
      }
    }
  }

  // What every schedule guarantees -------------------------------------------------------------

  /** The claims are 0, 1, 2, ... without repetition, each by one lane; at most the allowed number of
      workers run at once, and none once the call concludes. */
  lemma {:induction false} ClaimsOnceInOrder<I, V, E(!new)>(work: Work<I, V, E>, concurrency: nat, steps: seq<nat>)
    ensures var s := Run(work, Init(work, concurrency), steps);
      && s.next <= |work.values| && s.claimed == seq(s.next, i requires 0 <= i => i)
      && |s.lanes| <= concurrency
      && (forall l, k :: 0 <= l < k < |s.lanes| && s.lanes[l].Busy? ==> s.lanes[k] != s.lanes[l])
      && (s.Complete() ==> forall i :: 0 <= i < |work.values| ==> !Active(s, i))
  {
    RunKeeps(work, concurrency, steps);
  }

  /** The call raises the last error caught, which some worker threw, and returns when no error was
      caught or the last one was undefined; if it returns, every index was claimed. */
  lemma {:induction false} ConcludesWithLastCaught<I, V, E(!new)>(
      work: Work<I, V, E>, concurrency: nat, steps: seq<nat>)
    requires ValidConcurrency(concurrency) && Run(work, Init(work, concurrency), steps).Complete()
    ensures var s := Run(work, Init(work, concurrency), steps);
      match Conclude(s)
      case Raised(error) =>
        && |s.caught| > 0 && s.caught[|s.caught| - 1] == Some(error)
        && exists i :: 0 <= i < |work.values| && work.Answer(i) == Threw(Some(error))
      case Results(_) =>
        && s.next == |work.values|
        && forall i :: 0 <= i < |work.values| && work.Answer(i).Threw? ==> None in s.caught
  {
    RunKeeps(work, concurrency, steps);
    var s := Run(work, Init(work, concurrency), steps);
    hide Run;
    if |s.caught| > 0 { assert ThrownBefore(work, s.next, s.caught[|s.caught| - 1]); }
    if Conclude(s).Results? {
      AllClaimed(work, s);
      if i :| 0 <= i < |work.values| && work.Answer(i).Threw? {
        assert Accounted(work, s, i);
        assert s.caught[|s.caught| - 1] in s.caught;
      }
    }
  }

  /** Without an error, the lanes finished because every index was claimed. */
  lemma AllClaimed<I, V, E(!new)>(work: Work<I, V, E>, s: State<V, E>)
    requires Inv(work, s) && s.Complete() && (|s.lanes| > 0 || |work.values| == 0)
    ensures s.next == |work.values| || s.FirstError().Some?
  {
  }

  /** Every complete schedule returns all the workers' values in order exactly when no worker throws. */
  lemma {:induction false} ReturnsAllValues<I, V, E(!new)>(work: Work<I, V, E>, concurrency: nat, steps: seq<nat>)
    requires ValidConcurrency(concurrency) && Run(work, Init(work, concurrency), steps).Complete()
    ensures (forall i :: 0 <= i < |work.values| ==> work.Answer(i).Returned?) <==>
      var s := Run(work, Init(work, concurrency), steps);
      && Conclude(s).Results? && |s.results| == |work.values|
      && forall i :: 0 <= i < |work.values| ==> s.results[i].Some? && work.Answer(i) == Returned(s.results[i].value)
  {
    RunKeeps(work, concurrency, steps);
    var s := Run(work, Init(work, concurrency), steps);
    hide Run;
    if forall i :: 0 <= i < |work.values| ==> work.Answer(i).Returned? {
      CaughtWasThrown(work, s);
      AllClaimed(work, s);
      forall i | 0 <= i < |work.values| ensures s.results[i].Some? && work.Answer(i) == Returned(s.results[i].value) {
        assert Accounted(work, s, i);
      }
    }
  }

  lemma CaughtWasThrown<I, V, E(!new)>(work: Work<I, V, E>, s: State<V, E>)
    requires Inv(work, s)
    ensures |s.caught| > 0 ==> exists i :: 0 <= i < |work.values| && work.Answer(i) == Threw(s.caught[0])
  {
    assert |s.caught| > 0 ==> ThrownBefore(work, s.next, s.caught[0]);
  }

  // Progress -----------------------------------------------------------------------------------

  function LaneWeight(lane: Lane): nat {
    match lane case Ready => 2 case Busy(_) => 1 case Finished => 0
  }

  function Weight(lanes: seq<Lane>): nat {
    if |lanes| == 0 then 0 else Weight(lanes[..|lanes| - 1]) + LaneWeight(lanes[|lanes| - 1])
  }

  function Left<I, V, E>(work: Work<I, V, E>, s: State<V, E>): nat
    requires s.next <= |work.values|
  {
    3 * (|work.values| - s.next) + Weight(s.lanes)
  }

  lemma {:induction false} WeightUpdate(lanes: seq<Lane>, l: nat, lane: Lane)
    requires l < |lanes|
    ensures Weight(lanes[l := lane]) == Weight(lanes) - LaneWeight(lanes[l]) + LaneWeight(lane)
  {
    var n := |lanes| - 1;
    if l < n {
      WeightUpdate(lanes[..n], l, lane);
      assert lanes[l := lane][..n] == lanes[..n][l := lane];
    } else {
      assert lanes[l := lane][..n] == lanes[..n];
    }
  }

  /** Every step brings the end nearer, and until the end some step is possible. */
  lemma {:induction false} StepsRunOut<I, V, E(!new)>(work: Work<I, V, E>, s: State<V, E>, l: nat)
    requires Inv(work, s)
    ensures Enabled(work, s, l) ==>
      Apply(work, s, l).next <= |work.values| && Left(work, Apply(work, s, l)) < Left(work, s)
    ensures !s.Complete() ==> exists k :: 0 <= k < |s.lanes| && Enabled(work, s, k)
  {
    if Enabled(work, s, l) {
      var r := Apply(work, s, l);
      WeightUpdate(s.lanes, l, r.lanes[l]);
      assert r.lanes == s.lanes[l := r.lanes[l]];
    }
    if !s.AllStarted() {
      var k := FirstReady(s.lanes);
      assert Enabled(work, s, k);
    } else if !s.Complete() {
      var k :| 0 <= k < |s.lanes| && s.lanes[k] != Finished;
      assert Enabled(work, s, k);
    }
  }

  lemma {:induction false} FirstReady(lanes: seq<Lane>) returns (l: nat)
    requires exists k :: 0 <= k < |lanes| && lanes[k] == Ready
    ensures l < |lanes| && lanes[l] == Ready && forall k :: 0 <= k < l ==> lanes[k] != Ready
  {
    l :| l < |lanes| && lanes[l] == Ready;
    if k :| 0 <= k < l && lanes[k] == Ready {
      l := FirstReady(lanes[..l]);
    }
  }

  // The scheduler at work ----------------------------------------------------------------------

  /** The shared variables of the lanes. */
  class Pool<I, V, E(!new)> {
    const work: Work<I, V, E>
    var state: State<V, E>

    constructor (work: Work<I, V, E>, concurrency: nat)
      ensures this.work == work && state == Init(work, concurrency)
    {
      this.work := work;
      state := Init(work, concurrency);
    }

    /** Runs the lanes to the end, each time letting any lane go on that may. */
    method RunLanes(concurrency: nat) returns (outcome: Outcome<V, E>, ghost steps: seq<nat>)
      requires state == Init(work, concurrency)
      modifies this
      ensures state == Run(work, old(state), steps) && state.Complete() && outcome == Conclude(state)
    {
      steps := [];
      InitInv(work, concurrency);
      while !state.Complete()
        invariant state == Run(work, old(state), steps) && Inv(work, state)
        decreases Left(work, state)
      {
        StepsRunOut(work, state, 0);
        var l :| 0 <= l < |state.lanes| && Enabled(work, state, l);
        StepsRunOut(work, state, l);
        StepKeeps(work, state, l);
        assert (steps + [l])[..|steps|] == steps;
        steps := steps + [l];
        state := Apply(work, state, l);
      }
      outcome := Conclude(state);
    }
  }

  // Batches ------------------------------------------------------------------------------------

  function Map<I, V>(f: I -> V, values: seq<I>): (r: seq<V>)
    ensures |r| == |values| && forall i :: 0 <= i < |values| ==> r[i] == f(values[i])
  {
    seq(|values|, i requires 0 <= i < |values| => f(values[i]))
  }

  lemma {:induction false} FlattenMap<I, V>(f: I -> V, batches: seq<seq<I>>, mapped: seq<seq<V>>)
    requires |mapped| == |batches| && forall b :: 0 <= b < |batches| ==> mapped[b] == Map(f, batches[b])
    ensures Flatten(mapped) == Map(f, Flatten(batches))
  {
    if |batches| > 0 {
      FlattenMap(f, batches[1..], mapped[1..]);
      assert Map(f, batches[0] + Flatten(batches[1..])) == Map(f, batches[0]) + Map(f, Flatten(batches[1..]));
    }
  }

  /** The results as the call returns them, each index filled. */
  function Filled<V>(results: seq<Option<seq<V>>>): (filled: seq<seq<V>>)
    ensures |filled| == |results|
  {
    seq(|results|, b requires 0 <= b < |results| => results[b].GetOr([]))
  }

  /** Batching, mapping the batches concurrently under any schedule and flattening the results is
      mapping the values in order. */
  lemma {:induction false} ConcurrentBatchesAreMap<I, V, E(!new)>(
      f: I -> V, values: seq<I>, size: nat, work: Work<seq<I>, seq<V>, E>, concurrency: nat, steps: seq<nat>)
    requires size > 0 && ValidConcurrency(concurrency) && work.values == BatchesOf(values, size)
    requires forall b :: 0 <= b < |work.values| ==> work.Answer(b) == Returned(Map(f, work.values[b]))
    requires Run(work, Init(work, concurrency), steps).Complete()
    ensures var s := Run(work, Init(work, concurrency), steps);
      Conclude(s) == Results(s.results) && Flatten(Filled(s.results)) == Map(f, values)
  {
    RunKeeps(work, concurrency, steps);
    ReturnsAllValues(work, concurrency, steps);
    var results := Run(work, Init(work, concurrency), steps).results;
    FlattenMap(f, work.values, Filled(results));
    FlattenBatches(values, size);
  }
}
