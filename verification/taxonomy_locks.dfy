/** Row locks while linking: transactions of the lanes and of outside writers, interleaved statement
    by statement, lose no reference that a committed transaction added. */
module TaxonomyLocks {
  import opened Contracts

  /** One statement group of a transaction: lock the artifact, read its references, write them back
      with more. */
  datatype Addition = Addition(artifact: nat, nodes: set<string>)

  datatype Outcome = Running | Committed | RolledBack

  /** A transaction and how far it is; `pending` are its own uncommitted writes and `seen` the
      references it has read for its current addition. */
  datatype Transaction = Transaction(
    work: seq<Addition>, next: nat, seen: Option<set<string>>, pending: map<nat, set<string>>, outcome: Outcome)

  /** Committed references by artifact, and which transaction holds each artifact's row lock. */
  datatype State = State(refs: map<nat, set<string>>, holders: map<nat, nat>, transactions: seq<Transaction>)

  datatype Action = Lock | Read | Write | Commit | Rollback

  datatype Step = Step(transaction: nat, action: Action)

  function Refs(refs: map<nat, set<string>>, artifact: nat): set<string> {
    if artifact in refs then refs[artifact] else {}
  }

  predicate Holds(s: State, t: nat, artifact: nat) {
    artifact in s.holders && s.holders[artifact] == t
  }

  function Release(holders: map<nat, nat>, t: nat): map<nat, nat> {
    map a | a in holders && holders[a] != t :: holders[a]
  }

  /** SELECT ... FOR UPDATE waits for the holder; the other statements need the lock when `locking`,
      which is how the source runs inside a transaction. */
  function Apply(s: State, step: Step, locking: bool): State {
    var t := step.transaction;
    if t >= |s.transactions| || s.transactions[t].outcome != Running then s
    else
      var tx := s.transactions[t];
      match step.action
      case Rollback => s.(holders :=
        Release(s.holders, t), transactions := s.transactions[t := tx.(outcome := RolledBack)])
      case Commit =>
        if tx.next < |tx.work| then s
        else State(s.refs + tx.pending, Release(s.holders, t), s.transactions[t := tx.(outcome := Committed)])
      case Lock =>
        if tx.next < |tx.work| && tx.work[tx.next].artifact !in s.holders
        then s.(holders := s.holders[tx.work[tx.next].artifact := t])
        else s
      case Read =>
        if tx.next < |tx.work| && (Holds(s, t, tx.work[tx.next].artifact) || !locking)
        then
          var a := tx.work[tx.next].artifact;
          var seen := if a in tx.pending then tx.pending[a] else Refs(s.refs, a);
          s.(transactions := s.transactions[t := tx.(seen := Some(seen))])
        else s
      case Write =>
        if tx.next < |tx.work| && tx.seen.Some?
        then
          var addition := tx.work[tx.next];
          s.(transactions := s.transactions[t := tx.(
            next := tx.next + 1, seen :=
              None, pending := tx.pending[addition.artifact := tx.seen.value + addition.nodes])])
        else s
  }

  function Run(s: State, steps: seq<Step>, locking: bool): State {
    if |steps| == 0 then s else Apply(Run(s, steps[..|steps| - 1], locking), steps[|steps| - 1], locking)
  }

  function Start(work: seq<Addition>): Transaction { Transaction(work, 0, None, map[], Running) }

  function Init(refs: map<nat, set<string>>, works: seq<seq<Addition>>): (s: State)
    ensures |s.transactions| == |works| && forall t :: 0 <= t < |works| ==> s.transactions[t] == Start(works[t])
  {
    State(refs, map[], seq(|works|, t requires 0 <= t < |works| => Start(works[t])))
  }

  /** Everything the first n additions of a transaction add to an artifact. */
  function Added(work: seq<Addition>, n: nat, artifact: nat): set<string>
    requires n <= |work|
  {
    if n == 0 then {}
    else Added(work, n - 1, artifact) + if work[n - 1].artifact == artifact then work[n - 1].nodes else {}
  }

  /** Everything the committed ones of the first n transactions add to an artifact. */
  function CommittedAdds(transactions: seq<Transaction>, n: nat, artifact: nat): set<string>
    requires n <= |transactions|
  {
    if n == 0 then {}
    else
      var tx := transactions[n - 1];
      CommittedAdds(transactions, n - 1, artifact) + if tx.outcome ==
        Committed then Added(tx.work, |tx.work|, artifact) else {}
  }

  // The invariant ------------------------------------------------------------------------------

  /** A running transaction holds the lock of everything it has read or written, and its writes are
      the committed references with its own additions. */
  ghost predicate Current(s: State, t: nat)
    requires t < |s.transactions|
  {
    var tx := s.transactions[t];
    && tx.next <= |tx.work|
    && (tx.outcome == Running ==>
          && (forall a :: a in tx.pending ==>
                Holds(s, t, a) && tx.pending[a] == Refs(s.refs, a) + Added(tx.work, tx.next, a))
          && (forall a :: a !in tx.pending ==> Added(tx.work, tx.next, a) == {})
          && (tx.seen.Some? ==> tx.next < |tx.work| && SawCurrent(s, t, tx, tx.work[tx.next].artifact)))
  }

  ghost predicate SawCurrent(s: State, t: nat, tx: Transaction, artifact: nat)
    requires tx.seen.Some? && tx.next <= |tx.work|
  {
    Holds(s, t, artifact) && tx.seen.value == Refs(s.refs, artifact) + Added(tx.work, tx.next, artifact)
  }

  ghost predicate Exact(initial: map<nat, set<string>>, s: State) {
    forall a :: Refs(s.refs, a) == Refs(initial, a) + CommittedAdds(s.transactions, |s.transactions|, a)
  }

  ghost predicate Inv(initial: map<nat, set<string>>, works: seq<seq<Addition>>, s: State) {
    && |s.transactions| == |works|
    && (forall t :: 0 <= t < |works| ==> s.transactions[t].work == works[t] && Current(s, t))
    && Exact(initial, s)
  }

  lemma {:induction false} NoneCommitted(transactions: seq<Transaction>, n: nat, a: nat)
    requires n <= |transactions| && forall t :: 0 <= t < n ==> transactions[t].outcome != Committed
    ensures CommittedAdds(transactions, n, a) == {}
  {
    if n > 0 { NoneCommitted(transactions, n - 1, a); }
  }

  /** A step that commits nothing leaves what the committed ones add. */
  lemma {:induction false} SameCommitted(before: seq<Transaction>, after: seq<Transaction>, n: nat, a: nat)
    requires n <= |before| == |after|
    requires forall t :: 0 <= t < n ==>
      before[t].work == after[t].work && (before[t].outcome == Committed <==> after[t].outcome == Committed)
    ensures CommittedAdds(before, n, a) == CommittedAdds(after, n, a)
  {
    if n > 0 { SameCommitted(before, after, n - 1, a); }
  }

  /** A commit adds what its transaction adds. */
  lemma {:induction false} OneMoreCommitted(before: seq<Transaction>, after: seq<Transaction>, t: nat, n: nat, a: nat)
    requires t < n <= |before| == |after| && after == before[t := after[t]]
    requires before[t].work == after[t].work && before[t].outcome != Committed && after[t].outcome == Committed
    ensures CommittedAdds(after, n, a) == CommittedAdds(before, n, a) + Added(after[t].work, |after[t].work|, a)
  {
    if n - 1 == t { SameCommitted(before, after, n - 1, a); } else { OneMoreCommitted(before, after, t, n - 1, a); }
  }

  lemma UncommittedKeeps(initial: map<nat, set<string>>, s: State, r: State, t: nat)
    requires Exact(initial, s) && r.refs == s.refs && t < |s.transactions| == |r.transactions|
    requires r.transactions == s.transactions || r.transactions == s.transactions[t := r.transactions[t]]
    requires r.transactions[t].work == s.transactions[t].work
    requires s.transactions[t].outcome != Committed && r.transactions[t].outcome != Committed
    ensures Exact(initial, r)
  {
    forall a ensures Refs(r.refs, a) == Refs(initial, a) + CommittedAdds(r.transactions, |r.transactions|, a) {
      SameCommitted(s.transactions, r.transactions, |s.transactions|, a);
    }
  }

  lemma CommitExact(initial: map<nat, set<string>>, s: State, t: nat)
    requires Exact(initial, s) && t < |s.transactions| && Current(s, t)
    requires s.transactions[t].outcome == Running && s.transactions[t].next == |s.transactions[t].work|
    ensures Exact(initial, Apply(s, Step(t, Commit), true))
  {
    var tx, r := s.transactions[t], Apply(s, Step(t, Commit), true);
    forall a ensures Refs(r.refs, a) == Refs(initial, a) + CommittedAdds(r.transactions, |r.transactions|, a) {
      OneMoreCommitted(s.transactions, r.transactions, t, |s.transactions|, a);
      assert Refs(r.refs, a) == Refs(s.refs, a) + Added(tx.work, tx.next, a);
    }
  }

  /** The other transactions do not notice a step: what they hold, nobody else writes. */
  lemma OthersStayCurrent(s: State, step: Step, u: nat)
    requires step.transaction < |s.transactions| && u < |s.transactions| && u != step.transaction
    requires Current(s, u) && Current(s, step.transaction)
    ensures Current(Apply(s, step, true), u)
  {
    hide Added;
    var r, t := Apply(s, step, true), step.transaction;
    assert r.transactions[u] == s.transactions[u];
    if r != s {
      forall a | Holds(s, u, a) ensures Holds(r, u, a) && Refs(r.refs, a) == Refs(s.refs, a) {
        if step.action == Commit { assert a in s.transactions[t].pending ==> Holds(s, t, a); }
      }
    }
  }

  lemma WriterStaysCurrent(s: State, step: Step)
    requires step.transaction < |s.transactions| && Current(s, step.transaction)
    ensures Current(Apply(s, step, true), step.transaction)
  {
    var r, t := Apply(s, step, true), step.transaction;
    var tx := s.transactions[t];
    if step.action == Write && tx.outcome == Running && tx.seen.Some? {
      WriteStaysCurrent(s, t);
    } else {
      hide Added;
      assert step.action == Lock ==> r.transactions == s.transactions;
    }
  }

  lemma WriteStaysCurrent(s: State, t: nat)
    requires t < |s.transactions| && Current(s, t) && s.transactions[t].outcome == Running
    requires s.transactions[t].seen.Some?
    ensures Current(Apply(s, Step(t, Write), true), t)
  {
    var tx, r := s.transactions[t], Apply(s, Step(t, Write), true);
    var work, n := tx.work, tx.next;
    assert r.refs == s.refs && r.holders == s.holders;
    forall a ensures Added(work, n + 1, a) == Added(work, n, a) + if work[n].artifact == a then work[n].nodes else {} {
    }
    hide Added;
    var q := r.transactions[t];
    assert q.pending == tx.pending[work[n].artifact := tx.seen.value + work[n].nodes];
  }

  lemma StepKeeps(initial: map<nat, set<string>>, works: seq<seq<Addition>>, s: State, step: Step)
    requires Inv(initial, works, s)
    ensures Inv(initial, works, Apply(s, step, true))
  {
    var r, t := Apply(s, step, true), step.transaction;
    if r != s {
      forall u | 0 <= u < |works| ensures r.transactions[u].work == works[u] && Current(r, u) {
        if u == t { WriterStaysCurrent(s, step); } else { OthersStayCurrent(s, step, u); }
      }
      if step.action == Commit { CommitExact(initial, s, t); } else { UncommittedKeeps(initial, s, r, t); }
    }
  }

  lemma InitInv(initial: map<nat, set<string>>, works: seq<seq<Addition>>)
    ensures Inv(initial, works, Init(initial, works))
  {
    var s := Init(initial, works);
    forall a ensures CommittedAdds(s.transactions, |s.transactions|, a) ==
      {} { NoneCommitted(s.transactions, |s.transactions|, a); }
  }

  lemma {:induction false} RunKeeps(initial: map<nat, set<string>>, works: seq<seq<Addition>>, steps: seq<Step>)
    ensures Inv(initial, works, Run(Init(initial, works), steps, true))
    decreases |steps|
  {
    hide Inv;
    if |steps| == 0 {
      InitInv(initial, works);
    } else {
      var n := |steps| - 1;
      RunKeeps(initial, works, steps[..n]);
      StepKeeps(initial, works, Run(Init(initial, works), steps[..n], true), steps[n]);
    }
  }

  /** Under row locks, every schedule of any number of transactions ends with each artifact holding
      exactly its first references and everything the committed transactions added. */
  lemma {:induction false} NoLostUpdates(initial: map<nat, set<string>>, works: seq<seq<Addition>>, steps: seq<Step>,
      artifact: nat)
    ensures var s := Run(Init(initial, works), steps, true);
      Refs(s.refs, artifact) == Refs(initial, artifact) + CommittedAdds(s.transactions, |s.transactions|, artifact)
  {
    hide Current;
    RunKeeps(initial, works, steps);
  }

  /** References only grow from one point of a schedule to a later one. */
  lemma {:induction false} RefsOnlyGrow(initial: map<nat, set<string>>, works: seq<seq<Addition>>, steps: seq<Step>,
      n: nat, artifact: nat)
    requires n <= |steps|
    ensures Refs(Run(Init(initial, works), steps[..n], true).refs,
      artifact) <= Refs(Run(Init(initial, works), steps, true).refs, artifact)
    decreases |steps|
  {
    if n == |steps| {
      assert steps[..n] == steps;
    } else {
      var k := |steps| - 1;
      assert steps[..k][..n] == steps[..n];
      RefsOnlyGrow(initial, works, steps[..k], n, artifact);
      RunKeeps(initial, works, steps[..k]);
      StepGrows(initial, works, Run(Init(initial, works), steps[..k], true), steps[k], artifact);
    }
  }

  lemma StepGrows(initial: map<nat, set<string>>, works: seq<seq<Addition>>, s: State, step: Step, a: nat)
    requires Inv(initial, works, s)
    ensures Refs(s.refs, a) <= Refs(Apply(s, step, true).refs, a)
  {
    hide Added, Exact;
    if step.transaction < |s.transactions| { assert Current(s, step.transaction); }
  }

  // Without the locks --------------------------------------------------------------------------

  /** Two transactions that read before either writes. */
  const RACE: seq<Step> := [Step(0, Read), Step(1, Read), Step(0, Write), Step(1, Write), Step(0, Commit), Step(1, Commit)]

  function Racer(x: string, steps: nat): Transaction {
    var work := [Addition(0, {x})];
    if steps == 0 then Start(work)
    else if steps == 1 then Transaction(work, 0, Some({}), map[], Running)
    else Transaction(work, 1, None, map[0 := {x}], if steps == 2 then Running else Committed)
  }

  /** The race, n steps in. */
  function RaceState(x: string, y: string, n: nat): State {
    State(if n < 5 then map[] else if n == 5 then map[0 := {x}] else map[0 := {y}], map[],
          [Racer(x, (n + 1) / 2), Racer(y, n / 2)])
  }

  lemma RaceStep(x: string, y: string, n: nat)
    requires n < 6
    ensures Apply(RaceState(x, y, n), RACE[n], false) == RaceState(x, y, n + 1)
  {
    var s, r := RaceState(x, y, n), RaceState(x, y, n + 1);
    assert {} + {x} == {x} && {} + {y} == {y};
    assert Release(map[], RACE[n].transaction) == map[];
    assert s.transactions[n % 2 := r.transactions[n % 2]] == r.transactions;
  }

  lemma {:induction false} RaceRun(x: string, y: string, n: nat)
    requires n <= 6
    ensures Run(RaceState(x, y, 0), RACE[..n], false) == RaceState(x, y, n)
  {
    hide RaceState, Apply;
    if n > 0 {
      RaceRun(x, y, n - 1);
      RaceStep(x, y, n - 1);
      assert RACE[..n][..n - 1] == RACE[..n - 1];
    }
  }

  /** The locks are needed: without them both transactions commit and one addition is lost. */
  lemma {:induction false} LostWithoutLocks(x: string, y: string)
    requires x != y
    ensures var s := Run(Init(map[], [[Addition(0, {x})], [Addition(0, {y})]]), RACE, false);
      && |s.transactions| == 2 && s.transactions[0].outcome == s.transactions[1].outcome == Committed
      && x in CommittedAdds(s.transactions, 2, 0) && x !in Refs(s.refs, 0)
  {
    var s := RaceState(x, y, 6);
    assert Init(map[], [[Addition(0, {x})], [Addition(0, {y})]]) == RaceState(x, y, 0);
    assert RACE[..6] == RACE;
    RaceRun(x, y, 6);
    assert x in Added([Addition(0, {x})], 1, 0);
    assert x in CommittedAdds(s.transactions, 1, 0);
  }
}
