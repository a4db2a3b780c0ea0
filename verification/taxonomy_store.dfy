/** The loops and transactions of ingress as they run: a transaction works through its plans or its
    batch and commits all of its writes or none. */
module TaxonomyStore {
  import opened Contracts
  import opened Taxonomy

  /** The target list, extended plan by plan and artifact by artifact. */
  method CollectTargets(plans: seq<Plan>) returns (targets: seq<Target>)
    ensures targets == TargetsOf(plans)
  {
    targets := [];
    for p := 0 to |plans|
      invariant targets == TargetsOf(plans[..p])
    {
      ghost var before := targets;
      var ids := plans[p].artifacts;
      for k := 0 to |ids|
        invariant targets == AddPlan(before, ids[..k], plans[p].assignment)
      {
        assert ids[..k + 1][..k] == ids[..k];
        targets := AddTarget(targets, ids[k], plans[p].assignment);
      }
      assert ids[..|ids|] == ids;
      assert plans[..p + 1][..p] == plans[..p];
    }
    assert plans[..|plans|] == plans;
  }

  class Ingress {
    var db: Db

    constructor (initial: Db)
      ensures db == initial
    {
      db := initial;
    }

    method StageTransaction(m: Manifest, plans: seq<Plan>) returns (committed: bool)
      modifies this
      ensures committed == StageAll(m, old(db), plans).Some?
      ensures db == StageAll(m, old(db), plans).GetOr(old(db))
    {
      var tx := db;
      for i := 0 to |plans|
        invariant StageAll(m, old(db), plans[..i]) == Some(tx) && db == old(db)
      {
        assert plans[..i + 1][..i] == plans[..i];
        match StageOne(m, tx, plans[i]) {
          case None =>
            StageFails(m, db, plans, i + 1);
            return false;
          case Some(next) =>
            tx := next;
        }
      }
      assert plans[..|plans|] == plans;
      db := tx;
      committed := true;
    }

    method LinkTransaction(batch: seq<Target>) returns (committed: bool)
      modifies this
      ensures committed == LinkBatch(old(db), batch).Some?
      ensures db == LinkBatch(old(db), batch).GetOr(old(db))
    {
      var tx := db;
      for i := 0 to |batch|
        invariant LinkBatch(old(db), batch[..i]) == Some(tx) && db == old(db)
      {
        assert batch[..i + 1][..i] == batch[..i];
        match LinkOne(tx, batch[i]) {
          case None =>
            LinkFails(db, batch, i + 1);
            return false;
          case Some(next) =>
            tx := next;
        }
      }
      assert batch[..|batch|] == batch;
      db := tx;
      committed := true;
    }

    method PromoteTransaction(m: Manifest, plans: seq<Plan>) returns (committed: bool)
      modifies this
      ensures committed == PromoteAll(m, old(db), plans).Some?
      ensures db == PromoteAll(m, old(db), plans).GetOr(old(db))
    {
      var tx := db;
      for i := 0 to |plans|
        invariant PromoteAll(m, old(db), plans[..i]) == Some(tx) && db == old(db)
      {
        assert plans[..i + 1][..i] == plans[..i];
        match PromoteOne(m, tx, plans[i]) {
          case None =>
            PromoteFails(m, db, plans, i + 1);
            return false;
          case Some(next) =>
            tx := next;
        }
      }
      assert plans[..|plans|] == plans;
      db := tx;
      committed := true;
    }
  }

  /** A transaction whose first n writes already fail rolls back as a whole. */
  lemma {:induction false} StageFails(m: Manifest, db: Db, plans: seq<Plan>, n: nat)
    requires n <= |plans| && StageAll(m, db, plans[..n]).None?
    ensures StageAll(m, db, plans).None?
    decreases |plans|
  {
    hide StageOne;
    if n < |plans| {
      var front := plans[..|plans| - 1];
      assert front[..n] == plans[..n];
      StageFails(m, db, front, n);
    } else {
      assert plans[..n] == plans;
    }
  }

  lemma {:induction false} LinkFails(db: Db, batch: seq<Target>, n: nat)
    requires n <= |batch| && LinkBatch(db, batch[..n]).None?
    ensures LinkBatch(db, batch).None?
    decreases |batch|
  {
    hide LinkOne;
    if n < |batch| {
      var front := batch[..|batch| - 1];
      assert front[..n] == batch[..n];
      LinkFails(db, front, n);
    } else {
      assert batch[..n] == batch;
    }
  }

  lemma {:induction false} PromoteFails(m: Manifest, db: Db, plans: seq<Plan>, n: nat)
    requires n <= |plans| && PromoteAll(m, db, plans[..n]).None?
    ensures PromoteAll(m, db, plans).None?
    decreases |plans|
  {
    hide PromoteOne;
    if n < |plans| {
      var front := plans[..|plans| - 1];
      assert front[..n] == plans[..n];
      PromoteFails(m, db, front, n);
    } else {
      assert plans[..n] == plans;
    }
  }
}
