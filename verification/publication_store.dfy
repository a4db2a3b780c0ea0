/** The transactions of the publisher as they run: each loops over its batch inside a transaction
    and either commits all of its writes or none. */
module PublicationStore {
  import opened Contracts
  import opened Publication

  class PayloadStore {
    var db: Db

    constructor (initial: Db)
      ensures db == initial
    {
      db := initial;
    }

    /** Stores one batch of projections, returning the new row ids by projection id. */
    method PersistTransaction(version: nat, batch: seq<PageProjection>) returns (rows: Option<map<string, nat>>)
      modifies this
      ensures match PersistBatch(old(db), version, batch)
              case Some(r) => rows == Some(r.rows) && db == r.db
              case None => rows == None && db == old(db)
    {
      var tx := Persisted(db, map[]);
      for i := 0 to |batch|
        invariant PersistBatch(old(db), version, batch[..i]) == Some(tx)
        invariant db == old(db)
      {
        assert batch[..i + 1][..i] == batch[..i];
        match PersistOne(tx, version, batch[i]) {
          case None =>
            PersistFails(db, version, batch, i + 1);
            return None;
          case Some(next) =>
            tx := next;
        }
      }
      assert batch[..|batch|] == batch;
      db := tx.db;
      rows := Some(tx.rows);
    }

    /** Writes the bindings of one batch. */
    method BindTransaction(version: nat, rows: map<string, nat>, batch: seq<PageProjection>) returns (committed: bool)
      modifies this
      ensures committed == BindBatch(old(db), version, rows, batch).Some?
      ensures db == if committed then BindBatch(old(db), version, rows, batch).value else old(db)
    {
      var tx := db;
      for i := 0 to |batch|
        invariant BindBatch(old(db), version, rows, batch[..i]) == Some(tx)
        invariant db == old(db)
      {
        assert batch[..i + 1][..i] == batch[..i];
        match BindOne(tx, version, rows, batch[i]) {
          case None =>
            BindFails(db, version, rows, batch, i + 1);
            return false;
          case Some(next) =>
            tx := next;
        }
      }
      assert batch[..|batch|] == batch;
      db := tx;
      committed := true;
    }
  }

  /** A prefix that cannot be stored makes the whole batch roll back. */
  lemma {:induction false} PersistFails(db: Db, version: nat, batch: seq<PageProjection>, n: nat)
    requires n <= |batch| && PersistBatch(db, version, batch[..n]).None?
    ensures PersistBatch(db, version, batch).None?
    decreases |batch|
  {
    if n < |batch| {
      var front := batch[..|batch| - 1];
      assert front[..n] == batch[..n];
      PersistFails(db, version, front, n);
    } else {
      assert batch[..n] == batch;
    }
  }

  lemma {:induction false} BindFails(db: Db, version: nat, rows: map<string, nat>, batch: seq<PageProjection>, n: nat)
    requires n <= |batch| && BindBatch(db, version, rows, batch[..n]).None?
    ensures BindBatch(db, version, rows, batch).None?
    decreases |batch|
  {
    if n < |batch| {
      var front := batch[..|batch| - 1];
      assert front[..n] == batch[..n];
      BindFails(db, version, rows, front, n);
    } else {
      assert batch[..n] == batch;
    }
  }
}
