/** Transaction life cycle: begin, commit, rollback (txn/txn.go). */
module Transactions {
  import opened Recovery
  import opened BufferPools
  import opened Locks

  datatype TxnState = TxnActive | TxnCommitted | TxnAborted

  class Txn {
    const id: Recovery.TxnId
    var state: TxnState

    constructor (id: Recovery.TxnId)
      ensures this.id == id && state == TxnActive
    {
      this.id, state := id, TxnActive;
    }
  }

  class TxnManager {
    const pool: BufferPool
    const lockMgr: LockManager
    var nextID: Recovery.TxnId
    var active: set<Recovery.TxnId>

    /** The transactions in progress are exactly those a recovery from here would undo. */
    ghost predicate Valid()
      reads this, pool, lockMgr
    {
      && pool.Valid() && pool.logging && lockMgr.Valid()
      && Active(pool.log) == active
      && forall t :: t in active ==> t < nextID
    }

    constructor (pool: BufferPool)
      requires pool.Valid() && pool.logging && Active(pool.log) == {}
      ensures Valid() && this.pool == pool && fresh(lockMgr) && active == {} && lockMgr.locks == map[]
    {
      this.pool, nextID, active := pool, 1, {};
      lockMgr := new LockManager();
    }

    method Begin() returns (txn: Txn)
      requires Valid()
      modifies this, pool`log
      ensures Valid() && fresh(txn) && txn.state == TxnActive && txn.id == old(nextID) && txn.id !in old(active)
      ensures active == old(active) + {txn.id} && nextID == old(nextID) + 1
      ensures pool.log == old(pool.log) + [Recovery.Begin(txn.id)]
      ensures lockMgr.locks == old(lockMgr.locks)
    {
      hide BufferPool.Valid;
      txn := new Txn(nextID);
      EndOfLog(pool.log, Recovery.Begin(txn.id));
      pool.LogRecord(Recovery.Begin(txn.id));
      active := active + {txn.id};
      nextID := nextID + 1;
    }

    /** Logs the commit and lets go of all locks; an ended transaction is refused. */
    method Commit(txn: Txn) returns (ok: bool)
      requires Valid()
      modifies this, txn, pool`log, lockMgr
      ensures Valid() && (ok <==> old(txn.state) == TxnActive)
      ensures ok ==> txn.state == TxnCommitted && active == old(active) - {txn.id}
                     && pool.log == old(pool.log) + [Recovery.Commit(txn.id)]
                     && LetGo(old(lockMgr.locks), lockMgr.locks, txn.id)
      ensures !ok ==> txn.state == old(txn.state) && active == old(active) && pool.log == old(pool.log)
                      && lockMgr.locks == old(lockMgr.locks)
    {
      hide BufferPool.Valid;
      if txn.state != TxnActive { return false; }
      EndOfLog(pool.log, Recovery.Commit(txn.id));
      pool.LogRecord(Recovery.Commit(txn.id));
      lockMgr.ReleaseAll(txn.id);
      txn.state := TxnCommitted;
      active := active - {txn.id};
      return true;
    }

    /** Restores the pages the transaction dirtied, logs the abort and lets go of all locks. */
    method Rollback(txn: Txn) returns (ok: bool)
      requires Valid()
      modifies this, txn, pool, lockMgr
      ensures Valid() && (ok <==> old(txn.state) == TxnActive)
      ensures ok ==> txn.state == TxnAborted && active == old(active) - {txn.id}
                     && pool.log == old(pool.log) + [Abort(txn.id)]
                     && LetGo(old(lockMgr.locks), lockMgr.locks, txn.id)
                     && pool.disk == old(pool.disk)
      ensures ok ==> forall q :: q in pool.disk ==>
        pool.Content(q) == if q in old(pool.dirtyTxn)
            && old(pool.dirtyTxn)[q] == txn.id then pool.disk[q] else old(pool.Content(q))
      ensures !ok
              ==> txn.state == old(txn.state) && active == old(active) && lockMgr.locks == old(lockMgr.locks)
                  && unchanged(pool)
    {
      hide BufferPool.Valid, BufferPool.Content;
      if txn.state != TxnActive { return false; }
      pool.RollbackTxn(txn.id);
      EndOfLog(pool.log, Abort(txn.id));
      pool.LogRecord(Abort(txn.id));
      lockMgr.ReleaseAll(txn.id);
      txn.state := TxnAborted;
      active := active - {txn.id};
      return true;
    }
  }

  /** Every table the transaction held has been released, no other table has changed. */
  ghost predicate LetGo(before: map<Table, Entry>, after: map<Table, Entry>, t: Locks.TxnId) {
    after.Keys == before.Keys
    && forall table :: table in after ==>
         after[table] == if t in before[table].holders then Released(before[table], t) else before[table]
  }

  lemma {:induction false} EndOfLog(log: Log, r: Record)
    ensures r.Begin? ==> Active(log + [r]) == Active(log) + {r.txn}
    ensures r.Commit? || r.Abort? ==> Active(log + [r]) == Active(log) - {r.txn}
  {
    assert Init(log + [r]) == log && Tail(log + [r]) == r;
  }
}
