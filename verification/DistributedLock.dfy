/** The advisory lock: a lock is the number its key hashes to, and a database session holds it. */
module DistributedLock {
  import opened LockHash

  type Session = nat

  /** pg_try_advisory_lock counts how often one session has taken a lock. */
  datatype Holding = Holding(session: Session, depth: nat)

  class DistributedLockAdapter {
    var held: map<nat, Holding>

    constructor ()
      ensures held == map[]
    {
      held := map[];
    }

    /** Taking a lock fails only when another session holds it, under this key or one with the same hash. */
    method AcquireLock(session: Session, lockKey: Key) returns (acquired: bool)
      modifies this
      ensures acquired == !HeldByOther(old(held), session, HashOf(lockKey))
      ensures held == if acquired then Taken(old(held), session, HashOf(lockKey)) else old(held)
    {
      var lockId := HashKeyToInt64(lockKey);
      if lockId in held && held[lockId].session != session {
        return false;
      }
      var depth := if lockId in held then held[lockId].depth else 0;
      held := held[lockId := Holding(session, depth + 1)];
      return true;
    }

    /** Only the holding session releases a lock; anyone else is told it did not hold it. */
    method ReleaseLock(session: Session, lockKey: Key) returns (released: bool)
      modifies this
      ensures released == HeldBy(old(held), session, HashOf(lockKey))
      ensures held == if released then Freed(old(held), HashOf(lockKey)) else old(held)
    {
      var lockId := HashKeyToInt64(lockKey);
      if lockId !in held || held[lockId].session != session {
        return false;
      }
      var depth := held[lockId].depth;
      if depth <= 1 {
        held := held - {lockId};
      } else {
        held := held[lockId := Holding(session, depth - 1)];
      }
      return true;
    }
  }

  predicate HeldBy(held: map<nat, Holding>, session: Session, lockId: nat) {
    lockId in held && held[lockId].session == session
  }

  predicate HeldByOther(held: map<nat, Holding>, session: Session, lockId: nat) {
    lockId in held && held[lockId].session != session
  }

  function Taken(held: map<nat, Holding>, session: Session, lockId: nat): map<nat, Holding> {
    held[lockId := Holding(session, (if lockId in held then held[lockId].depth else 0) + 1)]
  }

  function Freed(held: map<nat, Holding>, lockId: nat): map<nat, Holding>
    requires lockId in held
  {
    if held[lockId].depth <= 1 then held - {lockId} else held[lockId := held[lockId].(depth := held[lockId].depth - 1)]
  }

  /** Every lock that is held has been taken at least once. */
  predicate CountsRight(held: map<nat, Holding>) {
    forall lockId :: lockId in held ==> held[lockId].depth >= 1
  }

  /** Releasing undoes acquiring: the session holds the lock in between, no other session can take it, and
      afterwards every lock is as it was. */
  lemma ReleaseUndoesAcquire(held: map<nat, Holding>, session: Session, lockId: nat)
    requires CountsRight(held) && !HeldByOther(held, session, lockId)
    ensures var taken := Taken(held, session, lockId);
      && CountsRight(taken) && HeldBy(taken, session, lockId)
      && (forall other :: other != session ==> HeldByOther(taken, other, lockId))
      && Freed(taken, lockId) == held
  {
    assert forall other :: HeldByOther(Taken(held, session, lockId), other, lockId) <==> other != session;
  }
}
