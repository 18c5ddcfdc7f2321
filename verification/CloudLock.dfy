/**
 The Delta-backed advisory lock with a time-to-live (`cloud_pipeline_lock`). Every method is one atomic step of some
 process, and time may pass between any two; a merge and the read that confirms it are separate steps.
 */
module CloudLock {
  import opened Prelude

  datatype LockRow = LockRow(owner: int, expiresAt: int)

  class Lock {
    const ttl: int
    var now: int
    /** The single row of the lock table. */
    var row: Option<LockRow>
    /** Processes that confirmed the lock and have not released it, with the expiry they confirmed. */
    var inside: map<int, int>

    /** Whoever is inside and not expired owns the row. */
    ghost predicate Valid()
      reads this
    {
      && ttl > 0
      && (forall p :: p in inside && now < inside[p] ==> row == Some(LockRow(p, inside[p])))
    }

    constructor (ttl: int)
      requires ttl > 0
      ensures Valid() && inside == map[] && row == None && this.ttl == ttl
    {
      this.ttl, now, row, inside := ttl, 0, None, map[];
    }

    method Tick(elapsed: nat)
      requires Valid()
      modifies this`now
      ensures Valid() && now == old(now) + elapsed
    {
      now := now + elapsed;
    }

    /**
     The MERGE: insert when there is no row, take over an expired one, otherwise change nothing. Owner ids are never
     reused.
     */
    method Contend(p: int)
      requires Valid() && p !in inside
      modifies this`row
      ensures Valid()
      ensures row == if old(row) == None
              || old(row).value.expiresAt <= now then Some(LockRow(p, now + ttl)) else old(row)
    {
      if row == None || row.value.expiresAt <= now {
        row := Some(LockRow(p, now + ttl));
      }
    }

    /** Read the row back; the process enters only if the row is its own. */
    method Confirm(p: int) returns (entered: bool)
      requires Valid() && p !in inside
      modifies this`inside
      ensures Valid()
      ensures entered <==> row.Some? && row.value.owner == p
      ensures inside == if entered then old(inside)[p := row.value.expiresAt] else old(inside)
    {
      entered := row.Some? && row.value.owner == p;
      if entered {
        inside := inside[p := row.value.expiresAt];
      }
    }

    /** Release deletes the row only while it is the caller's own. */
    method Release(p: int)
      requires Valid() && p in inside
      modifies this`row, this`inside
      ensures Valid() && inside == old(inside) - {p}
      ensures row == if old(row).Some? && old(row).value.owner == p then None else old(row)
    {
      if row.Some? && row.value.owner == p {
        row := None;
      }
      inside := inside - {p};
    }

    /** Sole ownership holds among the processes whose hold is shorter than the time-to-live. */
    lemma SoleOwner(p: int, q: int)
      requires Valid() && p in inside && q in inside && now < inside[p] && now < inside[q]
      ensures p == q
    {
      assert row == Some(LockRow(p, inside[p]));
    }
  }

  /** Past its time-to-live a holder is no longer alone: another process enters while it is still inside. */
  method OverstayedHold(ttl: int) returns (lock: Lock)
    requires ttl > 0
    ensures fresh(lock) && lock.Valid() && lock.inside.Keys == {1, 2}
  {
    lock := new Lock(ttl);
    lock.Contend(1);
    var first := lock.Confirm(1);
    lock.Tick(ttl);
    lock.Contend(2);
    var second := lock.Confirm(2);
  }
}
