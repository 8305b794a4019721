/** The mutex layer: a table of (owner, state) records, one per semaphore
    number, built on the kernel's semaphores. */
module Mutex {
  import opened CTypes

  /** Size of the kernel's semaphore table, and of the mutex table. */
  const MAXNBRSEMAPHORES: nat := 7

  /** Values of a record's `state`. */
  const UNLOCKED: uint8 := 1
  const LOCKED: uint8 := 0
  /** The `owner` of a mutex nobody holds. */
  const NONE: uint8 := 0

  /** One record of the mutex table. */
  datatype Record = Record(owner: uint8, state: uint8)

  /** The record of a free mutex. */
  const Free := Record(NONE, UNLOCKED)

  /** A call into the kernel's semaphore layer, recorded instead of performed. */
  datatype SemOp =
    | CreateSemaphore(sem: uint8, initial: uint8)
    | Wait(sem: uint8)
    | Signal(sem: uint8)

  /** The record invariant: unlocked exactly when nobody owns it, and the
      state is one of the two defined values. */
  predicate Consistent(r: Record)
  {
    (r.state == UNLOCKED && r.owner == NONE) || (r.state == LOCKED && r.owner != NONE)
  }

  /** Whether trtLockMutex by task `running` waits on the semaphore: the mutex is
      taken and someone else owns it. */
  predicate LockWaits(r: Record, running: uint8)
  {
    r.state != UNLOCKED && r.owner != running
  }

  /** The record after trtLockMutex by task `running`. */
  function LockNext(r: Record, running: uint8): (r': Record)
    // a waiting caller changes nothing
    ensures LockWaits(r, running) ==> r' == r
    // otherwise the caller holds the mutex when Lock returns
    ensures Consistent(r) && !LockWaits(r, running) ==> r' == Record(running, LOCKED)
    // the invariant is kept for any real task
    ensures running != NONE && Consistent(r) ==> Consistent(r')
  {
    if r.state == UNLOCKED then Record(running, LOCKED)
    else r
  }

  /** The record after trtUnlockMutex by task `running`. */
  function UnlockNext(r: Record, running: uint8): (r': Record)
    // only the owner releases, and releasing leaves the mutex free
    ensures running == r.owner ==> r' == Free
    ensures running != r.owner ==> r' == r
    ensures Consistent(r) ==> Consistent(r')
  {
    if running == r.owner then Free else r
  }

  /** The raw semaphore value that trtUnlockMutex writes before it signals:
      forced to 0 by the owner. What the following signal then does to the
      value is the semaphore layer's business and is not part of this model. */
  function UnlockValue(v: uint8, r: Record, running: uint8): (v': uint8)
    ensures running == r.owner ==> v' == 0
    ensures running != r.owner ==> v' == v
  {
    if running == r.owner && v > 0 then 0 else v
  }

  /** The semaphore calls trtLockMutex makes for mutex `m`. */
  function LockOps(r: Record, running: uint8, m: uint8): (ops: seq<SemOp>)
    ensures ops == [] || ops == [Wait(m)]
    ensures ops != [] <==> LockWaits(r, running)
  {
    if LockWaits(r, running) then [Wait(m)] else []
  }

  /** The semaphore calls trtUnlockMutex makes for mutex `m`. */
  function UnlockOps(r: Record, running: uint8, m: uint8): (ops: seq<SemOp>)
    ensures ops == [] || ops == [Signal(m)]
    ensures ops != [] <==> running == r.owner
  {
    if running == r.owner then [Signal(m)] else []
  }

  /** The mutex table, the kernel's semaphore values it writes through, and the
      log of calls made into the semaphore layer. */
  class MutexTable {
    var mutex: array<Record>
    /** The kernel's semaphore values; semaphore `s` is at index `s - 1`. */
    var semaphores: array<uint8>
    ghost var ops: seq<SemOp>

    ghost predicate Valid()
      reads this
    {
      mutex.Length == MAXNBRSEMAPHORES && semaphores.Length == MAXNBRSEMAPHORES
    }

    /** The table as static storage starts: every record all zero (LOCKED with
        owner NONE, so not yet consistent), over the kernel's semaphore array. */
    constructor (semaphores: array<uint8>)
      requires semaphores.Length == MAXNBRSEMAPHORES
      ensures Valid() && fresh(mutex) && this.semaphores == semaphores && ops == []
      ensures forall i :: 0 <= i < mutex.Length ==> mutex[i] == Record(0, 0)
    {
      mutex := new Record[MAXNBRSEMAPHORES](_ => Record(0, 0));
      this.semaphores := semaphores;
      ops := [];
    }

    /** trtInitMutex: every record becomes free. */
    method InitMutex()
      requires Valid()
      modifies mutex
      ensures Valid()
      ensures forall i :: 0 <= i < mutex.Length ==> mutex[i] == Free && Consistent(mutex[i])
    {
      var i := 0;
      while i < MAXNBRSEMAPHORES
        invariant 0 <= i <= MAXNBRSEMAPHORES
        invariant forall k :: 0 <= k < i ==> mutex[k] == Free
      {
        mutex[i] := mutex[i].(owner := NONE);
        mutex[i] := mutex[i].(state := UNLOCKED);
        i := i + 1;
      }
    }

    /** trtCreateMutex: create semaphore `m` with value UNLOCKED and free record `m`. */
    method CreateMutex(m: uint8)
      requires Valid() && 1 <= m < MAXNBRSEMAPHORES
      modifies mutex, this`ops
      ensures Valid()
      ensures mutex[m] == Free
      ensures forall i :: 0 <= i < mutex.Length && i != m ==> mutex[i] == old(mutex[i])
      ensures ops == old(ops) + [CreateSemaphore(m, UNLOCKED)]
    {
      ops := ops + [CreateSemaphore(m, UNLOCKED)];
      mutex[m] := mutex[m].(state := UNLOCKED);
      mutex[m] := mutex[m].(owner := NONE);
    }

    /** trtLockMutex by task `running`: take a free mutex, wait on one held by
        another task, do nothing on one the caller already holds. */
    method LockMutex(m: uint8, running: uint8)
      requires Valid() && 1 <= m < MAXNBRSEMAPHORES
      modifies mutex, this`ops
      ensures Valid()
      ensures mutex[m] == LockNext(old(mutex[m]), running)
      ensures forall i :: 0 <= i < mutex.Length && i != m ==> mutex[i] == old(mutex[i])
      ensures ops == old(ops) + LockOps(old(mutex[m]), running, m)
    {
      if mutex[m].state == UNLOCKED {
        mutex[m] := mutex[m].(state := LOCKED);
        mutex[m] := mutex[m].(owner := running);
      } else if mutex[m].owner != running {
        ops := ops + [Wait(m)];
      }
    }

    /** trtUnlockMutex by task `running`: only the owner acts; it zeroes the raw
        semaphore value, signals the semaphore and frees the record. */
    method UnlockMutex(m: uint8, running: uint8)
      requires Valid() && 1 <= m < MAXNBRSEMAPHORES
      modifies mutex, semaphores, this`ops
      ensures Valid()
      ensures mutex[m] == UnlockNext(old(mutex[m]), running)
      ensures forall i :: 0 <= i < mutex.Length && i != m ==> mutex[i] == old(mutex[i])
      ensures semaphores[m - 1] == UnlockValue(old(semaphores[m - 1]), old(mutex[m]), running)
      ensures forall i :: 0 <= i < semaphores.Length && i != m - 1 ==> semaphores[i] == old(semaphores[i])
      ensures ops == old(ops) + UnlockOps(old(mutex[m]), running, m)
    {
      var s := m - 1;
      if running == mutex[m].owner {
        if semaphores[s] > 0 {
          semaphores[s] := 0;
        }
        ops := ops + [Signal(m)];
        mutex[m] := mutex[m].(owner := NONE);
        mutex[m] := mutex[m].(state := UNLOCKED);
      }
    }

    /** trtQueryMutex: the state of mutex `m`. */
    method QueryMutex(m: uint8) returns (state: uint8)
      requires Valid() && m < MAXNBRSEMAPHORES
      ensures state == mutex[m].state
    {
      state := mutex[m].state;
    }

    /** trtOwnerMutex: whether task `running` is the recorded owner of mutex `m`. */
    method OwnerMutex(m: uint8, running: uint8) returns (isOwner: bool)
      requires Valid() && m < MAXNBRSEMAPHORES
      ensures isOwner <==> mutex[m].owner == running
    {
      isOwner := mutex[m].owner == running;
    }
  }
}
