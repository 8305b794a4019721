/** What sequences of Lock and Unlock calls on one mutex do: the record
    invariant, exclusion until the owner releases, the missing lock depth,
    and what happens to a task that had to wait. */
module MutexProperties {
  import opened CTypes
  import opened Mutex

  /** A call on one mutex by a task. */
  datatype Call = Lock(task: uint8) | Unlock(task: uint8)

  /** The record after one call. */
  function Step(r: Record, c: Call): Record
  {
    match c
    case Lock(t) => LockNext(r, t)
    case Unlock(t) => UnlockNext(r, t)
  }

  /** The semaphore calls one call makes for mutex `m`. */
  function StepOps(r: Record, c: Call, m: uint8): seq<SemOp>
  {
    match c
    case Lock(t) => LockOps(r, t, m)
    case Unlock(t) => UnlockOps(r, t, m)
  }

  /** The record after a sequence of calls, each atomic, in order. */
  function Run(r: Record, calls: seq<Call>): Record
    decreases |calls|
  {
    if calls == [] then r else Run(Step(r, calls[0]), calls[1..])
  }

  /** The semaphore calls made by a sequence of calls on mutex `m`. */
  function RunOps(r: Record, calls: seq<Call>, m: uint8): seq<SemOp>
    decreases |calls|
  {
    if calls == [] then [] else StepOps(r, calls[0], m) + RunOps(Step(r, calls[0]), calls[1..], m)
  }

  /** One Wait(m) for every Lock in `calls` made by a task other than `a`. */
  function WaitsOf(calls: seq<Call>, a: uint8, m: uint8): seq<SemOp>
    decreases |calls|
  {
    if calls == [] then []
    else (if calls[0].Lock? && calls[0].task != a then [Wait(m)] else []) + WaitsOf(calls[1..], a, m)
  }

  /** Every call is made by a real task, never by NONE. */
  predicate RealTasks(calls: seq<Call>)
  {
    forall i :: 0 <= i < |calls| ==> calls[i].task != NONE
  }

  /** The record invariant (unlocked exactly when nobody owns it) holds after
      any sequence of calls by real tasks. */
  lemma {:induction false} RunKeepsConsistent(r: Record, calls: seq<Call>)
    requires Consistent(r) && RealTasks(calls)
    ensures Consistent(Run(r, calls))
    decreases |calls|
  {
    if calls != [] {
      assert RealTasks(calls[1..]) by {
        forall i | 0 <= i < |calls[1..]| ensures calls[1..][i].task != NONE {
          assert calls[1..][i] == calls[i + 1];
        }
      }
      RunKeepsConsistent(Step(r, calls[0]), calls[1..]);
    }
  }

  /** Mutual exclusion: once task `a` holds the mutex, no calls other than an
      Unlock by `a` change the record; every Lock by another task waits, and
      nothing is signalled. */
  lemma {:induction false} HeldUntilOwnerUnlocks(a: uint8, calls: seq<Call>, m: uint8)
    requires forall i :: 0 <= i < |calls| ==> calls[i] != Unlock(a)
    ensures Run(Record(a, LOCKED), calls) == Record(a, LOCKED)
    ensures RunOps(Record(a, LOCKED), calls, m) == WaitsOf(calls, a, m)
    decreases |calls|
  {
    if calls != [] {
      assert forall i :: 0 <= i < |calls[1..]| ==> calls[1..][i] == calls[i + 1];
      HeldUntilOwnerUnlocks(a, calls[1..], m);
    }
  }

  /** A run is its first call followed by the rest. */
  lemma RunCons(r: Record, c: Call, rest: seq<Call>, m: uint8)
    ensures Run(r, [c] + rest) == Run(Step(r, c), rest)
    ensures RunOps(r, [c] + rest, m) == StepOps(r, c, m) + RunOps(Step(r, c), rest, m)
  {
    assert ([c] + rest)[1..] == rest;
  }

  /** No lock depth: Lock, Lock, Unlock by the task that took the mutex leaves
      it free, with one signal and no wait. */
  lemma RelockThenUnlock(r: Record, t: uint8, m: uint8)
    requires Consistent(r) && t != NONE && !LockWaits(r, t)
    ensures Run(r, [Lock(t), Lock(t), Unlock(t)]) == Free
    ensures RunOps(r, [Lock(t), Lock(t), Unlock(t)], m) == [Signal(m)]
  {
    var held := Record(t, LOCKED);
    RunCons(held, Unlock(t), [], m);
    RunCons(held, Lock(t), [Unlock(t)], m);
    RunCons(r, Lock(t), [Lock(t), Unlock(t)], m);
  }

  /** Wait and wake: task a takes the mutex, task b's Lock waits, a's Unlock
      signals and frees the record. The woken b is not recorded as owner; it
      becomes owner only by calling Lock again, and a third task c that calls
      Lock first takes the mutex instead. */
  lemma WaitThenWake(a: uint8, b: uint8, c: uint8, m: uint8)
    requires a != NONE && b != NONE && c != NONE && a != b
    ensures Run(Free, [Lock(a), Lock(b)]) == Record(a, LOCKED)
    ensures RunOps(Free, [Lock(a), Lock(b), Unlock(a)], m) == [Wait(m), Signal(m)]
    ensures Run(Free, [Lock(a), Lock(b), Unlock(a)]) == Free
    ensures Run(Free, [Lock(a), Lock(b), Unlock(a), Lock(b)]) == Record(b, LOCKED)
    ensures Run(Free, [Lock(a), Lock(b), Unlock(a), Lock(c)]) == Record(c, LOCKED)
  {
    var held := Record(a, LOCKED);
    RunCons(Free, Lock(b), [], m);
    RunCons(Free, Lock(c), [], m);
    RunCons(held, Unlock(a), [], m);
    RunCons(held, Unlock(a), [Lock(b)], m);
    RunCons(held, Unlock(a), [Lock(c)], m);
    RunCons(held, Lock(b), [], m);
    RunCons(held, Lock(b), [Unlock(a)], m);
    RunCons(held, Lock(b), [Unlock(a), Lock(b)], m);
    RunCons(held, Lock(b), [Unlock(a), Lock(c)], m);
    RunCons(Free, Lock(a), [Lock(b)], m);
    RunCons(Free, Lock(a), [Lock(b), Unlock(a)], m);
    RunCons(Free, Lock(a), [Lock(b), Unlock(a), Lock(b)], m);
    RunCons(Free, Lock(a), [Lock(b), Unlock(a), Lock(c)], m);
  }
}
