/** The software-timer multiplexer: a fixed table of timer slots that one
    hardware tick interrupt counts down, reloads and stops. */
module Timers {
  import opened CTypes
  import opened StatusBits

  /** Number of software timers in the table. */
  const MAXNBRTIMERS: nat := 3

  /** Values of the `mode` argument of the setter. */
  const PERIODIC: uint8 := 0
  const ONESHOT: uint8 := 1

  /** One slot of the timer table. `semaphore` 0 means "signal nothing". */
  datatype Slot = Slot(period: uint16, count: uint16, nperiods: uint16, status: bv8, semaphore: uint8)

  /** The slot every static C object starts as: all bytes zero. */
  const ZeroSlot := Slot(0, 0, 0, 0, 0)

  predicate Enabled(s: Slot) { Read(s.status, ENABLEBIT) }
  predicate Running(s: Slot) { Read(s.status, RUNBIT) }
  predicate OneShot(s: Slot) { Read(s.status, MODEBIT) }

  /** A slot the tick handler acts on: enabled and running. */
  predicate Live(s: Slot) { Enabled(s) && Running(s) }

  /** The slot invariant: a non-zero period and a countdown below it. */
  predicate CountBelowPeriod(s: Slot) { 1 <= s.period && s.count < s.period }

  /** Two status bytes that agree on every bit except possibly bit `n`. */
  ghost predicate SameBitsExcept(u: bv8, v: bv8, n: BitIndex)
  {
    forall k: BitIndex :: k != n ==> Read(u, k) == Read(v, k)
  }

  /** What one tick does to one slot. */
  function TickSlot(s: Slot): (r: Slot)
    // the countdown stays below the period
    ensures CountBelowPeriod(s) ==> CountBelowPeriod(r)
  {
    if Enabled(s) && Running(s) then
      if s.count > 0 then
        s.(count := s.count - 1)
      else
        var reloaded := s.(nperiods := Wrap16(s.nperiods + 1), count := Wrap16(s.period - 1));
        if OneShot(reloaded) then reloaded.(status := Clr(reloaded.status, RUNBIT)) else reloaded
    else
      s
  }

  /** The three cases of one tick on one slot. */
  lemma TickSlotCases(s: Slot)
    // a disabled or stopped slot is left exactly as it is
    ensures !Live(s) ==> TickSlot(s) == s
    // a live slot that has not expired counts down by one, nothing else changes
    ensures Live(s) && s.count > 0 ==> TickSlot(s) == s.(count := s.count - 1)
    // a live slot that expires reloads, counts one more period and stops iff one-shot
    ensures Live(s) && s.count == 0 ==>
      var r := TickSlot(s);
      && r.period == s.period && r.semaphore == s.semaphore
      && r.count == Wrap16(s.period - 1)
      && r.nperiods == Wrap16(s.nperiods + 1)
      && Enabled(r) && OneShot(r) == OneShot(s)
      && Running(r) == !OneShot(s)
      && SameBitsExcept(r.status, s.status, RUNBIT)
    // a periodic slot's status byte never changes
    ensures !OneShot(s) ==> TickSlot(s).status == s.status
  {
  }

  /** The semaphores one tick signals on behalf of one slot. */
  function SlotSignals(s: Slot): (r: seq<uint8>)
    ensures |r| <= 1
    ensures r != [] <==> Live(s) && s.count == 0 && s.semaphore > 0
    ensures r != [] ==> r[0] == s.semaphore
  {
    if Live(s) && s.count == 0 && s.semaphore > 0 then [s.semaphore] else []
  }

  /** What one tick does to the whole table. */
  function TickAll(ts: seq<Slot>): seq<Slot>
  {
    seq(|ts|, i requires 0 <= i < |ts| => TickSlot(ts[i]))
  }

  /** The signal log after the tick handler has serviced slots 0 .. n-1,
      starting from `log`. */
  function LogTick(log: seq<uint8>, ts: seq<Slot>, n: nat): seq<uint8>
    requires n <= |ts|
  {
    if n == 0 then log else LogTick(log, ts, n - 1) + SlotSignals(ts[n - 1])
  }

  /** The signals one tick emits for the whole table, in slot order. */
  function TickSignals(ts: seq<Slot>): (r: seq<uint8>)
    ensures |r| <= |ts|
    ensures forall k :: 0 <= k < |r| ==> r[k] > 0
  {
    TickSignalsBounded(ts, |ts|);
    LogTick([], ts, |ts|)
  }

  lemma {:induction false} TickSignalsBounded(ts: seq<Slot>, n: nat)
    requires n <= |ts|
    ensures |LogTick([], ts, n)| <= n
    ensures forall k :: 0 <= k < |LogTick([], ts, n)| ==> LogTick([], ts, n)[k] > 0
  {
    if n > 0 {
      TickSignalsBounded(ts, n - 1);
    }
  }

  /** Servicing slots 0 .. n-1 reads nothing beyond slot n-1. */
  lemma {:induction false} LogTickPrefix(log: seq<uint8>, ts: seq<Slot>, m: nat, n: nat)
    requires n <= m <= |ts|
    ensures LogTick(log, ts[..m], n) == LogTick(log, ts, n)
  {
    if n > 0 {
      LogTickPrefix(log, ts, m, n - 1);
    }
  }

  /** One tick's signals are those of every slot but the last, in slot order,
      followed by the last slot's own signals: each slot contributes exactly
      its `SlotSignals`, at most one semaphore, at its place in the order. */
  lemma TickSignalsSnoc(ts: seq<Slot>)
    requires |ts| > 0
    ensures TickSignals(ts) == TickSignals(ts[..|ts| - 1]) + SlotSignals(ts[|ts| - 1])
  {
    LogTickPrefix([], ts, |ts| - 1, |ts| - 1);
  }

  /** The tick handler only appends to the log: what was logged before stays
      in front, the tick's own signals follow. */
  lemma {:induction false} LogTickAppends(log: seq<uint8>, ts: seq<Slot>, n: nat)
    requires n <= |ts|
    ensures LogTick(log, ts, n) == log + LogTick([], ts, n)
  {
    if n > 0 {
      LogTickAppends(log, ts, n - 1);
    }
  }

  /** trtSetTimer on one slot. */
  function SetSlot(s: Slot, period: uint16, mode: uint8, sem: uint8): (r: Slot)
    ensures r.period == period && r.count == Wrap16(period - 1)
    ensures r.nperiods == 0 && r.semaphore == sem
    ensures Enabled(r) && !Running(r) && OneShot(r) == (mode != PERIODIC)
    ensures forall k: BitIndex :: k != ENABLEBIT && k != RUNBIT && k != MODEBIT ==>
      Read(r.status, k) == Read(s.status, k)
    ensures 1 <= period ==> CountBelowPeriod(r)
  {
    var stopped := Clr(s.status, RUNBIT);
    var moded := if mode == PERIODIC then Clr(stopped, MODEBIT) else Set(stopped, MODEBIT);
    Slot(period, Wrap16(period - 1), 0, Set(moded, ENABLEBIT), sem)
  }

  /** trtStartTimer on one slot. */
  function StartSlot(s: Slot): (r: Slot)
    ensures r == s.(status := r.status)
    ensures Running(r) && SameBitsExcept(r.status, s.status, RUNBIT)
  {
    s.(status := Set(s.status, RUNBIT))
  }

  /** trtStopTimer on one slot. */
  function StopSlot(s: Slot): (r: Slot)
    ensures r == s.(status := r.status)
    ensures !Running(r) && SameBitsExcept(r.status, s.status, RUNBIT)
  {
    s.(status := Clr(s.status, RUNBIT))
  }

  /** trtDisableTimer on one slot; also what trtInitTimer does to every slot. */
  function DisableSlot(s: Slot): (r: Slot)
    ensures r == s.(status := r.status)
    ensures !Enabled(r) && SameBitsExcept(r.status, s.status, ENABLEBIT)
  {
    s.(status := Clr(s.status, ENABLEBIT))
  }

  /** The timer table and the log of semaphores signalled from the tick handler. */
  class TimerTable {
    var timers: array<Slot>
    /** Every trtSignal call made by the tick handler, in order. */
    ghost var signals: seq<uint8>

    ghost predicate Valid()
      reads this
    {
      timers.Length == MAXNBRTIMERS
    }

    /** The table as static storage starts: every slot all zero, nothing signalled. */
    constructor ()
      ensures Valid() && fresh(timers) && signals == []
      ensures forall i :: 0 <= i < timers.Length ==> timers[i] == ZeroSlot
    {
      timers := new Slot[MAXNBRTIMERS](_ => ZeroSlot);
      signals := [];
    }

    /** The tick interrupt handler: every slot, in index order. */
    method Tick()
      requires Valid()
      modifies timers, this`signals
      ensures Valid()
      ensures timers[..] == TickAll(old(timers[..]))
      ensures signals == LogTick(old(signals), old(timers[..]), timers.Length)
      ensures signals == old(signals) + TickSignals(old(timers[..]))
    {
      ghost var before := timers[..];
      var i := 0;
      while i < timers.Length
        invariant 0 <= i <= timers.Length
        invariant forall k :: 0 <= k < timers.Length ==>
          timers[k] == if k < i then TickSlot(before[k]) else before[k]
        invariant signals == LogTick(old(signals), before, i)
      {
        ServiceSlot(i);
        i := i + 1;
      }
      LogTickAppends(old(signals), before, timers.Length);
    }

    /** The body of the tick handler's loop for slot `i`: count down, or on
        expiry count the period, reload, signal and stop a one-shot slot. */
    method ServiceSlot(i: nat)
      requires Valid() && i < timers.Length
      modifies timers, this`signals
      ensures Valid()
      ensures timers[i] == TickSlot(old(timers[i]))
      ensures forall k :: 0 <= k < timers.Length && k != i ==> timers[k] == old(timers[k])
      ensures signals == old(signals) + SlotSignals(old(timers[i]))
    {
      var t := timers[i];
      if Read(t.status, ENABLEBIT) {
        if Read(t.status, RUNBIT) {
          if t.count > 0 {
            t := t.(count := t.count - 1);
          } else {
            t := t.(nperiods := Wrap16(t.nperiods + 1));
            t := t.(count := Wrap16(t.period - 1));
            if t.semaphore > 0 {
              signals := signals + [t.semaphore];
            }
            if Read(t.status, MODEBIT) {
              t := t.(status := Clr(t.status, RUNBIT));
            }
          }
        }
      }
      timers[i] := t;
    }

    /** The slot-clearing loop of trtInitTimer: every slot is disabled. */
    method InitTimers()
      requires Valid()
      modifies timers
      ensures Valid()
      ensures forall i :: 0 <= i < timers.Length ==> timers[i] == DisableSlot(old(timers[i]))
    {
      var i := 0;
      while i < MAXNBRTIMERS
        invariant 0 <= i <= MAXNBRTIMERS
        invariant forall k :: 0 <= k < i ==> timers[k] == DisableSlot(old(timers[k]))
        invariant forall k :: i <= k < timers.Length ==> timers[k] == old(timers[k])
      {
        timers[i] := timers[i].(status := Clr(timers[i].status, ENABLEBIT));
        i := i + 1;
      }
    }

    /** trtSetTimer: configure timer `n` (1-based); it is left enabled and stopped. */
    method SetTimer(n: uint8, period: uint16, mode: uint8, sem: uint8)
      requires Valid() && 1 <= n <= MAXNBRTIMERS
      modifies timers
      ensures Valid()
      ensures timers[n - 1] == SetSlot(old(timers[n - 1]), period, mode, sem)
      ensures forall i :: 0 <= i < timers.Length && i != n - 1 ==> timers[i] == old(timers[i])
    {
      var t := timers[n - 1];
      t := t.(period := period);
      t := t.(count := Wrap16(period - 1));
      t := t.(status := Clr(t.status, RUNBIT));
      if mode == PERIODIC {
        t := t.(status := Clr(t.status, MODEBIT));
      } else {
        t := t.(status := Set(t.status, MODEBIT));
      }
      t := t.(nperiods := 0);
      t := t.(semaphore := sem);
      t := t.(status := Set(t.status, ENABLEBIT));
      timers[n - 1] := t;
    }

    /** trtStartTimer: set the RUN bit of timer `n`. */
    method StartTimer(n: uint8)
      requires Valid() && 1 <= n <= MAXNBRTIMERS
      modifies timers
      ensures Valid()
      ensures timers[n - 1] == StartSlot(old(timers[n - 1]))
      ensures forall i :: 0 <= i < timers.Length && i != n - 1 ==> timers[i] == old(timers[i])
    {
      timers[n - 1] := timers[n - 1].(status := Set(timers[n - 1].status, RUNBIT));
    }

    /** trtStopTimer: clear the RUN bit of timer `n`; its count is kept. */
    method StopTimer(n: uint8)
      requires Valid() && 1 <= n <= MAXNBRTIMERS
      modifies timers
      ensures Valid()
      ensures timers[n - 1] == StopSlot(old(timers[n - 1]))
      ensures forall i :: 0 <= i < timers.Length && i != n - 1 ==> timers[i] == old(timers[i])
    {
      timers[n - 1] := timers[n - 1].(status := Clr(timers[n - 1].status, RUNBIT));
    }

    /** trtDisableTimer: clear the ENABLE bit of timer `n`. */
    method DisableTimer(n: uint8)
      requires Valid() && 1 <= n <= MAXNBRTIMERS
      modifies timers
      ensures Valid()
      ensures timers[n - 1] == DisableSlot(old(timers[n - 1]))
      ensures forall i :: 0 <= i < timers.Length && i != n - 1 ==> timers[i] == old(timers[i])
    {
      timers[n - 1] := timers[n - 1].(status := Clr(timers[n - 1].status, ENABLEBIT));
    }

    /** trtStatusTimer: the raw status byte of timer `n`. */
    method StatusTimer(n: uint8) returns (status: bv8)
      requires Valid() && 1 <= n <= MAXNBRTIMERS
      ensures status == timers[n - 1].status
    {
      status := timers[n - 1].status;
    }

    /** trtNumPeriods: how many times timer `n` has expired since it was set. */
    method NumPeriods(n: uint8) returns (periods: uint16)
      requires Valid() && 1 <= n <= MAXNBRTIMERS
      ensures periods == timers[n - 1].nperiods
    {
      periods := timers[n - 1].nperiods;
    }
  }
}
