/** What a timer slot does over many ticks: periodic firing, one-shot
    auto-stop, phase kept across stop and start, and inert slots. */
module TimerProperties {
  import opened CTypes
  import opened StatusBits
  import opened Timers

  /** A slot after `n` ticks. */
  function Ticks(s: Slot, n: nat): Slot
    decreases n
  {
    if n == 0 then s else Ticks(TickSlot(s), n - 1)
  }

  /** The semaphores signalled on behalf of one slot over `n` ticks, in order. */
  function SignalsOver(s: Slot, n: nat): seq<uint8>
    decreases n
  {
    if n == 0 then [] else SlotSignals(s) + SignalsOver(TickSlot(s), n - 1)
  }

  /** The whole table after `n` ticks. */
  function TableTicks(ts: seq<Slot>, n: nat): seq<Slot>
    decreases n
  {
    if n == 0 then ts else TableTicks(TickAll(ts), n - 1)
  }

  /** `k` signals of semaphore `x`. */
  function Repeat(x: uint8, k: nat): (r: seq<uint8>)
    ensures |r| == k
    ensures forall j :: 0 <= j < |r| ==> r[j] == x
  {
    if k == 0 then [] else Repeat(x, k - 1) + [x]
  }

  /** The signals emitted for `s` by `k` expiries: none when it has no semaphore. */
  function ExpirySignals(s: Slot, k: nat): seq<uint8>
  {
    Repeat(s.semaphore, if s.semaphore > 0 then k else 0)
  }

  lemma Wrap16Add(x: int, y: int)
    ensures Wrap16(Wrap16(x) + y) == Wrap16(x + y)
  {
  }

  /** Ticking the table ticks every slot on its own: slot `i` of the table after
      `n` ticks is slot `i` after `n` ticks. */
  lemma {:induction false} TableTicksPointwise(ts: seq<Slot>, n: nat, i: nat)
    requires i < |ts|
    ensures |TableTicks(ts, n)| == |ts| && TableTicks(ts, n)[i] == Ticks(ts[i], n)
    decreases n
  {
    if n > 0 {
      TableTicksPointwise(TickAll(ts), n - 1, i);
    }
  }

  /** A disabled or stopped slot never changes and never signals. */
  lemma {:induction false} InertForever(s: Slot, n: nat)
    requires !Live(s)
    ensures Ticks(s, n) == s && SignalsOver(s, n) == []
    decreases n
  {
    if n > 0 {
      InertForever(s, n - 1);
    }
  }

  /** The countdown stays below the period through any number of ticks. */
  lemma {:induction false} CountBelowPeriodForever(s: Slot, n: nat)
    requires CountBelowPeriod(s)
    ensures CountBelowPeriod(Ticks(s, n)) && Ticks(s, n).period == s.period
    decreases n
  {
    if n > 0 {
      CountBelowPeriodForever(TickSlot(s), n - 1);
    }
  }

  /** Ticks compose: a + b ticks are a ticks followed by b ticks, and the
      signals of the two stretches are logged one after the other. */
  lemma {:induction false} TicksAdd(s: Slot, a: nat, b: nat)
    ensures Ticks(s, a + b) == Ticks(Ticks(s, a), b)
    ensures SignalsOver(s, a + b) == SignalsOver(s, a) + SignalsOver(Ticks(s, a), b)
    decreases a
  {
    if a > 0 {
      TicksAdd(TickSlot(s), a - 1, b);
      assert SignalsOver(s, a + b) == SlotSignals(s) + SignalsOver(TickSlot(s), a - 1 + b);
    }
  }

  /** A live slot with countdown c: for the next c ticks only the countdown moves. */
  lemma {:induction false} CountDown(s: Slot, j: nat)
    requires Live(s) && j <= s.count
    ensures Ticks(s, j) == s.(count := s.count - j) && SignalsOver(s, j) == []
    decreases j
  {
    if j > 0 {
      CountDown(TickSlot(s), j - 1);
    }
  }

  /** One full period of a live periodic slot primed at p - 1: it comes back to
      p - 1 with one more period counted and one signal of its semaphore. */
  lemma PeriodicCycle(s: Slot)
    requires Live(s) && !OneShot(s) && 1 <= s.period && s.count == s.period - 1
    ensures Ticks(s, s.period) == s.(nperiods := Wrap16(s.nperiods + 1))
    ensures SignalsOver(s, s.period) == ExpirySignals(s, 1)
  {
    var p := s.period;
    TicksAdd(s, p - 1, 1);
    CountDown(s, p - 1);
    TickSlotCases(s.(count := 0));
  }

  /** A live one-shot slot with countdown c < p: up to tick c nothing but the
      countdown moves; from tick c + 1 on it has expired exactly once, signalled
      once, reloaded and stopped, keeping its ENABLE and MODE bits. */
  lemma {:induction false} OneShotTicks(s: Slot, n: nat)
    requires Live(s) && OneShot(s) && CountBelowPeriod(s)
    ensures n <= s.count ==> Ticks(s, n) == s.(count := s.count - n) && SignalsOver(s, n) == []
    ensures n > s.count ==>
      && Ticks(s, n) == StopSlot(s).(count := s.period - 1, nperiods := Wrap16(s.nperiods + 1))
      && SignalsOver(s, n) == ExpirySignals(s, 1)
    decreases n
  {
    if n > 0 {
      var t := TickSlot(s);
      if s.count > 0 {
        OneShotTicks(t, n - 1);
      } else {
        InertForever(t, n - 1);
      }
    }
  }

  /** k periods of p ticks, added up one period at a time. */
  function Periods(p: nat, k: nat): nat
  {
    if k == 0 then 0 else Periods(p, k - 1) + p
  }

  lemma {:induction false} PeriodsIsProduct(p: nat, k: nat)
    ensures Periods(p, k) == k * p
  {
    if k > 0 {
      PeriodsIsProduct(p, k - 1);
      assert (k - 1) * p + p == k * p;
    }
  }

  /** A periodic slot primed by its setter (count = p - 1) expires exactly k
      times in k periods and ends primed again. */
  lemma {:induction false} PeriodicFiresEveryPeriod(s: Slot, k: nat)
    requires Live(s) && !OneShot(s) && 1 <= s.period && s.count == s.period - 1
    ensures Ticks(s, Periods(s.period, k)) == s.(nperiods := Wrap16(s.nperiods + k))
    ensures SignalsOver(s, Periods(s.period, k)) == ExpirySignals(s, k)
    decreases k
  {
    if k > 0 {
      var p := s.period;
      var a := Periods(p, k - 1);
      var mid := s.(nperiods := Wrap16(s.nperiods + (k - 1)));
      PeriodicFiresEveryPeriod(s, k - 1);
      TicksAdd(s, a, p);
      PeriodicCycle(mid);
      Wrap16Add(s.nperiods + (k - 1), 1);
      assert Ticks(s, a + p) == s.(nperiods := Wrap16(s.nperiods + k));
      assert ExpirySignals(mid, 1) == if s.semaphore > 0 then [s.semaphore] else [];
    }
  }

  /** trtSetTimer(n, p, PERIODIC, sem) then trtStartTimer(n), then k * p ticks:
      Nperiods is k (modulo 2^16) and `sem` was signalled k times. */
  lemma SetStartPeriodic(s: Slot, p: uint16, sem: uint8, k: nat)
    requires 1 <= p
    ensures Ticks(StartSlot(SetSlot(s, p, PERIODIC, sem)), k * p).nperiods == Wrap16(k)
    ensures SignalsOver(StartSlot(SetSlot(s, p, PERIODIC, sem)), k * p)
         == Repeat(sem, if sem > 0 then k else 0)
  {
    PeriodicFiresEveryPeriod(StartSlot(SetSlot(s, p, PERIODIC, sem)), k);
    PeriodsIsProduct(p, k);
  }

  /** k whole periods and r < p further ticks after trtSetTimer(n, p, PERIODIC, sem)
      and trtStartTimer(n): k expiries, k signals of `sem`, and the countdown
      at p - 1 - r. */
  lemma SetStartPeriodicPhase(s: Slot, p: uint16, sem: uint8, k: nat, r: nat)
    requires 1 <= p && r < p
    ensures Ticks(StartSlot(SetSlot(s, p, PERIODIC, sem)), k * p + r).nperiods == Wrap16(k)
    ensures Ticks(StartSlot(SetSlot(s, p, PERIODIC, sem)), k * p + r).count == p - 1 - r
    ensures SignalsOver(StartSlot(SetSlot(s, p, PERIODIC, sem)), k * p + r)
         == Repeat(sem, if sem > 0 then k else 0)
  {
    var t := StartSlot(SetSlot(s, p, PERIODIC, sem));
    PeriodicFiresEveryPeriod(t, k);
    TicksAdd(t, Periods(p, k), r);
    CountDown(Ticks(t, Periods(p, k)), r);
    PeriodsIsProduct(p, k);
  }

  /** Period 5, periodic, 17 ticks: expiries at ticks 5, 10 and 15, three
      signals, and the countdown at 2. */
  lemma SeventeenTicksPeriodic(s: Slot, sem: uint8)
    requires 0 < sem
    ensures Ticks(StartSlot(SetSlot(s, 5, PERIODIC, sem)), 17).nperiods == 3
    ensures Ticks(StartSlot(SetSlot(s, 5, PERIODIC, sem)), 17).count == 2
    ensures SignalsOver(StartSlot(SetSlot(s, 5, PERIODIC, sem)), 17) == [sem, sem, sem]
  {
    SetStartPeriodicPhase(s, 5, sem, 3, 2);
    assert 3 * 5 + 2 == 17;
    assert Repeat(sem, 3) == [sem, sem, sem];
  }

  /** Period 5, one-shot, 17 ticks: one expiry at tick 5, then stopped. */
  lemma SeventeenTicksOneShot(s: Slot, sem: uint8)
    requires 0 < sem
    ensures Ticks(StartSlot(SetSlot(s, 5, ONESHOT, sem)), 17).nperiods == 1
    ensures !Running(Ticks(StartSlot(SetSlot(s, 5, ONESHOT, sem)), 17))
    ensures SignalsOver(StartSlot(SetSlot(s, 5, ONESHOT, sem)), 17) == [sem]
  {
    OneShotTicks(StartSlot(SetSlot(s, 5, ONESHOT, sem)), 17);
  }

  /** A stopped timer holds its countdown through any number of ticks, and
      starting it again gives back exactly the running slot: it resumes from
      the same count, not from period - 1. */
  lemma StopThenStartResumes(s: Slot, n: nat)
    requires Running(s)
    ensures Ticks(StopSlot(s), n) == StopSlot(s) && SignalsOver(StopSlot(s), n) == []
    ensures StartSlot(Ticks(StopSlot(s), n)) == s
  {
    InertForever(StopSlot(s), n);
    SetAfterClr(s.status, RUNBIT);
  }

  /** A disabled timer is ignored by every later tick, running or not. */
  lemma DisableHalts(s: Slot, n: nat)
    ensures Ticks(DisableSlot(s), n) == DisableSlot(s) && SignalsOver(DisableSlot(s), n) == []
  {
    InertForever(DisableSlot(s), n);
  }
}
