# TinyRealTime timers and mutexes in Dafny

This project models two fixed-size tables under the TinyRealTime kernel for
AVR microcontrollers. Each table is a small state machine over a static array.

- **The software-timer multiplexer** (`trtTimers.c`) has three timer slots.
  Each slot holds `period`, `count` and `Nperiods` (all 16-bit), a status
  byte and a semaphore number to signal. The status byte has ENABLE in bit 7,
  RUN in bit 0 and MODE in bit 1 (0 periodic, 1 one-shot). On every hardware
  tick the interrupt handler walks the slots in index order. For each slot that
  is enabled and running, it counts `count` down. When `count` is 0, the slot
  expires instead: `Nperiods` goes up by one, `count` is reloaded with
  `period - 1`, the slot's semaphore is signalled if it has one, and a one-shot
  slot clears its RUN bit. Setters use 1-based timer numbers. They configure,
  start, stop and disable a slot.
- **The mutex layer** (`trtMutex.c`) keeps one `(owner, state)` record per
  semaphore number (`UNLOCKED` = 1, `LOCKED` = 0, `NONE` = 0, seven records).
  Lock has three cases:
  - a free mutex is taken;
  - the caller waits on the semaphore if another task holds the mutex;
  - nothing happens if the caller already holds it.

  Unlock acts only for the owner. It forces the raw semaphore value to 0,
  then signals the semaphore, and frees the record. There is no lock depth, so
  Lock, Lock, Unlock leaves the mutex free.

Module layout:

- `CTypes` (`ctypes.dfy`): `uint8`, `uint16` and the modulo-2^16 store.
- `StatusBits` (`status_bits.dfy`): the macros `READ`, `SET` and `CLR` on a `bv8`.
- `Timers` (`timers.dfy`): the `Slot` record and one spec function per
  operation on a slot. The `TimerTable` class holds the timer array and a
  ghost log of the semaphores that the tick handler signals. Its methods take
  the branches of the C functions and are proved against the spec functions.
  Two of them, the tick handler's per-slot step and `SetTimer`, build the new
  slot in a local copy and store it back once (see "Left out").
- `TimerProperties` (`timer_properties.dfy`): what a slot does over many ticks.
- `Mutex` (`mutex.dfy`): the `Record` value, spec functions for Lock and
  Unlock, and the `MutexTable` class. The class holds the mutex array, the
  kernel's semaphore values as an `array<uint8>` and a ghost log of semaphore
  calls.
- `MutexProperties` (`mutex_properties.dfy`): sequences of Lock and Unlock
  calls by several tasks.

The model treats every call and every tick as one atomic step. The source
masks interrupts only in Lock and Unlock, so the timer setters and readers
can race the tick handler (see "Left out"). The running task (`kernel.running`) is a
parameter. `trtWait`, `trtSignal` and `trtCreateSemaphore` are entries in a
ghost log.

Indices follow the source exactly. Timer `n` is slot `n - 1`, so the setters
require `1 <= n <= 3`. `mutex[]` is indexed by the mutex number `m`, but
Unlock writes semaphore value `m - 1`. Create, Lock and Unlock therefore
require `1 <= m < 7`. Query and Owner read only `mutex[m]` and require
`m < 7`.

The model shows one consequence of the code that readers may not expect. A
task whose Lock had to wait returns from `trtLockMutex` without being recorded
as the owner. After the holder's Unlock the record is free. A third task that
calls Lock first takes the mutex (`MutexProperties.WaitThenWake`).

## Model

| member | source | states |
|---|---|---|
| CTypes.Wrap16 | trtTimers.c:52-54 | storing into a `uint16_t` keeps values in range unchanged and otherwise reduces modulo 2^16 (so `Nperiods++` wraps and `period-1` with period 0 gives 65535) |
| StatusBits.ReadIsMask | trtTimers.c:23 | `READ(U, N)`, which shifts bit N down and masks it, is true exactly when bit N of U is set |
| StatusBits.Set | trtTimers.c:24 | `SET(U, N)` makes bit N one and keeps every other bit |
| StatusBits.Clr | trtTimers.c:25 | `CLR(U, N)` makes bit N zero and keeps every other bit |
| StatusBits.SetAfterClr | trtTimers.c:24-25 | clearing a set bit and setting it again restores the byte |
| Timers.TickSlot | trtTimers.c:45-58 | one tick keeps the slot invariant `1 <= period` and `count < period` |
| Timers.TickSlotCases | trtTimers.c:45-58 | a disabled or stopped slot is unchanged; a live slot with `count > 0` only counts down by 1; a live slot at 0 reloads to `period-1`, adds 1 to `Nperiods` modulo 2^16, keeps ENABLE and MODE, and clears RUN exactly when it is one-shot; a periodic slot's status never changes |
| Timers.SlotSignals | trtTimers.c:56 | a tick signals at most once for a slot, and it signals exactly when the slot is live, at 0, and has a semaphore number > 0; the signal is that number |
| Timers.TickSignals | trtTimers.c:43-63 | one tick emits at most as many signals as there are slots, and none of them is semaphore 0 |
| Timers.TickSignalsSnoc | trtTimers.c:44-62 | one tick's signals are those of the earlier slots, in slot order, followed by the last slot's own `SlotSignals`, so each slot contributes at most one signal, at its place in the order |
| Timers.LogTickAppends | trtTimers.c:43-63 | the tick handler only appends to the signal log, in slot order |
| Timers.SetSlot | trtTimers.c:117-130 | after trtSetTimer: `period == p`, `count == p-1` (mod 2^16), `Nperiods == 0`, `semaphore == sem`, ENABLE set, RUN clear, MODE bit set iff `mode != PERIODIC`, other status bits kept; the invariant holds when `p >= 1` |
| Timers.StartSlot | trtTimers.c:134-136 | trtStartTimer sets RUN, changes no other bit, and leaves period, count and Nperiods alone |
| Timers.StopSlot | trtTimers.c:139-141 | trtStopTimer clears RUN, changes no other bit, and leaves period, count and Nperiods alone |
| Timers.DisableSlot | trtTimers.c:143-145 | trtDisableTimer clears ENABLE, changes no other bit, and leaves period, count and Nperiods alone |
| Timers.TimerTable.constructor | trtTimers.c:29-35 | the static table starts all zero with nothing signalled |
| Timers.TimerTable.Tick | trtTimers.c:40-64 | the new table is the old table with every slot ticked; the log gains the tick's signals in slot order |
| Timers.TimerTable.ServiceSlot | trtTimers.c:44-62 | one pass of the handler's loop ticks slot i, leaves every other slot alone, and logs that slot's signal |
| Timers.TimerTable.InitTimers | trtTimers.c:104-107 | the init loop clears the ENABLE bit of every slot and changes nothing else |
| Timers.TimerTable.SetTimer | trtTimers.c:112-131 | slot `n-1` becomes `SetSlot` of its old value; every other slot is untouched |
| Timers.TimerTable.StartTimer | trtTimers.c:134-136 | slot `n-1` becomes `StartSlot` of its old value; every other slot is untouched |
| Timers.TimerTable.StopTimer | trtTimers.c:139-141 | slot `n-1` becomes `StopSlot` of its old value; every other slot is untouched |
| Timers.TimerTable.DisableTimer | trtTimers.c:143-145 | slot `n-1` becomes `DisableSlot` of its old value; every other slot is untouched |
| Timers.TimerTable.StatusTimer | trtTimers.c:148-150 | returns slot `n-1`'s status byte and changes nothing |
| Timers.TimerTable.NumPeriods | trtTimers.c:153-155 | returns slot `n-1`'s Nperiods and changes nothing |
| TimerProperties.TableTicksPointwise | trtTimers.c:43-63 | over n ticks of the whole table, slot i evolves as if it were alone |
| TimerProperties.InertForever | trtTimers.c:45-47 | a slot with ENABLE or RUN clear never changes and never signals |
| TimerProperties.CountBelowPeriodForever | trtTimers.c:48-54 | `count < period` and the period itself survive any number of ticks |
| TimerProperties.TicksAdd | trtTimers.c:43-63 | a + b ticks are a ticks then b ticks, and the signal logs concatenate |
| TimerProperties.CountDown | trtTimers.c:48-49 | a live slot with countdown c only counts down during the next c ticks |
| TimerProperties.PeriodicCycle | trtTimers.c:48-58 | a live periodic slot at `period-1` is back at `period-1` after `period` ticks, with one more period counted and one signal if it has a semaphore |
| TimerProperties.PeriodicFiresEveryPeriod | trtTimers.c:48-58 | the same slot after k periods: Nperiods grew by k (mod 2^16), k signals |
| TimerProperties.SetStartPeriodic | trtTimers.c:117-135 | after trtSetTimer(n, p, PERIODIC, sem) with p >= 1 and trtStartTimer(n), k·p ticks give `Nperiods == k` (mod 2^16) and k signals of `sem` (none if `sem == 0`) |
| TimerProperties.SetStartPeriodicPhase | trtTimers.c:117-135 | after set and start, k·p + r ticks with r < p give `Nperiods == k`, `count == p-1-r` and k signals |
| TimerProperties.SeventeenTicksPeriodic | trtTimers.c:48-58 | period 5, periodic, 17 ticks: Nperiods 3, count 2, three signals |
| TimerProperties.OneShotTicks | trtTimers.c:48-58 | a live one-shot slot with countdown c: for n <= c ticks it only counts down; after more ticks it has expired exactly once, signalled once, reloaded, and cleared RUN while keeping its other bits |
| TimerProperties.SeventeenTicksOneShot | trtTimers.c:48-58 | period 5, one-shot, 17 ticks: Nperiods 1, stopped, one signal |
| TimerProperties.StopThenStartResumes | trtTimers.c:134-141 | a stopped timer keeps its count through any number of ticks; starting it again gives back the same slot |
| TimerProperties.DisableHalts | trtTimers.c:143-145 | a disabled timer is ignored by every later tick, running or not |
| Mutex.LockNext | trtMutex.c:47-58 | a Lock that waits changes nothing; otherwise, on a consistent record, the caller is the owner and the state is LOCKED when Lock returns; for a real task the invariant `state == UNLOCKED <=> owner == NONE` is kept |
| Mutex.UnlockNext | trtMutex.c:63-74 | the owner's Unlock leaves the record free; anyone else's Unlock leaves it unchanged; the invariant is kept |
| Mutex.UnlockValue | trtMutex.c:66-68 | the value Unlock writes before it signals: 0 for the owner; anyone else's Unlock leaves the value unchanged |
| Mutex.LockOps | trtMutex.c:54-55 | Lock waits on semaphore m exactly when the mutex is held by another task, and makes no other semaphore call |
| Mutex.UnlockOps | trtMutex.c:67-69 | Unlock signals semaphore m exactly once when the caller is the owner, and otherwise not at all |
| Mutex.MutexTable.constructor | trtMutex.c:17-21 | the static table starts all zero over the kernel's semaphore array |
| Mutex.MutexTable.InitMutex | trtMutex.c:25-32 | every record becomes `owner == NONE` and `state == UNLOCKED` |
| Mutex.MutexTable.CreateMutex | trtMutex.c:37-41 | record m becomes free, semaphore m is created with value UNLOCKED, and the other records are untouched |
| Mutex.MutexTable.LockMutex | trtMutex.c:47-58 | record m becomes `LockNext` of its old value; a wait on m is logged exactly when `LockWaits`; the other records are untouched |
| Mutex.MutexTable.UnlockMutex | trtMutex.c:63-74 | record m becomes `UnlockNext`; semaphore value `m-1` becomes `UnlockValue`, the value written before the signal; a signal of m is logged exactly for the owner; other records and values are untouched |
| Mutex.MutexTable.QueryMutex | trtMutex.c:79-81 | returns record m's state and changes nothing |
| Mutex.MutexTable.OwnerMutex | trtMutex.c:87-89 | tells whether `running` is record m's owner and changes nothing |
| MutexProperties.RunKeepsConsistent | trtMutex.c:47-74 | after any sequence of Lock and Unlock calls by real tasks, the record is still consistent |
| MutexProperties.HeldUntilOwnerUnlocks | trtMutex.c:47-74 | while task a holds the mutex, no call except a's Unlock changes the record, every other task's Lock waits, and nothing is signalled |
| MutexProperties.RelockThenUnlock | trtMutex.c:50-71 | Lock, Lock, Unlock by the task that took the mutex leaves it free after one signal and no wait |
| MutexProperties.WaitThenWake | trtMutex.c:47-74 | a holds the mutex and b's Lock waits; a's Unlock signals and frees the record without recording b as owner; b's next Lock takes the mutex, but so does a third task's Lock if it comes first |

## Left out

- Hardware setup in `trtInitTimer` is not modelled: the `TIMSK0`, `OCR0A`, `TCCR0A` and `TCCR0B` writes and the `TIMERTICK` and `SECONDS2TIMERTICK` preprocessor arithmetic. They program a peripheral and compute floating-point constants. Only the slot-clearing loop is modelled.
- The `FLIP` macro is not modelled, because no core function uses it.
- Interrupt masking (`cli()`/`sei()`) and interleaving between tasks and the interrupt are not modelled. Every public call and every tick is one atomic step.
- `trtWait`, `trtSignal` and `trtCreateSemaphore` are not modelled beyond their calls. Their code is part of the kernel and is not part of this model. The model records each call in a ghost log. It leaves out how each call changes semaphore values and the scheduler. In particular, the initial value that `trtCreateSemaphore` stores is only logged.
- `kernel.running` is a method parameter rather than scheduler state.
- The diagnostic module `trtQuery.c` is not modelled. It formats terminal output and reads task records and raw stack memory.
- The early-deadline option is not modelled. The header comment of `trtMutex.c` promises it, but no code implements it.
- Index bounds are preconditions: timer numbers `1..3`, mutex numbers `1..6` for Create, Lock and Unlock, and `0..6` for Query and Owner. The C code does not check them, and out-of-range numbers index outside the arrays.
- Mutex.MutexTable.OwnerMutex: returns a `bool` where the C function returns the `uint8_t` 0 or 1 of a comparison.
- Mutex.MutexTable.UnlockMutex: `semaphores[m-1]` after the call is the value that Unlock writes before it calls `trtSignal`. The signal is only logged, so the model does not capture how it then changes the value (by the semaphore layer's rules, a signal with nobody waiting increments it).
- Timers.TimerTable.SetTimer: builds the new slot in a local copy and stores it back once. The C code instead assigns `timers[timer_number-1]` seven times in place, and `trtSetTimer` does not mask interrupts. The model treats the whole call as one atomic step. It does not capture a tick that interrupts the setter between two of the stores and sees a half-configured slot.
- Timers.TimerTable.StartTimer, Timers.TimerTable.StopTimer, Timers.TimerTable.DisableTimer: each is one atomic update of the status byte. In C each is an unmasked read-modify-write of `status`, which the tick handler also writes when a one-shot slot expires. The model does not capture a tick that lands between the load and the store. Example: DisableTimer loads 0x83, the tick expires the one-shot slot, clears RUN, counts the period and signals, and the setter then stores 0x03, which turns RUN back on. Neither atomic order gives that result.
- Timers.TimerTable.NumPeriods: reads `Nperiods` in one step. On the 8-bit target the C code reads the two bytes separately without masking interrupts. A tick that increments `Nperiods` between the two reads can yield a value that never existed (for example across 255 to 256). The model does not capture this.
- Timers.TimerTable.ServiceSlot: updates a local copy of the slot and stores it back once, where the C code assigns each field of `timers[i]` in place. Nothing can observe the difference, because the handler runs with interrupts off.
- A zero period is modelled as written: `count` becomes 65535 and every reload repeats that. The invariant and the multi-tick lemmas require `period >= 1`.
- The multi-tick lemmas follow one slot. Over several ticks the table's signal log interleaves the slots' signals in slot order within each tick. That interleaving is stated for one tick only (`Timers.TimerTable.Tick`) and not over several ticks.
