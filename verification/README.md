# Cooperative task core, modelled in Dafny

A model of the three sequential components of `Task.h`, a small
cooperative multitasking core for microcontrollers:

- **`Channel<T,N>`**: a fixed-capacity ring buffer for passing values
  between tasks. It keeps a read index, a write index and a `full` flag
  that tells a full buffer from an empty one when the two indices meet.
  Module `Channels` models it, with capacity N taken as the length of the
  storage. Module `Fifo` is an abstract bounded first-in first-out queue.
  Module `ChannelRefinement` proves that any sequence of calls on the ring
  buffer behaves like the same calls on that queue.
- **`IRQState`**: the interrupt-mask guard (module `Irq`). The hardware
  interrupt-enable bit is an explicit `Cpu` value that every call threads
  through. The client hook `SetInterruptsEnabled` reads and writes it, and
  each write is appended to a log, so that "restored exactly once" can be
  stated.
- **`Task`** (module `Tasks`): the task state machine and its macros
  `TaskBegin`, `TaskYield`, `TaskWait`, `TaskSleepMs` and `TaskEnd`.
  - The saved label address `_jmp` becomes a resume index. 0 is the null
    pointer; `i + 1` is the label inside the macro at instruction `i` of
    the body.
  - A body is a straight-line sequence of instructions. Ordinary code
    between macros is an `Act` on a user state `S` that all tasks share.
  - Module `Scheduler` models `Task::Run`: one round (`Round`) and a
    finite run of rounds (`Rounds`).

Fatal `abort()` calls become the `Aborted` outcome of `Base.Result`.

Where the code and the design documentation of the system differ, the model follows the code:

- `run()` does not invoke the body of a task that is Done (Task.h:138-145).
  It only clears the progress flag and returns false.
- `Task::Run` calls `WaitForInterrupt()` while the round's guard is still
  armed, so interrupts are masked during the halt. The guard is released
  only at the end of the loop iteration. `Scheduler.Round` states this:
  the hook sees exactly two writes, the mask and the restore.
- `Channel::reset()` takes no guard, unlike the other channel operations.

## Model

| member | source | states |
|---|---|---|
| Base.Sub32 | Task.h:149-151 | `uint32_t` subtraction: the result is the difference modulo 2^32, and the plain difference when no wrap occurs |
| Channels.Init | Task.h:241-244 | a new channel satisfies the representation invariant and holds no values |
| Channels.Advance | Task.h:225-227 | incrementing an index and wrapping it to 0 at N keeps it in [0, N) and equals (p + 1) mod N |
| Channels.Count | Task.h:241-244 | the source has no occupancy function; this is the abstraction function for the occupancy that the two indices and `full` encode. It is at most N: N when `full`, otherwise (wptr - rptr) mod N, which is then below N |
| Channels.Readable | Task.h:220 | `_readable()` holds iff the abstract queue is non-empty |
| Channels.Writeable | Task.h:221 | `_writeable()` holds iff the abstract queue holds fewer than N values |
| Channels.RawRead | Task.h:223-230 | `_read()` returns the oldest value (`buf[rptr]`) and removes it from the queue. It advances `rptr` modulo N, clears `full`, and leaves `wptr` and the storage alone |
| Channels.RawWrite | Task.h:232-239 | `_write(x)` stores `x` at `wptr` and advances `wptr` modulo N. It sets `full` iff the indices now coincide and leaves `rptr` unchanged. The queue becomes the old queue followed by `x` |
| Channels.Read | Task.h:186-190 | `read()` aborts iff the channel is empty; otherwise it returns the oldest value and removes it |
| Channels.Write | Task.h:192-196 | `write(x)` aborts iff the channel holds N values; otherwise it appends `x` |
| Channels.ReadTry | Task.h:198-202 | `readTry()` returns an empty result iff the channel is empty, and then the channel is unchanged; otherwise it returns and removes the oldest value |
| Channels.WriteTry | Task.h:204-209 | `writeTry(x)` returns false iff the channel is full, and then the channel is unchanged; otherwise it returns true and appends `x` |
| Channels.Reset | Task.h:211-215 | `reset()` zeroes both indices and clears `full`, so the channel is empty, not readable and writeable |
| Fifo.Step | Task.h:186-215 | the reference behaviour of one call on a bounded queue: only a read of an empty queue or a write of a full one aborts, and the queue never exceeds its capacity |
| Fifo.Run | Task.h:186-215 | a sequence of calls on the bounded queue gives one reply per call and never exceeds the capacity |
| Fifo.WritesAppend | Task.h:192-196 | writing values into a queue with room for them appends them in order, each write replying normally |
| Fifo.ReadsTakeFront | Task.h:186-190 | k reads return the first k values of the queue, oldest first, and remove them |
| Fifo.RoundTrip | Task.h:186-196 | on an empty queue, writing v1..vk (k <= capacity) and then reading k times returns v1..vk in order and leaves the queue empty |
| ChannelRefinement.Apply | Task.h:176-215 | each public channel call matches the abstract queue step: it aborts when the step aborts, gives the same reply, leaves the channel holding the resulting queue, and preserves the index invariant |
| ChannelRefinement.ApplyAll | Task.h:176-215 | across any interleaving of calls that does not abort, both indices stay in [0, N) (the representation invariant) and the capacity is unchanged |
| ChannelRefinement.ApplyAllRefinesRun | Task.h:161-245 | any sequence of calls on the ring buffer equals the same calls on its abstract queue: same replies, same abort, same final contents |
| ChannelRefinement.ChannelRoundTrip | Task.h:223-239 | FIFO on the ring buffer: from an empty channel, writing v1..vk (k <= N) then reading k times yields v1..vk in order and leaves it not readable |
| ChannelRefinement.FillThenDrain | Task.h:211-239 | after `reset()` and N writes the channel is readable but not writeable; after N more reads it is not readable |
| Irq.SetInterruptsEnabled | Task.h:58 | the client hook returns the previous enable bit and sets the new one |
| Irq.Arm | Task.h:75-85 | arming aborts iff the guard is already armed; otherwise it records the previous bit and sets the new one with a single hook call |
| Irq.Enable | Task.h:75-79 | `enable()` aborts iff already armed; otherwise the guard is armed, records the previous bit, and interrupts are on |
| Irq.Disable | Task.h:81-85 | `disable()` aborts iff already armed; otherwise the guard is armed, records the previous bit, and interrupts are off |
| Irq.Restore | Task.h:87-92 | `restore()` on an armed guard writes back the recorded bit and disarms it; on a disarmed guard it changes nothing and makes no hook call |
| Irq.MoveAsWritten | Task.h:69 | the defaulted move constructor copies both fields, so the moved-from guard keeps its armed flag |
| Irq.Move | Task.h:67-69 | a move that transfers ownership: the destination gets the guard and the source is left disarmed |
| Irq.DisabledAsWritten | Task.h:61-65 | the factory as written, with the returned local moved rather than elided, hands back an armed guard recording the previous bit |
| Irq.DisabledAsWrittenLeavesInterruptsOn | Task.h:61-72 | with interrupts enabled on entry, that factory returns an armed guard while interrupts are enabled again |
| Irq.Disabled | Task.h:61-65 | `Disabled()` returns an armed guard that records the previous bit, with interrupts masked and exactly one hook write; the result is that of `disable()` on a fresh guard, as when the return is elided |
| Irq.RestoresDisarmed | Task.h:87-92 | any number of `restore()` calls on a disarmed guard leave the guard and the hardware, including the write log, unchanged |
| Irq.RestoreExactlyOnce | Task.h:71-92 | arming then calling `restore()` one or more times makes exactly two hook writes, the arming one and the one restoring the recorded bit, and leaves the guard disarmed |
| Irq.ArmedRejectsArming | Task.h:75-85 | arming is not reentrant: a second `enable()` or `disable()` without an intervening `restore()` aborts |
| Tasks.New | Task.h:129-158 | a new task is Run, has no resume point, and satisfies the task invariant |
| Tasks.Reset | Task.h:131-134 | `reset()` sets the state to Run and clears the resume point from any state, re-establishing the invariant |
| Tasks.SleepDone | Task.h:149-151 | `_sleepDone()` holds iff (now - start) mod 2^32 >= duration |
| Tasks.SleepDoneAcrossWrap | Task.h:149-151 | across a counter wrap-around, when the true times are under 2^32 ms apart, the sleep is done iff the true elapsed time is at least the duration |
| Tasks.YieldMacro | Task.h:11-25 | `TaskYield()` on arrival always pauses the task at its label in state Wait. On resumption it always goes on, in state Run, reporting progress. Nothing else changes, and the task invariant is kept |
| Tasks.WaitMacro | Task.h:27-33 | `TaskWait(cond)` goes on, in state Run and reporting progress, iff the condition holds, on arrival or on any later resumption. Otherwise it pauses in state Wait on arrival, or leaves the task untouched on resumption. The task invariant is kept |
| Tasks.SleepMacro | Task.h:35-44 | `TaskSleepMs(ms)` always pauses once on arrival, recording the start time and the duration `ms` evaluated in the user state at arrival. On resumption it goes on, reporting progress, iff the sleep is done; otherwise nothing changes. The task invariant is kept |
| Tasks.EndMacro | Task.h:46-53 | `TaskEnd()` never goes on. On arrival the task becomes Done, paused at its label; resuming there changes nothing. The task invariant is kept |
| Tasks.Resume | Task.h:5-9 | `TaskBegin()` jumps back into the macro that saved the resume point. The task goes on, in state Run and reporting progress, iff that macro's Yield/Wait/Sleep is resolved; otherwise it returns unchanged |
| Tasks.Exec | Task.h:5-53 | running the body from an instruction `pc` preserves the task invariant and never clears progress. It reports progress iff the first macro it reaches is a `TaskWait` whose condition already holds. Against the reference `Stop`/`After` (`EndsAtStop`), it stops at the first Yield, Sleep or End, or the first Wait whose condition is false, and leaves the user state the Acts up to there produced. The task is paused at that macro's label, Done at an End and Wait elsewhere, and a Sleep records the clock and its duration. If control falls off the end, the task stays Run with its resume point unchanged |
| Tasks.Invoke | Task.h:5-9 | one invocation of the body preserves the task invariant, never clears progress and never moves the resume point backwards. With no resume point it runs the body from the top. Otherwise, when the pending macro is resolved, it goes on from the instruction right after that macro's label, with the effect `Tasks.Exec` states; when it is not resolved, task and user state are unchanged |
| Tasks.RunOnce | Task.h:136-147 | `run()` returns its progress flag. On a Done task it returns false and changes only that flag. On a paused task it returns true iff the pending Yield/Wait/Sleep is resolved, and an unresolved one changes nothing. A task starting from the top reports progress iff its first macro is a satisfied `TaskWait`. A task that is not Done ends where `Tasks.Exec` says a body entered from the top, or from the resolved macro, ends (`EndsAtStop`), with the user state it produced. It preserves the invariant |
| Tasks.ExecIgnoresSleepFields | Task.h:35-44 | stale sleep bookkeeping never influences a run of the body, because a sleep records its start before reading it |
| Tasks.ResetRestarts | Task.h:131-134 | after `reset()`, the next `run()` behaves exactly as the first run of a new task with the same body |
| Scheduler.RunAll | Task.h:121-123 | one pass runs every task exactly once, in the given order, each on the user state left by the previous one |
| Scheduler.Round | Task.h:117-126 | a round runs every task once in order. It halts the core iff no task returned true. Interrupts stay masked for the round, and the guard makes exactly one masking and one restoring write |
| Scheduler.Rounds | Task.h:117-126 | a finite run of rounds keeps the task invariant for every task and reports one halt flag per round |
| Scheduler.DoneStaysDone | Task.h:136-147 | a task that reached its end stays Done, at the same resume point, through any number of rounds |
| Scheduler.StuckPassIsIdle | Task.h:121-123 | when every task is Done or waiting on a false condition, a pass leaves the tasks and user state unchanged and no task reports progress |
| Scheduler.StuckRoundIsIdle | Task.h:117-126 | a round over tasks that are all Done or waiting on a false condition halts the core and changes neither the tasks nor the user state, so they stay stuck |
| Scheduler.AllStuckHaltsEveryRound | Task.h:115-127 | when every task is permanently blocked, every round calls `WaitForInterrupt()` and nothing changes |

## Left out

- TaskSwap.h (the MSP430/ARM32 stack-switch assembly) is not part of this
  model: it is register- and calling-convention-level code with no
  sequential meaning to state here.
- SendRight.h (a Mach port handle wrapper) is not part of this model.
- Interrupt concurrency: each guarded channel call is treated as atomic.
  The channel functions do not thread the `Cpu` value through their own
  guards; the guard's bracket behaviour is proved once in `Irq`
  (`Disabled`, `Restore`, `RestoreExactlyOnce`).
- The client hooks are inputs, not implementations. `TimeMs()` is one
  clock reading per round, so every task in a round sees the same time.
  `WaitForInterrupt()` is the `halted` flag of a round; waking up is not
  modelled. `SetInterruptsEnabled` writes the `Cpu` value.
- The endless `for (;;)` of `Task::Run` is modelled as one round and as any
  finite number of rounds.
- Task bodies are straight-line: the `std::function` body cannot loop or
  branch around macros. A body such as `for (;;) TaskYield();` is not
  expressible, so "a yield-only task reports progress every round" is
  covered only through `RunOnce`: a task paused at a Yield always reports
  progress.
- The producer/consumer scenario (one task writing 0..4 into a capacity-3
  channel, another reading them) is not proved as a concrete run. The FIFO
  order and the capacity bound it relies on are proved for every sequence
  of channel calls.
- The uninitialised storage `T _buf[N]` is an arbitrary initial sequence
  given to `Channels.Init`. `ReadResult` is `Base.Option`.
- A `Valid` channel (indices in [0, N), `full` only when they coincide,
  N > 0) and a `WellFormed` task are representation invariants. Every
  operation establishes and keeps them, and the operations require them.
  A zero-capacity channel is excluded: `_write` on it would index past the
  storage.
- Irq.Disabled: models the factory `IRQState::Disabled()` with its
  returned local elided: its result is the guard `disable()` armed, and no
  destructor of a moved-from local runs. It gets there through the
  ownership-handing `Irq.Move`, not the defaulted move of Task.h:69. That
  matches the code as written only when the compiler applies named return
  value optimisation;
  `Scheduler.Round` uses it, and its "exactly two hook writes" relies on
  it. The build without that elision is `Irq.DisabledAsWritten`; see
  Findings.
- `abort()` inside `read()` or `write()` would leave interrupts masked. The
  model does not follow execution past an abort.

## Findings

| source | as written | input that shows it | evidently intended | confidence | as-written member | corrected member |
|---|---|---|---|---|---|---|
| Task.h:69 | the defaulted move constructor copies `_prevEnValid`, so a moved-from guard stays armed and its destructor restores interrupts too | `IRQState::Disabled()` entered with interrupts enabled, when the compiler moves the local `irq` into the return value instead of eliding it: the local's destructor re-enables interrupts while the returned guard is armed | a move transfers the single restore duty, leaving the source disarmed | low: not executed; only happens when the copy in `Disabled()` is not elided or a guard is moved explicitly | Irq.DisabledAsWrittenLeavesInterruptsOn | Irq.Disabled |
