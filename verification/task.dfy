/** `Task`: a cooperative task whose body is written with the macros
    `TaskBegin`, `TaskYield`, `TaskWait`, `TaskSleepMs` and `TaskEnd`.

    The body is a straight-line program of instructions; ordinary code
    between macros is an `Act` on the user state `S` that the tasks share.
    The saved label address `_jmp` becomes an explicit resume index: 0 is
    the null pointer (start from the top), and `i + 1` is the label inside
    the macro at instruction `i`. */
module Tasks {
  import opened Base

  datatype State = Run | Wait | Done

  datatype Instr<!S> =
    | Act(f: S -> S)              // ordinary statements between macros
    | Yield                       // TaskYield()
    | WaitUntil(cond: S -> bool)  // TaskWait(cond)
    | SleepMs(ms: S -> u32)       // TaskSleepMs(ms), `ms` evaluated on arrival
    | End                         // TaskEnd()

  datatype Task<!S> = Task(
    fn: seq<Instr<S>>,
    state: State,
    didWork: bool,
    jmp: nat,
    sleepStartMs: u32,
    sleepDurationMs: u32)

  /** The result of `run()`: the task, the user state its body left, and
      the value `run()` returned. */
  datatype Ran<!S> = Ran(task: Task<S>, s: S, didWork: bool)

  /** Where control goes after a macro: on past it, or back to the scheduler. */
  datatype Flow<!S> = Continue(t: Task<S>) | Return(t: Task<S>)

  /** Instructions that hold a label a task can resume at. */
  predicate IsMacro<S>(i: Instr<S>)
  {
    !i.Act?
  }

  /** The task invariant: the resume index, when set, names a macro of the
      body; a waiting task is paused inside a Yield, Wait or Sleep; and a
      task is Done exactly when it is paused at its End. */
  predicate WellFormed<S>(t: Task<S>)
  {
    && t.jmp <= |t.fn|
    && (t.jmp > 0 ==> IsMacro(t.fn[t.jmp - 1]))
    && (t.state == Wait ==> t.jmp > 0)
    && (t.state == Done <==> t.jmp > 0 && t.fn[t.jmp - 1].End?)
  }

  /** `Task(fn)`: a new task, Run, with no resume point. */
  function New<S>(fn: seq<Instr<S>>): (t: Task<S>)
    ensures WellFormed(t) && t.fn == fn
    ensures t.state == Run && t.jmp == 0 && !t.didWork
  {
    Task(fn, Run, false, 0, 0, 0)
  }

  /** `reset()`: back to Run with no resume point, whatever the state. */
  function Reset<S>(t: Task<S>): (r: Task<S>)
    ensures WellFormed(r) && r.fn == t.fn
    ensures r.state == Run && r.jmp == 0
  {
    t.(state := Run, jmp := 0)
  }

  /** Whether `duration` ms have passed since `start`, measured with
      wrapping 32-bit subtraction. */
  function SleepDone(start: u32, duration: u32, now: u32): (b: bool)
    ensures b <==> (now - start) % TwoTo32 >= duration
  {
    Sub32(now, start) >= duration
  }

  /** The wrapping subtraction gives the right answer across a clock
      wrap-around: if the true (unbounded) times `t0 <= t1` are less than
      2^32 ms apart, the sleep is done iff `t1 - t0 >= duration`. */
  lemma SleepDoneAcrossWrap(t0: nat, t1: nat, duration: u32)
    requires t0 <= t1 < t0 + TwoTo32
    ensures SleepDone(t0 % TwoTo32, duration, t1 % TwoTo32) <==> t1 - t0 >= duration
  {
  }

  /** How control can reach the macro at instruction `i`: by falling
      through from above (`entering`), in state Run with the resume point
      behind it, or by the jump of `TaskBegin()` to the macro's own label. */
  predicate Reaches<S>(t: Task<S>, i: nat, entering: bool)
  {
    && WellFormed(t) && i < |t.fn|
    && (entering ==> t.state == Run && t.jmp <= i)
    && (!entering ==> t.jmp == i + 1)
  }

  /** `TaskYield()` at instruction `i`: on first arrival the task pauses
      here in state Wait; when resumed it always goes on, in state Run,
      reporting progress. Nothing else about the task changes. */
  function YieldMacro<S>(t: Task<S>, i: nat, entering: bool): (r: Flow<S>)
    requires Reaches(t, i, entering) && t.fn[i].Yield?
    ensures WellFormed(r.t) && r.t.fn == t.fn
    ensures r.Continue? <==> !entering
    ensures r.Continue? ==> r.t == t.(state := Run, didWork := true)
    ensures r.Return? ==> r.t == t.(state := Wait, jmp := i + 1)
  {
    if entering then Return(t.(state := Wait, jmp := i + 1))
    else Continue(t.(state := Run, didWork := true))
  }

  /** `TaskWait(cond)` at instruction `i`: goes on, in state Run and
      reporting progress, exactly when `cond` holds, whether on arrival or
      on a later resumption. Otherwise the task pauses here in state Wait
      on arrival, and a resumption leaves it exactly as it was. */
  function WaitMacro<S>(t: Task<S>, i: nat, holds: bool, entering: bool): (r: Flow<S>)
    requires Reaches(t, i, entering) && t.fn[i].WaitUntil?
    ensures WellFormed(r.t) && r.t.fn == t.fn
    ensures r.Continue? <==> holds
    ensures r.Continue? ==> r.t == t.(state := Run, didWork := true)
    ensures r.Return? && entering ==> r.t == t.(state := Wait, jmp := i + 1)
    ensures r.Return? && !entering ==> r.t == t
  {
    if holds then Continue(t.(state := Run, didWork := true))
    else if entering then Return(t.(state := Wait, jmp := i + 1))
    else Return(t)
  }

  /** `TaskSleepMs(ms)` at instruction `i`: on arrival it evaluates `ms`
      in the current user state `s`, records the start time and that
      duration and always pauses here once, in state Wait; a resumption
      goes on, in state Run and reporting progress, exactly when the sleep
      is done, and otherwise leaves the task as it was. */
  function SleepMacro<S>(t: Task<S>, i: nat, s: S, now: u32, entering: bool): (r: Flow<S>)
    requires Reaches(t, i, entering) && t.fn[i].SleepMs?
    ensures WellFormed(r.t) && r.t.fn == t.fn
    ensures r.Continue? <==> !entering && SleepDone(t.sleepStartMs, t.sleepDurationMs, now)
    ensures r.Continue? ==> r.t == t.(state := Run, didWork := true)
    ensures r.Return? && entering ==>
      r.t == t.(state := Wait, sleepStartMs := now, sleepDurationMs := t.fn[i].ms(s), jmp := i + 1)
    ensures r.Return? && !entering ==> r.t == t
  {
    if entering then Return(t.(state := Wait, sleepStartMs := now, sleepDurationMs := t.fn[i].ms(s), jmp := i + 1))
    else if Sub32(now, t.sleepStartMs) >= t.sleepDurationMs then Continue(t.(state := Run, didWork := true))
    else Return(t)
  }

  /** `TaskEnd()` at instruction `i`: never goes on. On arrival the task
      becomes Done, paused at the label just before the `return`; resuming
      there changes nothing. */
  function EndMacro<S>(t: Task<S>, i: nat, entering: bool): (r: Flow<S>)
    requires Reaches(t, i, entering) && t.fn[i].End?
    ensures WellFormed(r.t) && r.t.fn == t.fn
    ensures r.Return?
    ensures entering ==> r.t == t.(state := Done, jmp := i + 1)
    ensures !entering ==> r.t == t
  {
    if entering then Return(t.(state := Done, jmp := i + 1)) else Return(t)
  }

  /** Whether the macro a task is paused at lets it go on now: a Yield
      always does, a Wait when its condition holds, a Sleep when its time
      is up, an End never. */
  predicate Resolves<S>(t: Task<S>, s: S, now: u32)
    requires WellFormed(t) && t.jmp > 0
  {
    match t.fn[t.jmp - 1]
    case Yield => true
    case WaitUntil(cond) => cond(s)
    case SleepMs(_) => SleepDone(t.sleepStartMs, t.sleepDurationMs, now)
    case _ => false
  }

  /** Re-entering the macro whose label `TaskBegin()` jumps to: the task
      goes on, in state Run and reporting progress, exactly when that macro
      is resolved; otherwise it returns at once, unchanged. */
  function Resume<S>(t: Task<S>, s: S, now: u32): (r: Flow<S>)
    requires WellFormed(t) && t.jmp > 0
    ensures WellFormed(r.t) && r.t.fn == t.fn
    ensures r.Continue? <==> Resolves(t, s, now)
    ensures r.Continue? ==> r.t == t.(state := Run, didWork := true)
    ensures r.Return? ==> r.t == t
  {
    var i := t.jmp - 1;
    match t.fn[i]
    case Yield => YieldMacro(t, i, false)
    case WaitUntil(cond) => WaitMacro(t, i, cond(s), false)
    case SleepMs(_) => SleepMacro(t, i, s, now, false)
    case End => EndMacro(t, i, false)
  }

  /** Whether a body started at instruction `pc` in user state `s` reports
      progress before it first returns: exactly when the first macro it
      reaches is a `TaskWait` whose condition already holds. */
  predicate PassesFirstMacro<S>(fn: seq<Instr<S>>, s: S, pc: nat)
    requires pc <= |fn|
    decreases |fn| - pc
  {
    if pc == |fn| then false
    else
      match fn[pc]
      case Act(f) => PassesFirstMacro(fn, f(s), pc + 1)
      case WaitUntil(cond) => cond(s)
      case _ => false
  }

  /** Where a body entered at instruction `pc` in user state `s` first
      returns to the scheduler: the first Yield, Sleep or End at or after
      `pc`, or the first Wait whose condition is false in the user state
      the Acts before it produced; `|fn|` when control falls off the end. */
  function Stop<S>(fn: seq<Instr<S>>, s: S, pc: nat): (k: nat)
    requires pc <= |fn|
    ensures pc <= k <= |fn|
    decreases |fn| - pc
  {
    if pc == |fn| then pc
    else
      match fn[pc]
      case Act(f) => Stop(fn, f(s), pc + 1)
      case WaitUntil(cond) => if cond(s) then Stop(fn, s, pc + 1) else pc
      case _ => pc
  }

  /** The user state `s` after the Acts among instructions `pc .. k - 1`,
      applied in order; macros leave it alone. */
  function After<S>(fn: seq<Instr<S>>, s: S, pc: nat, k: nat): S
    requires pc <= k <= |fn|
    decreases k - pc
  {
    if pc == k then s
    else
      match fn[pc]
      case Act(f) => After(fn, f(s), pc + 1, k)
      case _ => After(fn, s, pc + 1, k)
  }

  /** `r` is what a body entered at `pc` in user state `s`, with resume
      index `jmp0`, leaves behind. Its user state is the one the Acts up to
      the stop point produced. If the body stopped at a macro, the task is
      paused at that macro's label: Done at an End and Wait elsewhere, and
      a Sleep has recorded `now` and its duration, evaluated on arrival.
      If control fell off the end, the task is still Run with resume index
      `jmp0`. */
  ghost predicate EndsAtStop<S>(fn: seq<Instr<S>>, s: S, now: u32, pc: nat, jmp0: nat, r: (Task<S>, S))
    requires pc <= |fn|
  {
    var k := Stop(fn, s, pc);
    && r.1 == After(fn, s, pc, k)
    && (k == |fn| ==> r.0.state == Run && r.0.jmp == jmp0)
    && (k < |fn| ==> r.0.jmp == k + 1)
    && (k < |fn| ==> (r.0.state == Done <==> fn[k].End?))
    && (k < |fn| && !fn[k].End? ==> r.0.state == Wait)
    && (k < |fn| && fn[k].SleepMs? ==> r.0.sleepStartMs == now && r.0.sleepDurationMs == fn[k].ms(r.1))
  }

  /** Runs the body from instruction `pc` until a macro returns to the
      scheduler or control falls off the end of the body. */
  function Exec<S>(t: Task<S>, s: S, now: u32, pc: nat): (r: (Task<S>, S))
    requires WellFormed(t) && t.state == Run && t.jmp <= pc <= |t.fn|
    ensures WellFormed(r.0) && r.0.fn == t.fn
    ensures t.didWork ==> r.0.didWork
    ensures !t.didWork ==> (r.0.didWork <==> PassesFirstMacro(t.fn, s, pc))
    ensures r.0.jmp == t.jmp || pc < r.0.jmp
    ensures EndsAtStop(t.fn, s, now, pc, t.jmp, r)
    decreases |t.fn| - pc
  {
    if pc == |t.fn| then (t, s)
    else
      match t.fn[pc]
      case Act(f) => Exec(t, f(s), now, pc + 1)
      case Yield => (YieldMacro(t, pc, true).t, s)
      case WaitUntil(cond) =>
        (match WaitMacro(t, pc, cond(s), true)
         case Continue(t') => Exec(t', s, now, pc + 1)
         case Return(t') => (t', s))
      case SleepMs(_) => (SleepMacro(t, pc, s, now, true).t, s)
      case End => (EndMacro(t, pc, true).t, s)
  }

  /** `TaskBegin()` and what follows: with no resume point the body starts
      at the top; otherwise control re-enters the macro that saved it. */
  function Invoke<S>(t: Task<S>, s: S, now: u32): (r: (Task<S>, S))
    requires WellFormed(t) && t.state != Done
    ensures WellFormed(r.0) && r.0.fn == t.fn
    ensures t.didWork ==> r.0.didWork
    ensures t.jmp <= r.0.jmp
    ensures t.jmp == 0 ==> EndsAtStop(t.fn, s, now, 0, 0, r)
    ensures t.jmp > 0 && Resolves(t, s, now) ==> EndsAtStop(t.fn, s, now, t.jmp, t.jmp, r)
    ensures t.jmp > 0 && !Resolves(t, s, now) ==> r == (t, s)
  {
    if t.jmp == 0 then Exec(t, s, now, 0)
    else
      match Resume(t, s, now)
      case Continue(t') => Exec(t', s, now, t.jmp)
      case Return(t') => (t', s)
  }

  /** `run()`: clears the progress flag, invokes the body unless the task
      is Done, and returns whether the body made progress. */
  function RunOnce<S>(t: Task<S>, now: u32, s: S): (r: Ran<S>)
    requires WellFormed(t)
    ensures WellFormed(r.task) && r.task.fn == t.fn
    ensures r.didWork == r.task.didWork
    ensures t.state == Done ==> r == Ran(t.(didWork := false), s, false)
    ensures t.state != Done && t.jmp == 0 ==> (r.didWork <==> PassesFirstMacro(t.fn, s, 0))
    ensures t.state != Done && t.jmp > 0 ==> (r.didWork <==> Resolves(t, s, now))
    ensures t.state != Done && t.jmp > 0 && !Resolves(t, s, now) ==>
      r == Ran(t.(didWork := false), s, false)
    ensures t.jmp <= r.task.jmp
    ensures t.state != Done && t.jmp == 0 ==> EndsAtStop(t.fn, s, now, 0, 0, (r.task, r.s))
    ensures t.state != Done && t.jmp > 0 && Resolves(t, s, now) ==>
      EndsAtStop(t.fn, s, now, t.jmp, t.jmp, (r.task, r.s))
  {
    var t0 := t.(didWork := false);
    match t.state
    case Done => Ran(t0, s, false)
    case _ =>
      var (t1, s1) := Invoke(t0, s, now);
      Ran(t1, s1, t1.didWork)
  }

  /** The parts of a task that decide how its body runs. */
  ghost predicate SameControl<S>(a: Task<S>, b: Task<S>)
  {
    a.fn == b.fn && a.state == b.state && a.didWork == b.didWork && a.jmp == b.jmp
  }

  /** The sleep bookkeeping left over from earlier runs does not matter to
      a body run from the top: it is overwritten before it is read. */
  lemma ExecIgnoresSleepFields<S>(a: Task<S>, b: Task<S>, s: S, now: u32, pc: nat)
    requires SameControl(a, b) && WellFormed(a) && WellFormed(b)
    requires a.state == Run && a.jmp <= pc <= |a.fn|
    ensures SameControl(Exec(a, s, now, pc).0, Exec(b, s, now, pc).0)
    ensures Exec(a, s, now, pc).1 == Exec(b, s, now, pc).1
  {
  }

  /** `reset()` restarts a task: whatever it did before, its next run does
      what the first run of a newly constructed task with the same body does. */
  lemma ResetRestarts<S>(t: Task<S>, now: u32, s: S)
    ensures SameControl(RunOnce(Reset(t), now, s).task, RunOnce(New(t.fn), now, s).task)
    ensures RunOnce(Reset(t), now, s).s == RunOnce(New(t.fn), now, s).s
    ensures RunOnce(Reset(t), now, s).didWork == RunOnce(New(t.fn), now, s).didWork
  {
  }
}
