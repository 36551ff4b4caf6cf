/** `Task::Run`: the scheduler. Each round masks interrupts with a guard,
    runs every task once in the order given, and halts the core until the
    next interrupt when no task made progress. The endless `for (;;)` is
    modelled one round at a time (`Round`) and as a finite run of rounds
    (`Rounds`). */
module Scheduler {
  import opened Base
  import opened Irq
  import opened Tasks

  /** Every task satisfies the task invariant. */
  predicate AllWellFormed<S>(tasks: seq<Task<S>>)
  {
    forall i :: 0 <= i < |tasks| ==> WellFormed(tasks[i])
  }

  /** One pass over the tasks: the tasks afterwards, the user state before
      each task ran (and after the last), and what each `run()` returned. */
  datatype Pass<!S> = Pass(tasks: seq<Task<S>>, states: seq<S>, progress: seq<bool>)

  /** `for (Task& task : tasks) didWork |= task.run();` */
  function RunAll<S>(tasks: seq<Task<S>>, now: u32, s: S): (r: Pass<S>)
    requires AllWellFormed(tasks)
    ensures |r.tasks| == |tasks| && |r.states| == |tasks| + 1 && |r.progress| == |tasks|
    ensures AllWellFormed(r.tasks)
    ensures r.states[0] == s
    ensures forall i :: 0 <= i < |tasks| ==>
      RunOnce(tasks[i], now, r.states[i]) == Ran(r.tasks[i], r.states[i + 1], r.progress[i])
    decreases |tasks|
  {
    if tasks == [] then Pass([], [s], [])
    else
      var first := RunOnce(tasks[0], now, s);
      var rest := RunAll(tasks[1..], now, first.s);
      Pass([first.task] + rest.tasks, [s] + rest.states, [first.didWork] + rest.progress)
  }

  /** The outcome of one round: the pass, the user state it left, the
      hardware after the guard is released, and whether the round called
      `WaitForInterrupt()`. */
  datatype RoundResult<!S> = RoundResult(pass: Pass<S>, s: S, cpu: Cpu, halted: bool)

  /** One iteration of the `for (;;)` loop of `Task::Run`. The guard is
      still armed when `WaitForInterrupt()` is called; it is released at
      the end of the iteration. */
  function Round<S>(tasks: seq<Task<S>>, now: u32, s: S, cpu: Cpu): (r: RoundResult<S>)
    requires AllWellFormed(tasks)
    ensures |r.pass.tasks| == |tasks| && |r.pass.progress| == |tasks| && |r.pass.states| == |tasks| + 1
    ensures AllWellFormed(r.pass.tasks)
    ensures r.pass.states[0] == s && r.s == r.pass.states[|tasks|]
    ensures forall i :: 0 <= i < |tasks| ==>
      RunOnce(tasks[i], now, r.pass.states[i]) == Ran(r.pass.tasks[i], r.pass.states[i + 1], r.pass.progress[i])
    ensures r.halted <==> forall i :: 0 <= i < |tasks| ==> !r.pass.progress[i]
    ensures r.cpu == Cpu(cpu.enabled, cpu.log + [false, cpu.enabled])
  {
    var g := Disabled(cpu);
    var p := RunAll(tasks, now, s);
    var didWork := true in p.progress;
    var released := Restore(g.irq, g.cpu);
    RoundResult(p, p.states[|tasks|], released.cpu, !didWork)
  }

  /** Several rounds in a row: the tasks and user state after them, the
      hardware, and for each round whether it halted the core. */
  datatype History<!S> = History(tasks: seq<Task<S>>, s: S, cpu: Cpu, halted: seq<bool>)

  /** One round per entry of `nows`, the clock reading during that round. */
  function Rounds<S>(tasks: seq<Task<S>>, nows: seq<u32>, s: S, cpu: Cpu): (r: History<S>)
    requires AllWellFormed(tasks)
    ensures |r.tasks| == |tasks| && |r.halted| == |nows|
    ensures AllWellFormed(r.tasks)
    decreases |nows|
  {
    if nows == [] then History(tasks, s, cpu, [])
    else
      var first := Round(tasks, nows[0], s, cpu);
      var rest := Rounds(first.pass.tasks, nows[1..], first.s, first.cpu);
      History(rest.tasks, rest.s, rest.cpu, [first.halted] + rest.halted)
  }

  /** A task that has reached its end stays Done, at the same resume point,
      through any number of rounds, until it is reset. */
  lemma {:induction false} DoneStaysDone<S>(tasks: seq<Task<S>>, nows: seq<u32>, s: S, cpu: Cpu, k: nat)
    requires AllWellFormed(tasks) && k < |tasks| && tasks[k].state == Done
    ensures Rounds(tasks, nows, s, cpu).tasks[k].state == Done
    ensures Rounds(tasks, nows, s, cpu).tasks[k].jmp == tasks[k].jmp
    decreases |nows|
  {
    if nows != [] {
      var first := Round(tasks, nows[0], s, cpu);
      var t := first.pass.tasks[k];
      var ran := RunOnce(tasks[k], nows[0], first.pass.states[k]);
      assert ran == Ran(first.pass.tasks[k], first.pass.states[k + 1], first.pass.progress[k]);
      assert ran.task == t;
      assert t.state == Done && t.jmp == tasks[k].jmp;
      DoneStaysDone(first.pass.tasks, nows[1..], first.s, first.cpu, k);
      assert Rounds(tasks, nows, s, cpu).tasks == Rounds(first.pass.tasks, nows[1..], first.s, first.cpu).tasks;
    }
  }

  /** A task that cannot make progress in state `s`: Done, or paused at a
      `TaskWait` whose condition is false. */
  predicate Stuck<S>(t: Task<S>, s: S)
  {
    && WellFormed(t)
    && (t.state == Done || (t.jmp > 0 && t.fn[t.jmp - 1].WaitUntil? && !t.fn[t.jmp - 1].cond(s)))
  }

  /** The tasks' control state, ignoring the per-call progress flag. */
  ghost predicate SameTasks<S>(a: seq<Task<S>>, b: seq<Task<S>>)
  {
    |a| == |b| && forall i :: 0 <= i < |a| ==> a[i].(didWork := false) == b[i].(didWork := false)
  }

  /** A pass over stuck tasks changes nothing and makes no progress. */
  lemma {:induction false} StuckPassIsIdle<S>(tasks: seq<Task<S>>, now: u32, s: S)
    requires forall i :: 0 <= i < |tasks| ==> Stuck(tasks[i], s)
    ensures AllWellFormed(tasks)
    ensures RunAll(tasks, now, s).states[|tasks|] == s
    ensures forall i :: 0 <= i < |tasks| ==> !RunAll(tasks, now, s).progress[i]
    ensures SameTasks(RunAll(tasks, now, s).tasks, tasks)
    decreases |tasks|
  {
    if tasks != [] {
      var first := RunOnce(tasks[0], now, s);
      assert first == Ran(tasks[0].(didWork := false), s, false);
      StuckPassIsIdle(tasks[1..], now, s);
      var p := RunAll(tasks, now, s);
      forall i | 0 <= i < |tasks|
        ensures p.tasks[i].(didWork := false) == tasks[i].(didWork := false)
      {
        if i > 0 {
          assert p.tasks[i] == RunAll(tasks[1..], now, s).tasks[i - 1];
        }
      }
    }
  }

  /** A round over stuck tasks halts the core and leaves every task stuck
      and the user state as it was. */
  lemma StuckRoundIsIdle<S>(tasks: seq<Task<S>>, now: u32, s: S, cpu: Cpu)
    requires forall i :: 0 <= i < |tasks| ==> Stuck(tasks[i], s)
    ensures AllWellFormed(tasks)
    ensures Round(tasks, now, s, cpu).halted
    ensures Round(tasks, now, s, cpu).s == s
    ensures SameTasks(Round(tasks, now, s, cpu).pass.tasks, tasks)
    ensures forall i :: 0 <= i < |tasks| ==> Stuck(Round(tasks, now, s, cpu).pass.tasks[i], s)
  {
    StuckPassIsIdle(tasks, now, s);
    var next := Round(tasks, now, s, cpu).pass.tasks;
    forall i | 0 <= i < |next|
      ensures Stuck(next[i], s)
    {
      assert next[i].(didWork := false) == tasks[i].(didWork := false);
    }
  }

  /** When every task is permanently stuck (Done, or waiting on a condition
      that is false), every round makes no progress and calls
      `WaitForInterrupt()`, and the tasks and user state never change. */
  lemma {:induction false} AllStuckHaltsEveryRound<S>(tasks: seq<Task<S>>, nows: seq<u32>, s: S, cpu: Cpu)
    requires forall i :: 0 <= i < |tasks| ==> Stuck(tasks[i], s)
    ensures AllWellFormed(tasks)
    ensures forall j :: 0 <= j < |nows| ==> Rounds(tasks, nows, s, cpu).halted[j]
    ensures Rounds(tasks, nows, s, cpu).s == s
    ensures SameTasks(Rounds(tasks, nows, s, cpu).tasks, tasks)
    decreases |nows|
  {
    StuckPassIsIdle(tasks, 0, s);
    if nows != [] {
      var first := Round(tasks, nows[0], s, cpu);
      StuckRoundIsIdle(tasks, nows[0], s, cpu);
      AllStuckHaltsEveryRound(first.pass.tasks, nows[1..], s, first.cpu);
      var rest := Rounds(first.pass.tasks, nows[1..], s, first.cpu);
      var h := Rounds(tasks, nows, s, cpu);
      assert h == History(rest.tasks, rest.s, rest.cpu, [first.halted] + rest.halted);
      forall i | 0 <= i < |tasks|
        ensures h.tasks[i].(didWork := false) == tasks[i].(didWork := false)
      {
        assert rest.tasks[i].(didWork := false) == first.pass.tasks[i].(didWork := false);
      }
    }
  }
}
