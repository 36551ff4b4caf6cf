/** `IRQState`: the interrupt-mask guard. The hardware enable bit, which the
    client hook `SetInterruptsEnabled` reads and writes, is modelled as an
    explicit `Cpu` value threaded through every call; `log` records each
    value the hook was asked to write, so that "exactly once" can be stated. */
module Irq {
  import opened Base

  /** The interrupt-enable bit and the history of writes to it. */
  datatype Cpu = Cpu(enabled: bool, log: seq<bool>)

  /** `_prevEn` is the enable state seen when the guard was armed;
      `_prevEnValid` says whether the guard is armed. */
  datatype IRQState = IRQState(prevEn: bool, prevEnValid: bool)

  /** A guard together with the hardware after a call on it. */
  datatype Guarded = Guarded(irq: IRQState, cpu: Cpu)

  /** The default-constructed guard: disarmed. */
  const Default: IRQState := IRQState(false, false)

  /** The client hook: sets the enable bit to `en` and returns its previous value. */
  function SetInterruptsEnabled(cpu: Cpu, en: bool): (r: (bool, Cpu))
    ensures r.0 == cpu.enabled
    ensures r.1.enabled == en && r.1.log == cpu.log + [en]
  {
    (cpu.enabled, Cpu(en, cpu.log + [en]))
  }

  /** The common body of `enable()` and `disable()`: abort when already
      armed, otherwise set the bit to `en` and record what it was. */
  function Arm(g: IRQState, cpu: Cpu, en: bool): (r: Result<Guarded>)
    ensures r.Aborted? <==> g.prevEnValid
    ensures r.Ok? ==> r.value.irq == IRQState(cpu.enabled, true)
    ensures r.Ok? ==> r.value.cpu == Cpu(en, cpu.log + [en])
  {
    if g.prevEnValid then Aborted
    else
      var (prev, cpu') := SetInterruptsEnabled(cpu, en);
      Ok(Guarded(IRQState(prev, true), cpu'))
  }

  /** `enable()`: unmask interrupts, remembering whether they were enabled. */
  function Enable(g: IRQState, cpu: Cpu): (r: Result<Guarded>)
    ensures r.Aborted? <==> g.prevEnValid
    ensures r.Ok? ==> r.value.irq.prevEnValid && r.value.irq.prevEn == cpu.enabled
    ensures r.Ok? ==> r.value.cpu.enabled && r.value.cpu.log == cpu.log + [true]
  {
    Arm(g, cpu, true)
  }

  /** `disable()`: mask interrupts, remembering whether they were enabled. */
  function Disable(g: IRQState, cpu: Cpu): (r: Result<Guarded>)
    ensures r.Aborted? <==> g.prevEnValid
    ensures r.Ok? ==> r.value.irq.prevEnValid && r.value.irq.prevEn == cpu.enabled
    ensures r.Ok? ==> !r.value.cpu.enabled && r.value.cpu.log == cpu.log + [false]
  {
    Arm(g, cpu, false)
  }

  /** `restore()` (also run by the destructor): an armed guard puts back the
      state it recorded and disarms; a disarmed guard does nothing at all. */
  function Restore(g: IRQState, cpu: Cpu): (r: Guarded)
    ensures !r.irq.prevEnValid
    ensures g.prevEnValid ==> r.cpu == Cpu(g.prevEn, cpu.log + [g.prevEn])
    ensures !g.prevEnValid ==> r == Guarded(g, cpu)
  {
    if g.prevEnValid then
      var (_, cpu') := SetInterruptsEnabled(cpu, g.prevEn);
      Guarded(g.(prevEnValid := false), cpu')
    else Guarded(g, cpu)
  }

  /** The move constructor as written (`= default`): both bools are copied,
      so the moved-from guard stays armed. Returns (destination, source). */
  function MoveAsWritten(g: IRQState): (r: (IRQState, IRQState))
    ensures r.0 == g && r.1.prevEnValid == g.prevEnValid
  {
    (g, g)
  }

  /** The move that hands ownership over: the destination gets the guard,
      the source is left disarmed. Returns (destination, source). */
  function Move(g: IRQState): (r: (IRQState, IRQState))
    ensures r.0 == g && !r.1.prevEnValid
  {
    (g, g.(prevEnValid := false))
  }

  /** `Disabled()` when the returned local is moved out rather than elided:
      the local is disarmed, moved with `mv`, and then destroyed. */
  function DisabledVia(cpu: Cpu, mv: IRQState -> (IRQState, IRQState)): Guarded
  {
    var local := Disable(Default, cpu).value;
    var (dst, src) := mv(local.irq);
    var destroyed := Restore(src, local.cpu);
    Guarded(dst, destroyed.cpu)
  }

  /** The factory `Disabled()` as written, without copy elision. */
  function DisabledAsWritten(cpu: Cpu): (r: Guarded)
    ensures r.irq == IRQState(cpu.enabled, true)
  {
    DisabledVia(cpu, MoveAsWritten)
  }

  /** The finding: with interrupts enabled on entry, the factory as written
      (without elision) hands back an armed guard while interrupts are
      enabled again, so the critical section it opens is not masked. */
  lemma DisabledAsWrittenLeavesInterruptsOn()
    ensures DisabledAsWritten(Cpu(true, [])).irq.prevEnValid
    ensures DisabledAsWritten(Cpu(true, [])).cpu.enabled
  {
  }

  /** `Disabled()`: a guard that is armed, with interrupts masked and the
      previous state recorded; exactly one write reaches the hardware. It
      moves the local out with the ownership-handing `Move`, which gives
      exactly what eliding the move gives: the guard `disable()` armed. */
  function Disabled(cpu: Cpu): (r: Guarded)
    ensures Disable(Default, cpu).Ok? && r == Disable(Default, cpu).value
    ensures r.irq == IRQState(cpu.enabled, true)
    ensures r.cpu == Cpu(false, cpu.log + [false])
  {
    DisabledVia(cpu, Move)
  }

  /** One call on a guard. */
  datatype GuardOp = EnableOp | DisableOp | RestoreOp

  /** A sequence of calls on one guard, as a scope would make them; the
      first abort ends it. */
  function Calls(g: IRQState, cpu: Cpu, ops: seq<GuardOp>): (r: Result<Guarded>)
    ensures r.Ok? ==> |cpu.log| <= |r.value.cpu.log| <= |cpu.log| + |ops|
    decreases |ops|
  {
    if ops == [] then Ok(Guarded(g, cpu))
    else
      var step := match ops[0]
        case EnableOp => Enable(g, cpu)
        case DisableOp => Disable(g, cpu)
        case RestoreOp => Ok(Restore(g, cpu));
      match step
      case Aborted => Aborted
      case Ok(next) => Calls(next.irq, next.cpu, ops[1..])
  }

  /** `k` calls of `restore()`. */
  function Restores(k: nat): (ops: seq<GuardOp>)
    ensures |ops| == k
    ensures forall i :: 0 <= i < k ==> ops[i] == RestoreOp
  {
    seq(k, i => RestoreOp)
  }

  /** Calling `restore()` on a disarmed guard any number of times changes
      nothing, not even the hook's write log. */
  lemma {:induction false} RestoresDisarmed(g: IRQState, cpu: Cpu, k: nat)
    requires !g.prevEnValid
    ensures Calls(g, cpu, Restores(k)) == Ok(Guarded(g, cpu))
    decreases k
  {
    if k > 0 {
      assert Restores(k)[1..] == Restores(k - 1);
      RestoresDisarmed(g, cpu, k - 1);
    }
  }

  /** Arming a guard and then calling `restore()` k >= 1 times puts the
      recorded state back exactly once: the hook sees the arming write and
      one restoring write, and the bit ends as it was found. */
  lemma RestoreExactlyOnce(g: IRQState, cpu: Cpu, arm: GuardOp, k: nat)
    requires !g.prevEnValid && arm != RestoreOp && k >= 1
    ensures Calls(g, cpu, [arm] + Restores(k)).Ok?
    ensures Calls(g, cpu, [arm] + Restores(k)).value.cpu
         == Cpu(cpu.enabled, cpu.log + [arm == EnableOp, cpu.enabled])
    ensures !Calls(g, cpu, [arm] + Restores(k)).value.irq.prevEnValid
  {
    var ops := [arm] + Restores(k);
    assert ops[1..] == Restores(k);
    var armed := if arm == EnableOp then Enable(g, cpu).value else Disable(g, cpu).value;
    assert Restores(k)[1..] == Restores(k - 1);
    var restored := Restore(armed.irq, armed.cpu);
    RestoresDisarmed(restored.irq, restored.cpu, k - 1);
  }

  /** Arming is not reentrant: once armed, `enable()` and `disable()` abort
      until a `restore()` has disarmed the guard. */
  lemma ArmedRejectsArming(g: IRQState, cpu: Cpu, arm: GuardOp, rest: seq<GuardOp>)
    requires !g.prevEnValid && arm != RestoreOp
    requires forall i :: 0 <= i < |rest| ==> rest[i] != RestoreOp
    requires rest != []
    ensures Calls(g, cpu, [arm] + rest).Aborted?
  {
  }
}
