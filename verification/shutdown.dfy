/** Signals, and the shutdown sequence they start: a machine of single steps interleaved with everything else. */
module Shutdowns {
  import opened Lifecycles

  datatype Cause = Term | Int | Abort

  /** Milliseconds of answering DNS while readiness reports 503. */
  function DrainWindow(cause: Cause, configured: nat): nat {
    match cause
    case Term => configured
    case Int | Abort => 0
  }

  const MAX_COUNT := 0xffff_ffff

  function SaturatingInc(count: nat): nat {
    if count < MAX_COUNT then count + 1 else count
  }

  class Signals {
    var count: nat
    var cause: Option<Cause>

    ghost predicate Valid()
      reads this
    {
      count > 0 ==> cause.Some?
    }

    constructor ()
      ensures Valid() && count == 0 && cause == None
    {
      count := 0;
      cause := None;
    }

    method Bump()
      modifies this`count
      ensures count == SaturatingInc(old(count))
    {
      count := SaturatingInc(count);
    }

    /** The first cause stays the cause; the count is published after it. */
    method Deliver(c: Cause) returns (first: bool)
      requires Valid()
      modifies this
      ensures Valid() && count == SaturatingInc(old(count))
      ensures first <==> old(cause).None?
      ensures cause == if first then Some(c) else old(cause)
    {
      first := cause.None?;
      if first { cause := Some(c); }
      Bump();
    }

    method AbortProcess()
      requires Valid()
      modifies this
      ensures Valid() && count == SaturatingInc(old(count))
      ensures cause == if old(cause).None? then Some(Abort) else old(cause)
    {
      var _ := Deliver(Abort);
    }
  }

  // ------------------------------------------------------------- the machine

  const STOP_BUDGET := 5_000
  const QUIESCE_CAP := 1_000
  const QUIESCE_POLL := 5
  const ADMIN_CLOSE_BUDGET := 1_000
  const OVERRUN_EXIT_CODE := 3

  /** What an observer of the process could write down. `Idle` is the sequence reading no request in flight; `SequenceDone` its return. */
  datatype Event =
    | Signal | DrainToken | DnsToken | AdminToken | Entered(phase: Phase) | WindowOpened | Idle | ListenersDone | SequenceDone
    | Exited(code: nat)

  datatype Stamped = Stamped(at: nat, event: Event)

  /** Where the main task stands. The pcs that hold a time are those that wait for it. */
  datatype Pc =
    | Steady | Woken | Begin | EnterDraining | OpenWindow
    | DrainWait(until: nat, baseline: nat)
    | EnterStopping | StartQuiesce
    | Poll(cap: nat)
    | QuiesceWait(cap: nat, until: nat, baseline: nat)
    | CancelDns | AwaitListeners | EnterClosing | CancelAdmin
    | AwaitAdmin(until: nat)
    | Finished | Leaving
    | Done(code: nat, reached: nat)

  /** Where in the trace each milestone was passed. */
  datatype Marks = Marks(drain: nat, draining: nat, window: nat, stopping: nat, dns: nat, listeners: nat, closing: nat, admin: nat, done: nat)

  datatype Setup = Setup(drain: nat, adminTask: bool)

  datatype State = State(
    now: nat,
    count: nat, cause: Option<Cause>, unbumped: nat,
    inFlight: nat, phase: Phase,
    window: nat, deadline: nat,
    pc: Pc, trace: seq<Stamped>, marks: Marks)

  /** `SetCause` and `Bump` are the two halves of a delivery; `Main` is the main task's own next step. */
  datatype Step = Tick | SetCause(cause: Cause) | Bump | Arrive | Leave | EnterServing | Main | Further | ListenersReturn | AdminReturns | Timeout

  function Start(): State {
    State(0, 0, None, 0, 0, STARTING, 0, 0, Steady, [], Marks(0, 0, 0, 0, 0, 0, 0, 0, 0))
  }

  /** How far the sequence has got; one more than the last milestone passed. */
  function Stage(pc: Pc): nat {
    match pc
    case Steady => 0
    case Woken => 1
    case Begin => 2
    case EnterDraining => 3
    case OpenWindow => 4
    case DrainWait(_, _) => 5
    case EnterStopping => 6
    case StartQuiesce => 7
    case Poll(_) => 7
    case QuiesceWait(_, _, _) => 7
    case CancelDns => 8
    case AwaitListeners => 9
    case EnterClosing => 10
    case CancelAdmin => 11
    case AwaitAdmin(_) => 12
    case Finished => 12
    case Leaving => 13
    case Done(_, reached) => reached
  }

  predicate Waiting(pc: Pc) {
    pc.Steady? || pc.DrainWait? || pc.QuiesceWait? || pc.AwaitListeners? || pc.AwaitAdmin? || pc.Done?
  }

  predicate TimerDue(st: State) {
    (st.pc.DrainWait? || st.pc.QuiesceWait? || st.pc.AwaitAdmin?) && st.now >= st.pc.until
  }

  /** A signal has been published since the main task began to wait for one. */
  predicate SignalDue(st: State) {
    (st.pc.Steady? && st.count > 0) || ((st.pc.DrainWait? || st.pc.QuiesceWait?) && st.count > st.pc.baseline)
  }

  /** What the main task waits for has come, so it is woken before the clock moves on. */
  predicate WakeDue(st: State) {
    TimerDue(st) || SignalDue(st)
  }

  /** The sequence runs under the hard deadline from the moment that is armed. */
  predicate UnderDeadline(pc: Pc) {
    !pc.Steady? && !pc.Woken? && !pc.Done?
  }

  function Log(st: State, event: Event): State {
    st.(trace := st.trace + [Stamped(st.now, event)])
  }

  function Enter(st: State, phase: Phase): State {
    Log(st.(phase := MaxPhase(st.phase, phase)), Entered(phase))
  }

  function Min(a: nat, b: nat): nat {
    if a < b then a else b
  }

  /** The main task's next step, when it is not waiting for somebody else. */
  function MainStep(su: Setup, st: State): State {
    var here := |st.trace|;
    match st.pc
    case Steady => if st.count > 0 then st.(pc := Woken) else st
    case Woken =>
      var window := DrainWindow(if st.cause.Some? then st.cause.value else Term, su.drain);
      st.(window := window, deadline := st.now + window + STOP_BUDGET, pc := Begin)
    case Begin => Log(st, DrainToken).(pc := EnterDraining, marks := st.marks.(drain := here))
    case EnterDraining => Enter(st, DRAINING).(pc := OpenWindow, marks := st.marks.(draining := here))
    case OpenWindow => Log(st, WindowOpened).(pc := DrainWait(st.now + st.window, st.count), marks := st.marks.(window := here))
    case DrainWait(until, _) => if st.now >= until then st.(pc := EnterStopping) else st
    case EnterStopping => Enter(st, STOPPING).(pc := StartQuiesce, marks := st.marks.(stopping := here))
    case StartQuiesce => st.(pc := Poll(st.now + QUIESCE_CAP))
    case Poll(cap) =>
      if st.inFlight == 0 then Log(st, Idle).(pc := CancelDns)
      else if st.now >= cap then st.(pc := CancelDns)
      else st.(pc := QuiesceWait(cap, st.now + Min(QUIESCE_POLL, cap - st.now), st.count))
    case QuiesceWait(cap, until, _) => if st.now >= until then st.(pc := Poll(cap)) else st
    case CancelDns => Log(st, DnsToken).(pc := AwaitListeners, marks := st.marks.(dns := here))
    case EnterClosing => Enter(st, CLOSING).(pc := CancelAdmin, marks := st.marks.(closing := here))
    case CancelAdmin =>
      Log(st, AdminToken).(pc := if su.adminTask then AwaitAdmin(st.now + ADMIN_CLOSE_BUDGET) else Finished,
                           marks := st.marks.(admin := here))
    case AwaitAdmin(until) => if st.now >= until then st.(pc := Finished) else st
    case Finished => Log(st, SequenceDone).(pc := Leaving, marks := st.marks.(done := here))
    case Leaving => Log(st, Exited(0)).(pc := Done(0, 13))
    case _ => st
  }

  function Next(su: Setup, st: State, step: Step): State {
    match step
    case Tick =>
      if Waiting(st.pc) && !WakeDue(st) && (UnderDeadline(st.pc) ==> st.now < st.deadline) then st.(now := st.now + 1) else st
    case SetCause(c) => st.(cause := if st.cause.None? then Some(c) else st.cause, unbumped := st.unbumped + 1)
    case Bump => if st.unbumped > 0 then Log(st.(count := SaturatingInc(st.count), unbumped := st.unbumped - 1), Signal) else st
    case Arrive => if Stage(st.pc) < 9 then st.(inFlight := st.inFlight + 1) else st
    case Leave => if st.inFlight > 0 then st.(inFlight := st.inFlight - 1) else st
    case EnterServing => Enter(st, SERVING)
    case Main => MainStep(su, st)
    case Further =>
      (match st.pc
       case DrainWait(_, baseline) => if st.count > baseline then st.(pc := EnterStopping) else st
       case QuiesceWait(_, _, baseline) => if st.count > baseline then st.(pc := CancelDns) else st
       case _ => st)
    case ListenersReturn =>
      if st.pc.AwaitListeners? then Log(st, ListenersDone).(pc := EnterClosing, marks := st.marks.(listeners := |st.trace|)) else st
    case AdminReturns => if st.pc.AwaitAdmin? then st.(pc := Finished) else st
    case Timeout =>
      if UnderDeadline(st.pc) && Waiting(st.pc) && st.now >= st.deadline && !WakeDue(st)
      then Log(st, Exited(OVERRUN_EXIT_CODE)).(pc := Done(OVERRUN_EXIT_CODE, Stage(st.pc))) else st
  }

  function Reach(su: Setup, schedule: seq<Step>): State {
    if schedule == [] then Start() else Next(su, Reach(su, schedule[..|schedule| - 1]), schedule[|schedule| - 1])
  }
}
