/** What the first signal's cause comes to: how long DNS is kept, and by when the process is gone. */
module ShutdownCauses {
  import opened Lifecycles
  import opened Shutdowns
  import opened ShutdownRuns
  import opened ShutdownWindow
  import opened ShutdownProgress

  /** The cause that was recorded first. */
  function FirstCause(schedule: seq<Step>): Option<Cause> {
    if schedule == [] then None
    else
      var before, step := FirstCause(schedule[..|schedule| - 1]), schedule[|schedule| - 1];
      if before.None? && step.SetCause? then Some(step.cause) else before
  }

  lemma {:induction false} CauseIsFirst(su: Setup, schedule: seq<Step>)
    ensures Reach(su, schedule).cause == FirstCause(schedule)
  {
    if schedule != [] {
      var st, step := Reach(su, schedule[..|schedule| - 1]), schedule[|schedule| - 1];
      CauseIsFirst(su, schedule[..|schedule| - 1]);
      if step == Main { MainKeepsCause(su, st); }
    }
  }

  lemma MainKeepsCause(su: Setup, st: State)
    ensures Next(su, st, Main).cause == st.cause
  {
  }

  lemma {:induction false} FirstCauseStays(schedule: seq<Step>, more: seq<Step>)
    requires FirstCause(schedule).Some?
    ensures FirstCause(schedule + more) == FirstCause(schedule)
  {
    if more == [] {
      assert schedule + more == schedule;
    } else {
      FirstCauseStays(schedule, more[..|more| - 1]);
      assert (schedule + more)[..|schedule + more| - 1] == schedule + more[..|more| - 1];
    }
  }

  /** SIGINT, or an abort from inside the process. */
  predicate Interrupted(schedule: seq<Step>) {
    FirstCause(schedule) == Some(Int) || FirstCause(schedule) == Some(Abort)
  }

  lemma CaughtByCause(su: Setup, st: State)
    requires SignalsHold(su, st) && Stage(st.pc) >= 2
    ensures st.cause.Some? && st.window == if st.cause.value == Int || st.cause.value == Abort then 0 else su.drain
  {
  }

  /** The first signal's window and the deadline after it. */
  lemma WindowAndDeadline(su: Setup, schedule: seq<Step>, f: nat)
    requires Stage(Reach(su, schedule).pc) >= 2 && IsFirstSignal(Reach(su, schedule).trace, f)
    ensures var st := Reach(su, schedule);
            && FirstCause(schedule).Some?
            && (Interrupted(schedule) ==> st.window == 0 && st.deadline == st.trace[f].at + 5_000)
            && (!Interrupted(schedule) ==> st.window == su.drain && st.deadline == st.trace[f].at + su.drain + 5_000)
  {
    var st := Reach(su, schedule);
    ReachHolds(su, schedule);
    CauseIsFirst(su, schedule);
    CaughtByCause(su, st);
    var g: nat :| CaughtAt(st, g);
    assert f == g;
  }

  lemma OpenedIsOpen(st: State, i: nat)
    requires OnceHolds(st) && At(st.trace, i, WindowOpened)
    ensures Stage(st.pc) >= 5
  {
    assert OwnPlace(st.trace[i].event, i, st.marks, Stage(st.pc), st.pc);
  }

  /** How long the window is, whose opening is on record. */
  lemma WindowByCause(su: Setup, schedule: seq<Step>, i: nat)
    requires At(Reach(su, schedule).trace, i, WindowOpened)
    ensures FirstCause(schedule).Some?
    ensures Reach(su, schedule).window == if Interrupted(schedule) then 0 else su.drain
  {
    ReachHolds(su, schedule);
    var st := Reach(su, schedule);
    OpenedIsOpen(st, i);
    CaughtByCause(su, st);
    CauseIsFirst(su, schedule);
  }

  /** What is written down is written down in time's order. */
  ghost predicate InOrder(tr: seq<Stamped>) {
    forall i, j | 0 <= i <= j < |tr| :: tr[i].at <= tr[j].at
  }

  lemma InOrderStep(st: State, st': State)
    requires InOrder(st.trace) && StampsHold(st) && OnceStep(st, st') && ClockStep(st, st')
    ensures InOrder(st'.trace)
  {
    assert forall i | 0 <= i < |st.trace| :: st'.trace[i] == st.trace[i];
  }

  lemma {:induction false} ReachInOrder(su: Setup, schedule: seq<Step>)
    ensures InOrder(Reach(su, schedule).trace)
  {
    if schedule != [] {
      var st, step := Reach(su, schedule[..|schedule| - 1]), schedule[|schedule| - 1];
      ReachInOrder(su, schedule[..|schedule| - 1]);
      ReachHolds(su, schedule[..|schedule| - 1]);
      StepIsOnce(su, st, step);
      StepOfTheClock(su, st, step);
      InOrderStep(st, Next(su, st, step));
    }
  }

  /** After an interrupt or an abort there is no window: Stopping is entered as it opens. */
  lemma InterruptOpensNoWindow(su: Setup, schedule: seq<Step>, i: nat, j: nat)
    requires At(Reach(su, schedule).trace, i, WindowOpened) && At(Reach(su, schedule).trace, j, Entered(STOPPING))
    requires Interrupted(schedule)
    ensures Reach(su, schedule).trace[j].at == Reach(su, schedule).trace[i].at
  {
    WindowByCause(su, schedule, i);
    WindowIsExact(su, schedule, i, j);
    ReachInOrder(su, schedule);
  }

  /** After SIGTERM, and with no signal in it, the window is the whole drain that was configured. */
  lemma TermKeepsTheWindow(su: Setup, schedule: seq<Step>, i: nat, j: nat)
    requires At(Reach(su, schedule).trace, i, WindowOpened) && At(Reach(su, schedule).trace, j, Entered(STOPPING))
    requires FirstCause(schedule) == Some(Term)
    requires forall k | i < k < j :: Reach(su, schedule).trace[k].event != Signal
    ensures Reach(su, schedule).trace[j].at == Reach(su, schedule).trace[i].at + su.drain
  {
    WindowByCause(su, schedule, i);
    WindowIsExact(su, schedule, i, j);
  }

  /** An exit is written down within so long of the first signal. */
  ghost predicate ExitsWithin(st: State, limit: nat) {
    && st.pc.Done?
    && exists f: nat, k: nat :: IsFirstSignal(st.trace, f) && At(st.trace, k, Exited(st.pc.code)) && st.trace[k].at <= st.trace[f].at + limit
  }

  /** No exit, on time or forced, comes later than that. */
  lemma NoExitIsLate(su: Setup, schedule: seq<Step>, f: nat, k: nat)
    requires IsFirstSignal(Reach(su, schedule).trace, f) && k < |Reach(su, schedule).trace|
    requires Reach(su, schedule).trace[k].event.Exited?
    ensures FirstCause(schedule).Some?
    ensures Reach(su, schedule).trace[k].at <= Reach(su, schedule).trace[f].at + 5_000 + if Interrupted(schedule) then 0 else su.drain
  {
    ReachHolds(su, schedule);
    var st := Reach(su, schedule);
    assert ExitAt(st.trace[k], st.deadline) && st.pc.Done?;
    WindowAndDeadline(su, schedule, f);
  }

  /** Given its turns, the process is gone five seconds after the first signal, if that was an interrupt; after SIGTERM, the drain longer. */
  lemma ExitsByItsCause(su: Setup, schedule: seq<Step>, turns: seq<Turn>)
    requires Reach(su, schedule).count > 0 && OwnTurns(turns) >= 32 * (su.drain + 5_000) + 232
    ensures FirstCause(schedule).Some?
    ensures ExitsWithin(After(su, Reach(su, schedule), turns), 5_000 + if Interrupted(schedule) then 0 else su.drain)
  {
    var all := schedule + StepsOf(su, Reach(su, schedule), turns);
    ReachHolds(su, schedule);
    CauseIsFirst(su, schedule);
    FirstCauseStays(schedule, StepsOf(su, Reach(su, schedule), turns));
    ExecuteReturns(su, schedule, turns);
    TurnsAreASchedule(su, schedule, turns);
    var st := Reach(su, all);
    var f: nat :| IsFirstSignal(st.trace, f);
    var k: nat :| k < |st.trace| && st.trace[k].event == Exited(st.pc.code);
    NoExitIsLate(su, all, f, k);
    assert At(st.trace, k, Exited(st.pc.code));
  }

  // ------------------------------------------------ before the first signal

  lemma {:induction false} ServesOn(su: Setup, n: nat)
    ensures var st := Reach(su, Ticks(n)); st.pc == Steady && st.count == 0 && st.now == n && st.trace == []
  {
    if n > 0 {
      ServesOn(su, n - 1);
      ReachNext(su, Ticks(n - 1), Tick);
    }
  }

  /** A first signal may come at any time, and whatever it is the process has been serving until then. */
  lemma FirstSignalAtAnyTime(su: Setup, n: nat, c: Cause)
    ensures var st := Reach(su, Ticks(n) + [SetCause(c), Bump]);
            st.trace == [Stamped(n, Signal)] && st.cause == Some(c) && st.pc == Steady
  {
    ServesOn(su, n);
    CauseIsFirst(su, Ticks(n));
    NoCauseYet(n);
    ReachNext(su, Ticks(n), SetCause(c));
    ReachNext(su, Ticks(n) + [SetCause(c)], Bump);
    assert Ticks(n) + [SetCause(c), Bump] == Ticks(n) + [SetCause(c)] + [Bump];
  }

  lemma {:induction false} NoCauseYet(n: nat)
    ensures FirstCause(Ticks(n)) == None
  {
    if n > 0 { NoCauseYet(n - 1); }
  }
}
