/** The shutdown ends: given its own turns, the main task exits, whatever else interleaves and whoever else stands still. */
module ShutdownProgress {
  import opened Lifecycles
  import opened Shutdowns
  import opened ShutdownRuns

  /** What the main task and its timers do next, with no help from listeners, queries, signals or admin. */
  function OwnStep(st: State): Step {
    if !Waiting(st.pc) || TimerDue(st) || st.pc.Steady? then Main
    else if SignalDue(st) then Further
    else if st.now >= st.deadline then Timeout
    else Tick
  }

  /** A turn is the main task's, or any step of anybody at all. */
  datatype Turn = Own | Other(step: Step)

  function StepOf(st: State, turn: Turn): Step {
    match turn
    case Own => OwnStep(st)
    case Other(step) => step
  }

  function After(su: Setup, st: State, turns: seq<Turn>): State {
    if turns == [] then st
    else
      var before := After(su, st, turns[..|turns| - 1]);
      Next(su, before, StepOf(before, turns[|turns| - 1]))
  }

  function OwnTurns(turns: seq<Turn>): nat {
    if turns == [] then 0 else OwnTurns(turns[..|turns| - 1]) + if turns[|turns| - 1].Own? then 1 else 0
  }

  /** The schedule those turns come to. */
  function StepsOf(su: Setup, st: State, turns: seq<Turn>): seq<Step> {
    if turns == [] then []
    else
      var init := turns[..|turns| - 1];
      StepsOf(su, st, init) + [StepOf(After(su, st, init), turns[|turns| - 1])]
  }

  lemma {:induction false} TurnsAreASchedule(su: Setup, schedule: seq<Step>, turns: seq<Turn>)
    ensures After(su, Reach(su, schedule), turns) == Reach(su, schedule + StepsOf(su, Reach(su, schedule), turns))
  {
    var st := Reach(su, schedule);
    if turns == [] {
      assert schedule + [] == schedule;
    } else {
      var init := turns[..|turns| - 1];
      TurnsAreASchedule(su, schedule, init);
      var steps, last := schedule + StepsOf(su, st, init), StepOf(After(su, st, init), turns[|turns| - 1]);
      assert schedule + StepsOf(su, st, turns) == steps + [last];
      assert (steps + [last])[..|steps|] == steps;
    }
  }

  // -------------------------------------------------------------- the measure

  function Rank(pc: Pc): nat {
    match pc
    case Steady => 232
    case Woken => 231
    case Begin => 230
    case EnterDraining => 229
    case OpenWindow => 228
    case DrainWait(_, _) => 227
    case EnterStopping => 226
    case StartQuiesce => 225
    case Poll(_) => 223
    case QuiesceWait(_, _, _) => 224
    case CancelDns => 20
    case AwaitListeners => 19
    case EnterClosing => 18
    case CancelAdmin => 17
    case AwaitAdmin(_) => 16
    case Finished => 15
    case Leaving => 14
    case Done(_, _) => 0
  }

  /** Milliseconds to the deadline weigh most; a poll is paid for by the time it waits. */
  function Left(su: Setup, st: State): int {
    match st.pc
    case Steady => 32 * (su.drain + STOP_BUDGET) + Rank(st.pc)
    case Woken => 32 * (su.drain + STOP_BUDGET) + Rank(st.pc)
    case QuiesceWait(_, until, _) => 32 * (st.deadline - until) + (until - st.now) + Rank(st.pc)
    case Done(_, _) => 0
    case _ => 32 * (st.deadline - st.now) + Rank(st.pc)
  }

  /** A shutdown has been asked for. */
  predicate Going(su: Setup, st: State) {
    SignalsHold(su, st) && TimesHold(st) && st.count > 0
  }

  lemma LeftIsBounded(su: Setup, st: State)
    requires Going(su, st)
    ensures 0 <= Left(su, st)
    ensures !st.pc.Done? ==> 0 < Left(su, st)
  {
  }

  /** From the first signal on, no more than this is ever left. */
  function Enough(su: Setup): nat {
    32 * (su.drain + STOP_BUDGET) + 232
  }

  lemma EnoughIsEnough(su: Setup, st: State)
    requires Going(su, st) && (Stage(st.pc) >= 2 ==> Caught(st) <= st.now)
    ensures Left(su, st) <= Enough(su)
  {
  }

  lemma MainDescendsBeforeDns(su: Setup, st: State)
    requires Going(su, st) && Stage(st.pc) <= 7 && OwnStep(st) == Main
    ensures Left(su, Next(su, st, Main)) < Left(su, st)
  {
  }

  lemma MainDescendsAfterDns(su: Setup, st: State)
    requires Going(su, st) && 8 <= Stage(st.pc) && !st.pc.Done? && OwnStep(st) == Main
    ensures Left(su, Next(su, st, Main)) < Left(su, st)
  {
  }

  /** A turn of its own always brings the main task nearer its exit. */
  lemma OwnStepDescends(su: Setup, st: State)
    requires Going(su, st) && !st.pc.Done?
    ensures Left(su, Next(su, st, OwnStep(st))) < Left(su, st)
  {
    if OwnStep(st) == Main {
      if Stage(st.pc) <= 7 { MainDescendsBeforeDns(su, st); } else { MainDescendsAfterDns(su, st); }
    }
  }

  lemma MainWaits(su: Setup, st: State)
    requires OwnStep(st) != Main
    ensures Next(su, st, Main) == st
  {
  }

  /** And nobody's step takes it further off. */
  lemma NoStepAscends(su: Setup, st: State, step: Step)
    requires Going(su, st)
    ensures Left(su, Next(su, st, step)) <= Left(su, st)
  {
    if step == Main && !st.pc.Done? {
      if OwnStep(st) == Main { OwnStepDescends(su, st); } else { MainWaits(su, st); }
    }
  }

  // ---------------------------------------------------------------- theorems

  lemma GoingOn(su: Setup, st: State, step: Step)
    requires Going(su, st)
    ensures Going(su, Next(su, st, step))
    ensures st.pc.Done? ==> Next(su, st, step).pc == st.pc
  {
    SignalsStep(su, st, step);
    TimesStep(su, st, step);
    StepIsOnce(su, st, step);
  }

  /** However its turns and everybody's steps fall, each turn of its own leaves the main task that much less to do. */
  lemma {:induction false} TurnsDescend(su: Setup, st: State, turns: seq<Turn>)
    requires Going(su, st)
    ensures var st' := After(su, st, turns); Going(su, st') && (st'.pc.Done? || Left(su, st') + OwnTurns(turns) <= Left(su, st))
  {
    if turns != [] {
      var init, turn := turns[..|turns| - 1], turns[|turns| - 1];
      TurnsDescend(su, st, init);
      var before := After(su, st, init);
      GoingOn(su, before, StepOf(before, turn));
      if !before.pc.Done? {
        NoStepAscends(su, before, StepOf(before, turn));
        if turn.Own? { OwnStepDescends(su, before); }
      }
    }
  }

  /** It exits once it has had its turns; and when, and with what. */
  ghost predicate Returns(su: Setup, st: State) {
    && ExitsRightly(st)
    && exists f: nat :: IsFirstSignal(st.trace, f) && st.cause.Some?
                        && st.deadline == st.trace[f].at + 5_000 + if st.cause.value == Term then su.drain else 0
  }

  lemma DoneReturns(su: Setup, st: State)
    requires Holds(su, st) && st.pc.Done?
    ensures Returns(su, st)
  {
    DoneIsRight(su, st);
    var f: nat :| CaughtAt(st, f);
    assert IsFirstSignal(st.trace, f);
  }

  /** After any run with a signal in it, and whatever interleaves: `execute` returns, by the window and five seconds after that signal. */
  lemma ExecuteReturns(su: Setup, schedule: seq<Step>, turns: seq<Turn>)
    requires Reach(su, schedule).count > 0 && OwnTurns(turns) >= Enough(su)
    ensures Returns(su, After(su, Reach(su, schedule), turns))
  {
    var st := Reach(su, schedule);
    ReachHolds(su, schedule);
    var f: nat :| CaughtAt(st, f);
    EnoughIsEnough(su, st);
    TurnsDescend(su, st, turns);
    LeftIsBounded(su, After(su, st, turns));
    TurnsAreASchedule(su, schedule, turns);
    ReachHolds(su, schedule + StepsOf(su, st, turns));
    DoneReturns(su, After(su, st, turns));
  }
}
