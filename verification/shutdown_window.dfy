/** When the drain window ends: at its length, or at the first further signal once it is open, and at no other time. */
module ShutdownWindow {
  import opened Lifecycles
  import opened Shutdowns
  import opened ShutdownRuns

  function SignalsIn(tr: seq<Stamped>): nat {
    if tr == [] then 0 else SignalsIn(tr[..|tr| - 1]) + if tr[|tr| - 1].event == Signal then 1 else 0
  }

  lemma SignalsGrow(tr: seq<Stamped>, e: Stamped)
    ensures SignalsIn(tr + [e]) == SignalsIn(tr) + if e.event == Signal then 1 else 0
  {
    assert (tr + [e])[..|tr|] == tr;
  }

  lemma {:induction false} SignalsSince(tr: seq<Stamped>, i: nat)
    requires i <= |tr|
    ensures SignalsIn(tr[..i]) <= SignalsIn(tr)
    ensures (exists k | i <= k < |tr| :: tr[k].event == Signal) ==> SignalsIn(tr[..i]) < SignalsIn(tr)
  {
    if i == |tr| {
      assert tr[..i] == tr;
    } else {
      var init := tr[..|tr| - 1];
      assert init[..i] == tr[..i];
      SignalsSince(init, i);
      if k :| i <= k < |tr| && tr[k].event == Signal {
        if k < |init| { assert init[k].event == Signal; }
      }
    }
  }

  /** The count the window opened at, as far as the trace before it tells. */
  function CountAt(tr: seq<Stamped>): nat {
    Min(SignalsIn(tr), MAX_COUNT)
  }

  /** A signal that came before the window's own end came at `at`. */
  ghost predicate SignalsAt(tr: seq<Stamped>, w: nat, end: nat, window: nat, at: nat) {
    forall k | w < k < end <= |tr| && tr[k].event == Signal && tr[k].at < tr[w].at + window :: tr[k].at == at
  }

  /** The window, from its opening at `w` to its end at `at`, before which stand the events up to `end`. */
  ghost predicate WindowEnds(tr: seq<Stamped>, w: nat, end: nat, window: nat, at: nat) {
    && w < end <= |tr| && at <= tr[w].at + window
    && (at < tr[w].at + window ==> Between(tr, w, end, Signal))
    && (forall k | w < k < end :: tr[k].at <= at)
    && (SignalsIn(tr[..w]) < MAX_COUNT ==> SignalsAt(tr, w, end, window, at))
  }

  ghost predicate WindowHolds(st: State) {
    var tr, m := st.trace, st.marks;
    && st.count == CountAt(tr)
    && (st.pc.DrainWait? ==>
          && m.window < |tr| && st.pc.baseline == CountAt(tr[..m.window])
          && (SignalsIn(tr[..m.window]) < MAX_COUNT ==> SignalsAt(tr, m.window, |tr|, st.window, st.now)))
    && (st.pc.EnterStopping? ==> WindowEnds(tr, m.window, |tr|, st.window, st.now))
    && (Stage(st.pc) >= 7 ==> m.stopping < |tr| && WindowEnds(tr, m.window, m.stopping, st.window, tr[m.stopping].at))
  }

  // ---------------------------------------------------------- one step of it

  /** While a signal is waiting to be heard the clock does not move; so at a tick none has come since the window opened. */
  lemma NoSignalAtATick(st: State)
    requires WindowHolds(st) && st.pc.DrainWait? && !SignalDue(st) && SignalsIn(st.trace[..st.marks.window]) < MAX_COUNT
    ensures forall k | st.marks.window <= k < |st.trace| :: st.trace[k].event != Signal
  {
    SignalsSince(st.trace, st.marks.window);
  }

  /** What a step writes down, and what it does to the count. */
  predicate CountFrame(st: State, st': State) {
    || (st'.trace == st.trace && st'.count == st.count)
    || (&& |st'.trace| == |st.trace| + 1 && st'.trace[..|st.trace|] == st.trace
        && st'.count == if st'.trace[|st.trace|].event == Signal then SaturatingInc(st.count) else st.count)
  }

  lemma StepCounts(su: Setup, st: State, step: Step)
    ensures CountFrame(st, Next(su, st, step))
  {
    if step == Main { MainCounts(su, st); }
  }

  lemma MainCounts(su: Setup, st: State)
    ensures CountFrame(st, Next(su, st, Main))
  {
    match st.pc
    case Steady =>
    case Woken =>
    case Begin =>
    case EnterDraining =>
    case OpenWindow =>
    case DrainWait(_, _) =>
    case EnterStopping =>
    case StartQuiesce =>
    case Poll(_) =>
    case QuiesceWait(_, _, _) =>
    case CancelDns =>
    case AwaitListeners =>
    case EnterClosing =>
    case CancelAdmin =>
    case AwaitAdmin(_) =>
    case Finished =>
    case Leaving =>
    case Done(_, _) =>
  }

  lemma CountKept(st: State, st': State)
    requires st.count == CountAt(st.trace) && CountFrame(st, st')
    ensures st'.count == CountAt(st'.trace)
  {
    if st'.trace != st.trace {
      SignalsGrow(st.trace, st'.trace[|st.trace|]);
      assert st'.trace == st.trace + [st'.trace[|st.trace|]];
    }
  }

  lemma WindowEndsGrows(tr: seq<Stamped>, tr': seq<Stamped>, w: nat, end: nat, window: nat, at: nat)
    requires WindowEnds(tr, w, end, window, at) && |tr| <= |tr'| && tr'[..|tr|] == tr
    ensures WindowEnds(tr', w, end, window, at)
  {
    assert forall k | 0 <= k < |tr| :: tr'[k] == tr[k];
    assert tr'[..w] == tr[..w];
    if Between(tr, w, end, Signal) {
      var k :| w < k < end && tr[k].event == Signal;
      assert tr'[k].event == Signal;
    }
  }

  /** An event at `at` itself, written down before the end is acted on. */
  lemma WindowEndsLater(tr: seq<Stamped>, e: Stamped, w: nat, window: nat, at: nat)
    requires WindowEnds(tr, w, |tr|, window, at) && e.at == at
    ensures WindowEnds(tr + [e], w, |tr| + 1, window, at)
  {
    var tr' := tr + [e];
    assert tr'[..w] == tr[..w];
    WindowEndsGrows(tr, tr', w, |tr|, window, at);
    if Between(tr', w, |tr|, Signal) {
      var k :| w < k < |tr| && tr'[k].event == Signal;
      assert Between(tr', w, |tr'|, Signal);
    }
  }

  /** The window's end, at the length or at a signal. */
  lemma WindowCloses(st: State)
    requires WindowHolds(st) && TraceHolds(st) && TimesHold(st) && StampsHold(st) && st.pc.DrainWait?
    requires TimerDue(st) || SignalDue(st)
    ensures WindowEnds(st.trace, st.marks.window, |st.trace|, st.window, st.now)
  {
  }

  lemma DrainTicks(su: Setup, st: State)
    requires WindowHolds(st) && st.pc.DrainWait?
    ensures WindowHolds(Next(su, st, Tick))
  {
    if !WakeDue(st) && SignalsIn(st.trace[..st.marks.window]) < MAX_COUNT { NoSignalAtATick(st); }
  }

  lemma DrainEnds(su: Setup, st: State, step: Step)
    requires Holds(su, st) && WindowHolds(st) && st.pc.DrainWait? && (step == Main || step == Further)
    ensures WindowHolds(Next(su, st, step))
  {
    if step == Main && TimerDue(st) { WindowCloses(st); }
    if step == Further && SignalDue(st) { WindowCloses(st); }
  }

  lemma DrainIsQuiet(su: Setup, st: State, step: Step)
    requires WindowHolds(st) && TimesHold(st) && st.pc.DrainWait? && !step.Tick? && !step.Main? && !step.Further?
    ensures WindowHolds(Next(su, st, step))
  {
    var st' := Next(su, st, step);
    StepCounts(su, st, step);
    CountKept(st, st');
    if st'.trace != st.trace { DrainLogs(st, st'); }
  }

  lemma DrainSteps(su: Setup, st: State, step: Step)
    requires Holds(su, st) && WindowHolds(st) && st.pc.DrainWait?
    ensures WindowHolds(Next(su, st, step))
  {
    match step
    case Tick => DrainTicks(su, st);
    case Main => DrainEnds(su, st, step);
    case Further => DrainEnds(su, st, step);
    case _ => DrainIsQuiet(su, st, step);
  }

  lemma DrainLogs(st: State, st': State)
    requires WindowHolds(st) && st.pc.DrainWait? && st'.pc == st.pc && st'.now == st.now && st'.window == st.window
    requires st'.marks == st.marks && st'.count == CountAt(st'.trace)
    requires |st'.trace| == |st.trace| + 1 && st'.trace[..|st.trace|] == st.trace && st'.trace[|st.trace|].at == st.now
    ensures WindowHolds(st')
  {
    var w := st.marks.window;
    assert forall k | 0 <= k < |st.trace| :: st'.trace[k] == st.trace[k];
    assert st'.trace[..w] == st.trace[..w];
  }

  lemma OpensTheWindow(su: Setup, st: State)
    requires Holds(su, st) && WindowHolds(st) && st.pc.OpenWindow?
    ensures WindowHolds(Next(su, st, Main))
  {
    StepCounts(su, st, Main);
    CountKept(st, Next(su, st, Main));
    assert Next(su, st, Main).trace[..|st.trace|] == st.trace;
  }

  lemma EntersStoppingAt(su: Setup, st: State)
    requires Holds(su, st) && WindowHolds(st) && st.pc.EnterStopping?
    ensures WindowHolds(Next(su, st, Main))
  {
    StepCounts(su, st, Main);
    CountKept(st, Next(su, st, Main));
    WindowEndsGrows(st.trace, Next(su, st, Main).trace, st.marks.window, |st.trace|, st.window, st.now);
  }

  /** What is not the window's business: where such a step leaves the machine. */
  predicate Elsewhere(st: State, st': State) {
    && (Stage(st.pc) <= 4 ==> Stage(st'.pc) <= 4)
    && (st.pc.EnterStopping? ==> st'.pc == st.pc && st'.now == st.now && st'.marks == st.marks)
    && (st.pc.EnterStopping? && |st'.trace| > |st.trace| ==> st'.trace[|st.trace|].at == st.now)
    && (Stage(st.pc) >= 7 ==> Stage(st'.pc) >= 7 && st'.marks.window == st.marks.window && st'.marks.stopping == st.marks.stopping)
    && (Stage(st.pc) >= 6 ==> st'.window == st.window)
  }

  predicate Apart(st: State, step: Step) {
    !st.pc.DrainWait? && (step == Main ==> !st.pc.OpenWindow? && !st.pc.EnterStopping?)
  }

  lemma MainElsewhere(su: Setup, st: State)
    requires Apart(st, Main) && TimesHold(st)
    ensures Elsewhere(st, Next(su, st, Main))
  {
  }

  lemma StepsElsewhere(su: Setup, st: State, step: Step)
    requires Apart(st, step) && TimesHold(st)
    ensures Elsewhere(st, Next(su, st, step))
  {
    if step == Main { MainElsewhere(su, st); }
  }

  lemma DoneIsLate(st: State)
    requires TimesHold(st) && Stage(st.pc) <= 6
    ensures !st.pc.Done?
  {
  }

  /** Every other step leaves the window as it found it. */
  lemma OtherSteps(su: Setup, st: State, step: Step)
    requires TimesHold(st) && WindowHolds(st) && Apart(st, step)
    ensures WindowHolds(Next(su, st, step))
  {
    StepCounts(su, st, step);
    StepsElsewhere(su, st, step);
    TimesStep(su, st, step);
    WindowKept(st, Next(su, st, step));
  }

  lemma WindowKept(st: State, st': State)
    requires WindowHolds(st) && CountFrame(st, st') && Elsewhere(st, st')
    requires TimesHold(st) && TimesHold(st') && !st.pc.DrainWait?
    ensures WindowHolds(st')
  {
    CountKept(st, st');
    if Stage(st.pc) >= 7 {
      WindowEndsGrows(st.trace, st'.trace, st.marks.window, st.marks.stopping, st.window, st.trace[st.marks.stopping].at);
      assert st'.trace[st.marks.stopping] == st.trace[st.marks.stopping];
    } else if st.pc.EnterStopping? {
      if st'.trace != st.trace {
        WindowEndsLater(st.trace, st'.trace[|st.trace|], st.marks.window, st.window, st.now);
        assert st'.trace == st.trace + [st'.trace[|st.trace|]];
      }
    } else {
      DoneIsLate(st);
    }
  }

  lemma {:induction false} ReachWindow(su: Setup, schedule: seq<Step>)
    ensures WindowHolds(Reach(su, schedule))
  {
    if schedule != [] {
      var st, step := Reach(su, schedule[..|schedule| - 1]), schedule[|schedule| - 1];
      ReachWindow(su, schedule[..|schedule| - 1]);
      ReachHolds(su, schedule[..|schedule| - 1]);
      if st.pc.DrainWait? {
        DrainSteps(su, st, step);
      } else if step == Main && st.pc.OpenWindow? {
        OpensTheWindow(su, st);
      } else if step == Main && st.pc.EnterStopping? {
        EntersStoppingAt(su, st);
      } else {
        OtherSteps(su, st, step);
      }
    }
  }

  // ---------------------------------------------------------------- theorems

  /** How many signals have been delivered, published or not yet. */
  function Deliveries(schedule: seq<Step>): nat {
    if schedule == [] then 0
    else Deliveries(schedule[..|schedule| - 1]) + if schedule[|schedule| - 1].SetCause? then 1 else 0
  }

  /** What a step publishes, and what is left to publish. */
  predicate PublishStep(st: State, st': State, step: Step) {
    && (st'.trace == st.trace || (|st'.trace| == |st.trace| + 1 && st'.trace == st.trace + [st'.trace[|st.trace|]]))
    && var published := if |st'.trace| > |st.trace| && st'.trace[|st.trace|].event == Signal then 1 else 0;
       st'.unbumped + published == st.unbumped + if step.SetCause? then 1 else 0
  }

  lemma MainPublishesNone(su: Setup, st: State)
    ensures PublishStep(st, Next(su, st, Main), Main)
  {
    match st.pc
    case Steady =>
    case Woken =>
    case Begin =>
    case EnterDraining =>
    case OpenWindow =>
    case DrainWait(_, _) =>
    case EnterStopping =>
    case StartQuiesce =>
    case Poll(_) =>
    case QuiesceWait(_, _, _) =>
    case CancelDns =>
    case AwaitListeners =>
    case EnterClosing =>
    case CancelAdmin =>
    case AwaitAdmin(_) =>
    case Finished =>
    case Leaving =>
    case Done(_, _) =>
  }

  lemma StepPublishes(su: Setup, st: State, step: Step)
    ensures PublishStep(st, Next(su, st, step), step)
  {
    if step == Main { MainPublishesNone(su, st); }
  }

  /** Every signal that is delivered is published once: those on record and those still to come are all there were. */
  lemma {:induction false} DeliveredOncePublishedOnce(su: Setup, schedule: seq<Step>)
    ensures SignalsIn(Reach(su, schedule).trace) + Reach(su, schedule).unbumped == Deliveries(schedule)
  {
    if schedule != [] {
      var st, step := Reach(su, schedule[..|schedule| - 1]), schedule[|schedule| - 1];
      DeliveredOncePublishedOnce(su, schedule[..|schedule| - 1]);
      StepPublishes(su, st, step);
      var st' := Next(su, st, step);
      if st'.trace != st.trace { SignalsGrow(st.trace, st'.trace[|st.trace|]); }
    }
  }

  /** The count is of the signals published, and stops at 2^32 - 1. */
  lemma CountSaturates(su: Setup, schedule: seq<Step>)
    ensures var st := Reach(su, schedule);
            st.count == if SignalsIn(st.trace) < 0xffff_ffff then SignalsIn(st.trace) else 0xffff_ffff
  {
    ReachWindow(su, schedule);
  }

  /** A signal published after the window opened and before its length was up. */
  ghost predicate Hurried(tr: seq<Stamped>, i: nat, j: nat, window: nat) {
    exists k | i < k < j <= |tr| :: tr[k].event == Signal && tr[k].at < tr[i].at + window
  }

  /**
    * The window ends early exactly when a signal is published in it, and then at that signal's own time; otherwise it
    * ends at its length. Only a window opened at the count's ceiling, where no further signal can be told, is deaf.
    */
  lemma WindowIsExact(su: Setup, schedule: seq<Step>, i: nat, j: nat)
    requires At(Reach(su, schedule).trace, i, WindowOpened) && At(Reach(su, schedule).trace, j, Entered(STOPPING))
    ensures var st := Reach(su, schedule);
            var tr, window := st.trace, st.window;
            && i < j && tr[j].at <= tr[i].at + window
            && (tr[j].at < tr[i].at + window ==> Hurried(tr, i, j, window))
            && (SignalsIn(tr[..i]) < 0xffff_ffff ==>
                  && (Hurried(tr, i, j, window) ==> tr[j].at < tr[i].at + window)
                  && SignalsAt(tr, i, j, window, tr[j].at))
  {
    ReachHolds(su, schedule);
    ReachWindow(su, schedule);
    var st := Reach(su, schedule);
    assert OwnPlace(st.trace[i].event, i, st.marks, Stage(st.pc), st.pc);
    assert OwnPlace(st.trace[j].event, j, st.marks, Stage(st.pc), st.pc);
    ExactlyHurried(st.trace, i, j, st.window);
  }

  lemma ExactlyHurried(tr: seq<Stamped>, i: nat, j: nat, window: nat)
    requires j < |tr| && WindowEnds(tr, i, j, window, tr[j].at)
    ensures tr[j].at < tr[i].at + window ==> Hurried(tr, i, j, window)
    ensures SignalsIn(tr[..i]) < 0xffff_ffff && Hurried(tr, i, j, window) ==> tr[j].at < tr[i].at + window
  {
    if tr[j].at < tr[i].at + window {
      var k :| i < k < j && tr[k].event == Signal;
      assert tr[k].at <= tr[j].at;
    }
  }

  // --------------------------------- a further signal that shortens nothing

  function Ticks(n: nat): (r: seq<Step>)
    ensures |r| == n
  {
    if n == 0 then [] else Ticks(n - 1) + [Tick]
  }

  /** Two signals, both published before the window opens. */
  const EARLY: seq<Step> := [SetCause(Term), Bump, Main, Main, SetCause(Term), Bump, Main, Main, Main]

  function EarlySignals(drain: nat): seq<Step> {
    EARLY + Ticks(drain) + [Main, Main]
  }

  lemma ReachNext(su: Setup, schedule: seq<Step>, step: Step)
    ensures Reach(su, schedule + [step]) == Next(su, Reach(su, schedule), step)
  {
    assert (schedule + [step])[..|schedule|] == schedule;
  }

  predicate Opened(st: State, drain: nat, now: nat) {
    && st.now == now && st.count == 2 && st.window == drain && st.deadline == drain + STOP_BUDGET
    && st.pc == DrainWait(drain, 2)
    && st.trace == [Stamped(0, Signal), Stamped(0, Signal), Stamped(0, DrainToken), Stamped(0, Entered(DRAINING)), Stamped(0, WindowOpened)]
  }

  lemma SignalledTwice(su: Setup)
    ensures var st := Reach(su, EARLY[..6]);
            && st.now == 0 && st.count == 2 && st.window == su.drain && st.deadline == su.drain + STOP_BUDGET && st.pc == Begin
            && st.trace == [Stamped(0, Signal), Stamped(0, Signal)]
  {
    assert EARLY[..1] == [] + [EARLY[0]];
    ReachNext(su, [], EARLY[0]);
    assert EARLY[..2] == EARLY[..1] + [EARLY[1]];
    ReachNext(su, EARLY[..1], EARLY[1]);
    assert EARLY[..3] == EARLY[..2] + [EARLY[2]];
    ReachNext(su, EARLY[..2], EARLY[2]);
    assert EARLY[..4] == EARLY[..3] + [EARLY[3]];
    ReachNext(su, EARLY[..3], EARLY[3]);
    assert EARLY[..5] == EARLY[..4] + [EARLY[4]];
    ReachNext(su, EARLY[..4], EARLY[4]);
    assert EARLY[..6] == EARLY[..5] + [EARLY[5]];
    ReachNext(su, EARLY[..5], EARLY[5]);
  }

  lemma OpensAfterTwo(su: Setup)
    ensures Opened(Reach(su, EARLY), su.drain, 0)
  {
    SignalledTwice(su);
    assert EARLY[..7] == EARLY[..6] + [EARLY[6]];
    ReachNext(su, EARLY[..6], EARLY[6]);
    assert EARLY[..8] == EARLY[..7] + [EARLY[7]];
    ReachNext(su, EARLY[..7], EARLY[7]);
    assert EARLY == EARLY[..8] + [EARLY[8]];
    ReachNext(su, EARLY[..8], EARLY[8]);
  }

  lemma OneTick(su: Setup, st: State, drain: nat, now: nat)
    requires Opened(st, drain, now) && now < drain
    ensures Opened(Next(su, st, Tick), drain, now + 1)
  {
  }

  lemma {:induction false} StaysOpen(su: Setup, n: nat)
    requires n <= su.drain
    ensures Opened(Reach(su, EARLY + Ticks(n)), su.drain, n)
  {
    if n == 0 {
      assert EARLY + Ticks(0) == EARLY;
      OpensAfterTwo(su);
    } else {
      StaysOpen(su, n - 1);
      assert EARLY + Ticks(n) == EARLY + Ticks(n - 1) + [Tick];
      ReachNext(su, EARLY + Ticks(n - 1), Tick);
      OneTick(su, Reach(su, EARLY + Ticks(n - 1)), su.drain, n - 1);
    }
  }

  /** However long the window: a second signal that comes before it opens leaves it its whole length. */
  lemma EarlySignalIsAbsorbed(su: Setup)
    ensures var tr := Reach(su, EarlySignals(su.drain)).trace;
            && At(tr, 0, Signal) && At(tr, 1, Signal) && At(tr, 4, WindowOpened) && At(tr, 5, Entered(STOPPING))
            && tr[5].at == tr[4].at + su.drain && |tr| == 6
  {
    var open := EARLY + Ticks(su.drain);
    StaysOpen(su, su.drain);
    ReachNext(su, open, Main);
    ReachNext(su, open + [Main], Main);
    assert EarlySignals(su.drain) == open + [Main] + [Main];
  }
}
