/** What holds of every run of the shutdown machine, whatever signals, queries and requests interleave with it. */
module ShutdownRuns {
  import opened Lifecycles
  import opened Shutdowns

  predicate At(tr: seq<Stamped>, i: nat, event: Event) {
    i < |tr| && tr[i].event == event
  }

  /** A signal was published strictly between the two positions. */
  ghost predicate Between(tr: seq<Stamped>, i: nat, j: nat, event: Event) {
    exists k | i < k < j <= |tr| :: tr[k].event == event
  }

  lemma BetweenGrows(tr: seq<Stamped>, e: Stamped, i: nat, j: nat, event: Event)
    requires i < |tr| && j <= |tr|
    ensures Between(tr, i, j, event) ==> Between(tr + [e], i, j, event)
    ensures Between(tr, i, |tr|, event) ==> Between(tr + [e], i, |tr| + 1, event)
    ensures e.event == event ==> Between(tr + [e], i, |tr| + 1, event)
  {
    if Between(tr, i, j, event) {
      var k :| i < k < j && tr[k].event == event;
      assert (tr + [e])[k].event == event;
    }
    if Between(tr, i, |tr|, event) {
      var k :| i < k < |tr| && tr[k].event == event;
      assert (tr + [e])[k].event == event;
    }
    if e.event == event { assert (tr + [e])[|tr|].event == event; }
  }

  // ------------------------------------------------- causes, counts, readiness

  /** A cause is readable once the count is positive, and the window is the first cause's. */
  predicate SignalsHold(su: Setup, st: State) {
    && (st.count > 0 || st.unbumped > 0 ==> st.cause.Some?)
    && (Stage(st.pc) >= 1 ==> st.count > 0)
    && (Stage(st.pc) >= 2 ==> st.cause.Some? && st.window == DrainWindow(st.cause.value, su.drain))
    && (Stage(st.pc) >= 4 ==> st.phase >= DRAINING)
    && (Stage(st.pc) <= 13)
  }

  lemma SignalsStep(su: Setup, st: State, step: Step)
    requires SignalsHold(su, st)
    ensures SignalsHold(su, Next(su, st, step))
    ensures st.cause.Some? ==> Next(su, st, step).cause == st.cause
    ensures st.phase <= Next(su, st, step).phase
  {
  }

  // ------------------------------------------------------------- the trace

  /** The window is over for one of the two reasons it may be. */
  ghost predicate WindowOver(tr: seq<Stamped>, opens: nat, end: nat, at: nat, window: nat) {
    opens < |tr| && (at >= tr[opens].at + window || Between(tr, opens, end, Signal))
  }

  /** The in-flight requests were seen to be done, or the cap ran out, or a further signal came. */
  ghost predicate QuietEnough(tr: seq<Stamped>, stops: nat, end: nat, at: nat) {
    stops < |tr| && (Between(tr, stops, end, Idle) || at >= tr[stops].at + 1_000 || Between(tr, stops, end, Signal))
  }

  ghost predicate MarksHold(tr: seq<Stamped>, m: Marks, stage: nat, window: nat) {
    && (stage >= 3 ==> At(tr, m.drain, DrainToken))
    && (stage >= 4 ==> m.drain < m.draining && At(tr, m.draining, Entered(DRAINING)))
    && (stage >= 5 ==> m.draining < m.window && At(tr, m.window, WindowOpened))
    && (stage >= 7 ==> m.window < m.stopping && At(tr, m.stopping, Entered(STOPPING))
                       && WindowOver(tr, m.window, m.stopping, tr[m.stopping].at, window))
    && (stage >= 9 ==> m.stopping < m.dns && At(tr, m.dns, DnsToken) && QuietEnough(tr, m.stopping, m.dns, tr[m.dns].at))
    && (stage >= 10 ==> m.dns < m.listeners && At(tr, m.listeners, ListenersDone))
    && (stage >= 11 ==> m.listeners < m.closing && At(tr, m.closing, Entered(CLOSING)))
    && (stage >= 12 ==> m.closing < m.admin && At(tr, m.admin, AdminToken))
    && (stage >= 13 ==> m.admin < m.done && At(tr, m.done, SequenceDone))
  }

  lemma MarksGrow(tr: seq<Stamped>, e: Stamped, m: Marks, stage: nat, window: nat)
    requires MarksHold(tr, m, stage, window)
    ensures MarksHold(tr + [e], m, stage, window)
  {
    if stage >= 7 { BetweenGrows(tr, e, m.window, m.stopping, Signal); }
    if stage >= 9 {
      BetweenGrows(tr, e, m.stopping, m.dns, Signal);
      BetweenGrows(tr, e, m.stopping, m.dns, Idle);
    }
  }

  /** What the main task's own waits rest on. */
  ghost predicate WaitsHold(st: State) {
    var tr, m := st.trace, st.marks;
    match st.pc
    case DrainWait(until, baseline) =>
      && m.window < |tr| && until == tr[m.window].at + st.window
      && (st.count > baseline ==> Between(tr, m.window, |tr|, Signal))
    case EnterStopping => WindowOver(tr, m.window, |tr|, st.now, st.window)
    case StartQuiesce => m.stopping < |tr| && st.now >= tr[m.stopping].at
    case Poll(cap) => m.stopping < |tr| && cap >= tr[m.stopping].at + QUIESCE_CAP
    case QuiesceWait(cap, _, baseline) =>
      && m.stopping < |tr| && cap >= tr[m.stopping].at + QUIESCE_CAP
      && (st.count > baseline ==> Between(tr, m.stopping, |tr|, Signal))
    case CancelDns => QuietEnough(tr, m.stopping, |tr|, st.now)
    case _ => true
  }

  ghost predicate TraceHolds(st: State) {
    && MarksHold(st.trace, st.marks, Stage(st.pc), st.window)
    && WaitsHold(st)
  }

  /** The steps of everybody else that write nothing down. */
  lemma QuietByOthers(su: Setup, st: State, step: Step)
    requires TraceHolds(st) && (step.Tick? || step.SetCause? || step.Arrive? || step.Leave? || step.AdminReturns?)
    ensures TraceHolds(Next(su, st, step))
  {
  }

  lemma QuietFurther(su: Setup, st: State)
    requires TraceHolds(st)
    ensures TraceHolds(Next(su, st, Further))
  {
  }

  lemma QuietByMain(su: Setup, st: State)
    requires TraceHolds(st) && (st.pc.Steady? || st.pc.Woken? || st.pc.DrainWait? || st.pc.StartQuiesce? || st.pc.QuiesceWait? || st.pc.AwaitAdmin?)
    ensures TraceHolds(Next(su, st, Main))
  {
    match st.pc
    case Steady =>
    case Woken =>
    case DrainWait(_, _) =>
    case StartQuiesce =>
    case QuiesceWait(_, _, _) =>
    case AwaitAdmin(_) =>
  }

  lemma LoggedByOthers(su: Setup, st: State, step: Step)
    requires TraceHolds(st) && (step.Bump? || step.EnterServing?)
    ensures TraceHolds(Next(su, st, step))
  {
    var st' := Next(su, st, step);
    if st'.trace != st.trace {
      var e := st'.trace[|st.trace|];
      MarksGrow(st.trace, e, st.marks, Stage(st.pc), st.window);
      if st.pc.DrainWait? || st.pc.EnterStopping? { BetweenGrows(st.trace, e, st.marks.window, |st.trace|, Signal); }
      if Stage(st.pc) >= 7 && Stage(st.pc) <= 8 {
        BetweenGrows(st.trace, e, st.marks.stopping, |st.trace|, Signal);
        BetweenGrows(st.trace, e, st.marks.stopping, |st.trace|, Idle);
      }
    }
  }

  lemma BetweenGrowsTo(tr: seq<Stamped>, e: Stamped, i: nat, event: Event)
    requires i < |tr|
    ensures Between(tr, i, |tr|, event) ==> Between(tr + [e], i, |tr|, event)
  {
    BetweenGrows(tr, e, i, |tr|, event);
  }

  lemma OpensWindow(su: Setup, st: State)
    requires TraceHolds(st) && (st.pc.Begin? || st.pc.EnterDraining? || st.pc.OpenWindow?)
    ensures TraceHolds(Next(su, st, Main))
  {
    MarksGrow(st.trace, Next(su, st, Main).trace[|st.trace|], st.marks, Stage(st.pc), st.window);
  }

  lemma EntersStopping(su: Setup, st: State)
    requires TraceHolds(st) && st.pc.EnterStopping?
    ensures TraceHolds(Next(su, st, Main))
  {
    var e := Stamped(st.now, Entered(STOPPING));
    MarksGrow(st.trace, e, st.marks, 6, st.window);
    BetweenGrowsTo(st.trace, e, st.marks.window, Signal);
  }

  lemma Polls(su: Setup, st: State)
    requires TraceHolds(st) && st.pc.Poll?
    ensures TraceHolds(Next(su, st, Main))
  {
    var e := Stamped(st.now, Idle);
    MarksGrow(st.trace, e, st.marks, 7, st.window);
    BetweenGrows(st.trace, e, st.marks.stopping, |st.trace|, Idle);
  }

  lemma CancelsDns(su: Setup, st: State)
    requires TraceHolds(st) && st.pc.CancelDns?
    ensures TraceHolds(Next(su, st, Main))
  {
    var e := Stamped(st.now, DnsToken);
    MarksGrow(st.trace, e, st.marks, 8, st.window);
    BetweenGrowsTo(st.trace, e, st.marks.stopping, Signal);
    BetweenGrowsTo(st.trace, e, st.marks.stopping, Idle);
  }

  /** The milestones from the listeners' return on, each the next event written down. */
  predicate MarkedNext(m: Marks, m': Marks, stage: nat, event: Event, here: nat) {
    match stage
    case 9 => event == ListenersDone && m' == m.(listeners := here)
    case 10 => event == Entered(CLOSING) && m' == m.(closing := here)
    case 11 => event == AdminToken && m' == m.(admin := here)
    case _ => event == SequenceDone && m' == m.(done := here)
  }

  lemma MarkNext(tr: seq<Stamped>, tr': seq<Stamped>, e: Stamped, m: Marks, m': Marks, stage: nat, window: nat)
    requires MarksHold(tr, m, stage, window) && 9 <= stage <= 12
    requires tr' == tr + [e] && MarkedNext(m, m', stage, e.event, |tr|)
    ensures MarksHold(tr', m', stage + 1, window)
  {
    MarksGrow(tr, e, m, stage, window);
  }

  /** The event and the mark of each step from Closing on. */
  predicate ClosingMark(st: State, st': State, e: Stamped) {
    && e.at == st.now && st'.trace == st.trace + [e] && st'.window == st.window && st'.pc == ClosingPc(st, st')
    && if st.pc.Leaving? then e.event.Exited? && st'.marks == st.marks
       else MarkedNext(st.marks, st'.marks, Stage(st.pc), e.event, |st.trace|)
  }

  function ClosingPc(st: State, st': State): Pc {
    match st.pc
    case AwaitListeners => EnterClosing
    case EnterClosing => CancelAdmin
    case CancelAdmin => if st'.pc.AwaitAdmin? then st'.pc else Finished
    case Finished => Leaving
    case _ => Done(0, 13)
  }

  predicate Closing(pc: Pc) {
    pc.AwaitListeners? || pc.EnterClosing? || pc.CancelAdmin? || pc.Finished? || pc.Leaving?
  }

  lemma ClosingStage(st: State, st': State, e: Stamped)
    requires Closing(st.pc) && ClosingMark(st, st', e)
    ensures 9 <= Stage(st.pc) <= 13 && Stage(st'.pc) == if st.pc.Leaving? then 13 else Stage(st.pc) + 1
    ensures st.pc.Leaving? <==> Stage(st.pc) == 13
    ensures WaitsHold(st')
  {
  }

  lemma ClosingMarks(tr: seq<Stamped>, tr': seq<Stamped>, e: Stamped, m: Marks, m': Marks, stage: nat, window: nat)
    requires MarksHold(tr, m, stage, window) && 9 <= stage <= 13 && tr' == tr + [e]
    requires if stage == 13 then m' == m else MarkedNext(m, m', stage, e.event, |tr|)
    ensures MarksHold(tr', m', if stage == 13 then 13 else stage + 1, window)
  {
    if stage == 13 { MarksGrow(tr, e, m, 13, window); } else { MarkNext(tr, tr', e, m, m', stage, window); }
  }

  lemma ClosingTrace(st: State, st': State, e: Stamped)
    requires TraceHolds(st) && Closing(st.pc) && ClosingMark(st, st', e)
    ensures TraceHolds(st')
  {
    ClosingStage(st, st', e);
    ClosingMarks(st.trace, st'.trace, e, st.marks, st'.marks, Stage(st.pc), st.window);
  }

  lemma MainCloses(su: Setup, st: State) returns (e: Stamped)
    requires Closing(st.pc) && !st.pc.AwaitListeners?
    ensures ClosingMark(st, Next(su, st, Main), e)
  {
    e := Next(su, st, Main).trace[|st.trace|];
  }

  lemma Closes(su: Setup, st: State)
    requires TraceHolds(st) && Closing(st.pc) && !st.pc.AwaitListeners?
    ensures TraceHolds(Next(su, st, Main))
  {
    var e := MainCloses(su, st);
    ClosingTrace(st, Next(su, st, Main), e);
  }

  lemma ListenersStep(su: Setup, st: State)
    requires TraceHolds(st)
    ensures TraceHolds(Next(su, st, ListenersReturn))
  {
    if st.pc.AwaitListeners? { ClosingTrace(st, Next(su, st, ListenersReturn), Stamped(st.now, ListenersDone)); }
  }

  lemma TimeoutStep(su: Setup, st: State)
    requires TraceHolds(st)
    ensures TraceHolds(Next(su, st, Timeout))
  {
    MarksGrow(st.trace, Stamped(st.now, Exited(OVERRUN_EXIT_CODE)), st.marks, Stage(st.pc), st.window);
  }

  lemma TraceMainStep(su: Setup, st: State)
    requires TraceHolds(st)
    ensures TraceHolds(Next(su, st, Main))
  {
    match st.pc
    case Begin => OpensWindow(su, st);
    case EnterDraining => OpensWindow(su, st);
    case OpenWindow => OpensWindow(su, st);
    case EnterStopping => EntersStopping(su, st);
    case Poll(_) => Polls(su, st);
    case CancelDns => CancelsDns(su, st);
    case EnterClosing => Closes(su, st);
    case CancelAdmin => Closes(su, st);
    case Finished => Closes(su, st);
    case Leaving => Closes(su, st);
    case AwaitListeners =>
    case Done(_, _) =>
    case _ => QuietByMain(su, st);
  }

  lemma TraceStep(su: Setup, st: State, step: Step)
    requires TraceHolds(st)
    ensures TraceHolds(Next(su, st, step))
  {
    match step
    case Bump => LoggedByOthers(su, st, step);
    case EnterServing => LoggedByOthers(su, st, step);
    case Further => QuietFurther(su, st);
    case ListenersReturn => ListenersStep(su, st);
    case Timeout => TimeoutStep(su, st);
    case Main => TraceMainStep(su, st);
    case _ => QuietByOthers(su, st, step);
  }

  // ------------------------------------------------------- each milestone once

  /** The events only the main task writes, and the one place each may stand. */
  predicate OwnPlace(event: Event, i: nat, m: Marks, stage: nat, pc: Pc) {
    match event
    case DrainToken => stage >= 3 && i == m.drain
    case Entered(phase) =>
      && (phase == DRAINING ==> stage >= 4 && i == m.draining)
      && (phase == STOPPING ==> stage >= 7 && i == m.stopping)
      && (phase == CLOSING ==> stage >= 11 && i == m.closing)
    case WindowOpened => stage >= 5 && i == m.window
    case DnsToken => stage >= 9 && i == m.dns
    case ListenersDone => stage >= 10 && i == m.listeners
    case AdminToken => stage >= 12 && i == m.admin
    case SequenceDone => stage >= 13 && i == m.done
    case Exited(code) => pc.Done? && pc.code == code
    case _ => true
  }

  ghost predicate OnceHolds(st: State) {
    forall i | 0 <= i < |st.trace| :: OwnPlace(st.trace[i].event, i, st.marks, Stage(st.pc), st.pc)
  }

  /** A step moves on one milestone at most, and writes down no more than one event. */
  predicate OnceStep(st: State, st': State) {
    && |st.trace| <= |st'.trace| <= |st.trace| + 1 && st'.trace[..|st.trace|] == st.trace
    && Stage(st.pc) <= Stage(st'.pc) && (st.pc.Done? ==> st'.pc == st.pc)
    && (Stage(st.pc) >= 3 ==> st'.marks.drain == st.marks.drain)
    && (Stage(st.pc) >= 4 ==> st'.marks.draining == st.marks.draining)
    && (Stage(st.pc) >= 5 ==> st'.marks.window == st.marks.window)
    && (Stage(st.pc) >= 7 ==> st'.marks.stopping == st.marks.stopping)
    && (Stage(st.pc) >= 9 ==> st'.marks.dns == st.marks.dns)
    && (Stage(st.pc) >= 10 ==> st'.marks.listeners == st.marks.listeners)
    && (Stage(st.pc) >= 11 ==> st'.marks.closing == st.marks.closing)
    && (Stage(st.pc) >= 12 ==> st'.marks.admin == st.marks.admin)
    && (Stage(st.pc) >= 13 ==> st'.marks.done == st.marks.done)
    && (|st'.trace| > |st.trace| ==> OwnPlace(st'.trace[|st.trace|].event, |st.trace|, st'.marks, Stage(st'.pc), st'.pc))
  }

  lemma OnceBeforeStopping(su: Setup, st: State)
    requires Stage(st.pc) <= 6
    ensures OnceStep(st, Next(su, st, Main))
  {
  }

  lemma OnceUntilDns(su: Setup, st: State)
    requires 7 <= Stage(st.pc) <= 8
    ensures OnceStep(st, Next(su, st, Main))
  {
  }

  lemma OnceAfterDns(su: Setup, st: State)
    requires 9 <= Stage(st.pc) <= 11
    ensures OnceStep(st, Next(su, st, Main))
  {
  }

  lemma OnceAtTheEnd(su: Setup, st: State)
    requires 12 <= Stage(st.pc)
    ensures OnceStep(st, Next(su, st, Main))
  {
  }

  lemma StepIsOnce(su: Setup, st: State, step: Step)
    ensures OnceStep(st, Next(su, st, step))
  {
    if step == Main {
      if Stage(st.pc) <= 6 {
        OnceBeforeStopping(su, st);
      } else if Stage(st.pc) <= 8 {
        OnceUntilDns(su, st);
      } else if Stage(st.pc) <= 11 {
        OnceAfterDns(su, st);
      } else {
        OnceAtTheEnd(su, st);
      }
    }
  }

  lemma OnceKept(st: State, st': State)
    requires OnceHolds(st) && OnceStep(st, st')
    ensures OnceHolds(st')
  {
    forall i | 0 <= i < |st'.trace| ensures OwnPlace(st'.trace[i].event, i, st'.marks, Stage(st'.pc), st'.pc) {
      if i < |st.trace| {
        assert OwnPlace(st.trace[i].event, i, st.marks, Stage(st.pc), st.pc);
        assert st'.trace[i] == st.trace[i];
      }
    }
  }

  // ------------------------------------------------------------------ the time

  /** When `first()` was acted on; the deadline counts from then. */
  function Caught(st: State): int {
    st.deadline - st.window - STOP_BUDGET
  }

  /** With timers that fire when due, where the clock can be at each point of the sequence. */
  predicate TimesHold(st: State) {
    var tr, m, drained := st.trace, st.marks, Caught(st) + st.window;
    && (UnderDeadline(st.pc) ==> st.now <= st.deadline)
    && (9 <= Stage(st.pc) ==> m.dns < |tr| && tr[m.dns].at <= drained + QUIESCE_CAP)
    && (10 <= Stage(st.pc) ==> m.listeners < |tr|)
    && match st.pc
       case Begin => st.now == Caught(st)
       case EnterDraining => st.now == Caught(st)
       case OpenWindow => st.now == Caught(st)
       case DrainWait(until, _) => st.now <= until == drained
       case EnterStopping => st.now <= drained
       case StartQuiesce => st.now <= drained
       case Poll(cap) => st.now <= cap <= drained + QUIESCE_CAP
       case QuiesceWait(cap, until, _) => st.now <= until <= cap <= drained + QUIESCE_CAP && until <= st.now + QUIESCE_POLL
       case CancelDns => st.now <= drained + QUIESCE_CAP
       case EnterClosing => st.now == tr[m.listeners].at
       case CancelAdmin => st.now == tr[m.listeners].at
       case AwaitAdmin(until) => st.now <= until == tr[m.listeners].at + ADMIN_CLOSE_BUDGET
       case Done(code, reached) =>
         (code == 0 && reached == 13)
         || (code == OVERRUN_EXIT_CODE && (reached == 9 || (reached == 12 && tr[m.listeners].at > tr[m.dns].at + 3_000)))
       case _ => true
  }

  /** An exit is written down by the deadline, and one with 3 at it. */
  predicate ExitAt(e: Stamped, deadline: nat) {
    e.event.Exited? ==> e.at <= deadline && (e.event.code == 3 ==> e.at == deadline)
  }

  ghost predicate ExitsInTime(st: State) {
    && (forall i | 0 <= i < |st.trace| :: ExitAt(st.trace[i], st.deadline) && (st.trace[i].event.Exited? ==> st.pc.Done?))
    && (st.pc.Done? ==> Before(st.trace, Exited(st.pc.code), |st.trace|))
  }

  /** Earlier in the trace than `j`. */
  ghost predicate Before(tr: seq<Stamped>, event: Event, j: nat) {
    exists i | 0 <= i < j <= |tr| :: tr[i].event == event
  }

  lemma BeforeGrows(tr: seq<Stamped>, tr': seq<Stamped>, event: Event)
    requires |tr| <= |tr'| && tr'[..|tr|] == tr && Before(tr, event, |tr|)
    ensures Before(tr', event, |tr'|)
  {
    var i :| 0 <= i < |tr| && tr[i].event == event;
    assert tr'[i] == tr[i];
  }

  lemma TimesByOthers(su: Setup, st: State, step: Step)
    requires TimesHold(st) && !step.Main? && !step.Tick? && !step.Timeout?
    ensures TimesHold(Next(su, st, step))
  {
  }

  lemma TimesBeforeDns(su: Setup, st: State)
    requires TimesHold(st) && Stage(st.pc) <= 7
    ensures TimesHold(Next(su, st, Main))
  {
  }

  lemma TimesAfterDns(su: Setup, st: State)
    requires TimesHold(st) && 8 <= Stage(st.pc)
    ensures TimesHold(Next(su, st, Main))
  {
  }

  lemma TimesByClock(su: Setup, st: State, step: Step)
    requires TimesHold(st) && (step.Tick? || step.Timeout?)
    ensures TimesHold(Next(su, st, step))
  {
  }

  lemma TimesStep(su: Setup, st: State, step: Step)
    requires TimesHold(st)
    ensures TimesHold(Next(su, st, step))
  {
    if step.Main? {
      if Stage(st.pc) <= 7 { TimesBeforeDns(su, st); } else { TimesAfterDns(su, st); }
    } else if step.Tick? || step.Timeout? {
      TimesByClock(su, st, step);
    } else {
      TimesByOthers(su, st, step);
    }
  }

  /** What a step does to an exit: one is written down as it happens, and none is undone. */
  predicate ExitFrame(st: State, st': State) {
    && (st.pc.Done? ==> st'.pc == st.pc && st'.deadline == st.deadline)
    && (|st'.trace| > |st.trace| ==>
          var e := st'.trace[|st.trace|]; ExitAt(e, st'.deadline) && (e.event.Exited? ==> st'.pc.Done?))
    && (st'.pc.Done? && !st.pc.Done? ==> |st'.trace| > |st.trace| && st'.trace[|st.trace|].event == Exited(st'.pc.code))
  }

  lemma StepExits(su: Setup, st: State, step: Step)
    requires TimesHold(st)
    ensures ExitFrame(st, Next(su, st, step))
  {
  }

  lemma ExitKept(st: State, st': State)
    requires ExitsInTime(st) && OnceStep(st, st') && ExitFrame(st, st')
    ensures ExitsInTime(st')
  {
    forall i | 0 <= i < |st'.trace|
      ensures ExitAt(st'.trace[i], st'.deadline) && (st'.trace[i].event.Exited? ==> st'.pc.Done?)
    {
      if i < |st.trace| { assert st'.trace[i] == st.trace[i] && ExitAt(st.trace[i], st.deadline); }
    }
    if st.pc.Done? {
      BeforeGrows(st.trace, st'.trace, Exited(st.pc.code));
    } else if st'.pc.Done? {
      assert st'.trace[|st.trace|].event == Exited(st'.pc.code);
    }
  }

  lemma ExitStep(su: Setup, st: State, step: Step)
    requires ExitsInTime(st) && TimesHold(st) && OnceStep(st, Next(su, st, step))
    ensures ExitsInTime(Next(su, st, step))
  {
    StepExits(su, st, step);
    ExitKept(st, Next(su, st, step));
  }

  // --------------------------------------------------------- the first signal

  predicate IsFirstSignal(tr: seq<Stamped>, f: nat) {
    At(tr, f, Signal) && forall i | 0 <= i < f :: tr[i].event != Signal
  }

  /** The main task is caught at the instant of the first signal, and the deadline counts from it. */
  predicate CaughtAt(st: State, f: nat) {
    && IsFirstSignal(st.trace, f)
    && (Stage(st.pc) <= 1 ==> st.trace[f].at == st.now)
    && (Stage(st.pc) >= 2 ==> st.trace[f].at == Caught(st))
  }

  ghost predicate StampsHold(st: State) {
    && (forall i | 0 <= i < |st.trace| :: st.trace[i].at <= st.now)
    && (st.count == 0 ==> forall i | 0 <= i < |st.trace| :: st.trace[i].event != Signal)
    && (st.count > 0 ==> exists f: nat :: CaughtAt(st, f))
  }

  /** What a step does to the clock, the count and what is written down. */
  predicate ClockStep(st: State, st': State) {
    && st.now <= st'.now && st.count <= st'.count
    && (|st'.trace| > |st.trace| ==> st'.trace[|st.trace|].at == st'.now)
    && (st'.count == 0 ==> !IsSignalled(st, st'))
    && (st.count == 0 && st'.count > 0 ==> IsSignalled(st, st'))
    && (st.count > 0 && Stage(st.pc) <= 1 ==> st'.now == st.now && (Stage(st'.pc) >= 2 ==> Caught(st') == st.now))
    && (Stage(st.pc) >= 2 ==> Caught(st') == Caught(st) && Stage(st'.pc) >= 2)
  }

  predicate IsSignalled(st: State, st': State) {
    |st'.trace| == |st.trace| + 1 && st'.trace[|st.trace|].event == Signal
  }

  lemma StepOfTheClock(su: Setup, st: State, step: Step)
    requires SignalsHold(su, st) && TimesHold(st)
    ensures ClockStep(st, Next(su, st, step))
  {
    if step == Main { MainOfTheClock(su, st); }
  }

  lemma MainOfTheClock(su: Setup, st: State)
    requires SignalsHold(su, st) && TimesHold(st)
    ensures ClockStep(st, Next(su, st, Main))
  {
  }

  lemma CaughtKept(st: State, st': State, f: nat)
    requires CaughtAt(st, f) && st.count > 0 && OnceStep(st, st') && ClockStep(st, st')
    ensures CaughtAt(st', f)
  {
    assert forall i | 0 <= i <= f :: st'.trace[i] == st.trace[i];
  }

  lemma StampsStep(st: State, st': State)
    requires StampsHold(st) && OnceStep(st, st') && ClockStep(st, st') && (st.count == 0 ==> Stage(st.pc) == Stage(st'.pc) == 0)
    ensures StampsHold(st')
  {
    assert forall i | 0 <= i < |st.trace| :: st'.trace[i] == st.trace[i];
    if st.count > 0 {
      var f: nat :| CaughtAt(st, f);
      CaughtKept(st, st', f);
    } else if st'.count > 0 {
      assert CaughtAt(st', |st.trace|);
    }
  }

  lemma SteadyUntilSignalled(su: Setup, st: State, step: Step)
    requires SignalsHold(su, st) && st.count == 0
    ensures Stage(st.pc) == Stage(Next(su, st, step).pc) == 0
  {
  }

  // ---------------------------------------------------------------- theorems

  ghost predicate Holds(su: Setup, st: State) {
    SignalsHold(su, st) && TraceHolds(st) && OnceHolds(st) && TimesHold(st) && ExitsInTime(st) && StampsHold(st)
  }

  lemma {:induction false} ReachHolds(su: Setup, schedule: seq<Step>)
    ensures Holds(su, Reach(su, schedule))
  {
    if schedule != [] {
      var st, step := Reach(su, schedule[..|schedule| - 1]), schedule[|schedule| - 1];
      ReachHolds(su, schedule[..|schedule| - 1]);
      SignalsStep(su, st, step);
      TraceStep(su, st, step);
      StepIsOnce(su, st, step);
      OnceKept(st, Next(su, st, step));
      TimesStep(su, st, step);
      ExitStep(su, st, step);
      StepOfTheClock(su, st, step);
      if st.count == 0 { SteadyUntilSignalled(su, st, step); }
      StampsStep(st, Next(su, st, step));
    }
  }

  /** Each token is cancelled once, and in one order: drain_start, dns, admin. */
  lemma TokensInOrder(su: Setup, schedule: seq<Step>, i: nat, j: nat, token: Event)
    requires token in {DrainToken, DnsToken, AdminToken}
    requires At(Reach(su, schedule).trace, i, token) && At(Reach(su, schedule).trace, j, token)
    ensures i == j
    ensures token == DnsToken ==> Before(Reach(su, schedule).trace, DrainToken, j)
    ensures token == AdminToken ==> Before(Reach(su, schedule).trace, DnsToken, j)
  {
    ReachHolds(su, schedule);
    var st := Reach(su, schedule);
    assert OwnPlace(st.trace[i].event, i, st.marks, Stage(st.pc), st.pc);
    assert OwnPlace(st.trace[j].event, j, st.marks, Stage(st.pc), st.pc);
    if token == DnsToken { assert st.trace[st.marks.drain].event == DrainToken; }
    if token == AdminToken { assert st.trace[st.marks.dns].event == DnsToken; }
  }

  /** Readiness was withdrawn, then the window opened and ran out or was cut short by a signal, then the queries were waited for. */
  ghost predicate DnsJustified(tr: seq<Stamped>, k: nat, window: nat)
    requires k < |tr|
  {
    exists d, i, j | 0 <= d < i < j < k ::
      && tr[d].event == Entered(DRAINING) && tr[i].event == WindowOpened && tr[j].event == Entered(STOPPING)
      && WindowOver(tr, i, j, tr[j].at, window) && QuietEnough(tr, j, k, tr[k].at)
  }

  /** DNS is never cancelled before its window and its in-flight queries have had their due. */
  lemma DnsIsNeverEarly(su: Setup, schedule: seq<Step>, k: nat)
    requires At(Reach(su, schedule).trace, k, DnsToken)
    ensures var st := Reach(su, schedule);
            DnsJustified(st.trace, k, st.window) && st.cause.Some? && st.window == DrainWindow(st.cause.value, su.drain)
  {
    ReachHolds(su, schedule);
    var st := Reach(su, schedule);
    assert OwnPlace(st.trace[k].event, k, st.marks, Stage(st.pc), st.pc);
    var tr, d, i, j := st.trace, st.marks.draining, st.marks.window, st.marks.stopping;
    assert tr[d].event == Entered(DRAINING) && tr[i].event == WindowOpened && tr[j].event == Entered(STOPPING);
  }

  /** From Draining on the process is not ready, whatever asks for Serving; and a positive count always has its first cause. */
  lemma NotReadyOnceDraining(su: Setup, schedule: seq<Step>, step: Step)
    ensures var st, st' := Reach(su, schedule), Reach(su, schedule + [step]);
            && (Stage(st.pc) >= 4 ==> st.phase >= DRAINING && st'.phase != SERVING)
            && st.phase <= st'.phase
            && (st.count > 0 ==> st.cause.Some?)
            && (st.cause.Some? ==> st'.cause == st.cause)
  {
    ReachHolds(su, schedule);
    assert (schedule + [step])[..|schedule|] == schedule;
    SignalsStep(su, Reach(su, schedule), step);
  }

  /** An exit is 0 exactly when the sequence returned, and 3 otherwise; it is by the deadline, and one with 3 is at it. */
  ghost predicate ExitsRightly(st: State) {
    && st.pc.Done? && (st.pc.code == 0 || st.pc.code == 3)
    && (st.pc.code == 0 <==> Before(st.trace, SequenceDone, |st.trace|))
    && exists i | 0 <= i < |st.trace| :: st.trace[i].event == Exited(st.pc.code) && ExitAt(st.trace[i], st.deadline)
  }

  lemma ZeroIffReturned(su: Setup, st: State)
    requires TraceHolds(st) && OnceHolds(st) && TimesHold(st) && st.pc.Done?
    ensures st.pc.code == 0 || st.pc.code == 3
    ensures st.pc.code == 0 <==> Before(st.trace, SequenceDone, |st.trace|)
  {
    if st.pc.code == 0 { assert st.trace[st.marks.done].event == SequenceDone; }
    if Before(st.trace, SequenceDone, |st.trace|) {
      var k :| 0 <= k < |st.trace| && st.trace[k].event == SequenceDone;
      assert OwnPlace(st.trace[k].event, k, st.marks, Stage(st.pc), st.pc);
    }
  }

  lemma DoneIsRight(su: Setup, st: State)
    requires Holds(su, st) && st.pc.Done?
    ensures ExitsRightly(st)
  {
    ZeroIffReturned(su, st);
    ExitIsTimed(st);
  }

  lemma ExitIsTimed(st: State)
    requires ExitsInTime(st) && st.pc.Done?
    ensures exists i | 0 <= i < |st.trace| :: st.trace[i].event == Exited(st.pc.code) && ExitAt(st.trace[i], st.deadline)
  {
    var i :| 0 <= i < |st.trace| && st.trace[i].event == Exited(st.pc.code);
    assert ExitAt(st.trace[i], st.deadline);
  }

  lemma AwaitsStep(su: Setup, st: State, step: Step)
    requires st.pc.AwaitAdmin? ==> su.adminTask
    ensures Next(su, st, step).pc.AwaitAdmin? ==> su.adminTask
  {
  }

  /** The admin server is waited for only if there is one. */
  lemma {:induction false} NobodyIsAwaitedInVain(su: Setup, schedule: seq<Step>)
    ensures Reach(su, schedule).pc.AwaitAdmin? ==> su.adminTask
  {
    if schedule != [] {
      NobodyIsAwaitedInVain(su, schedule[..|schedule| - 1]);
      AwaitsStep(su, Reach(su, schedule[..|schedule| - 1]), schedule[|schedule| - 1]);
    }
  }

  lemma AdminIsHeard(su: Setup, schedule: seq<Step>)
    requires Reach(su, schedule).pc.AwaitAdmin?
    ensures Reach(su, schedule + [AdminReturns]).pc == Finished
  {
    assert (schedule + [AdminReturns])[..|schedule|] == schedule;
  }

  /** The admin server has a second to close, from the listeners' return on, and less if it returns. */
  lemma AdminHasASecond(su: Setup, schedule: seq<Step>)
    requires Reach(su, schedule).pc.AwaitAdmin?
    ensures var st := Reach(su, schedule);
            && su.adminTask && At(st.trace, st.marks.listeners, ListenersDone)
            && st.now <= st.pc.until == st.trace[st.marks.listeners].at + 1_000
    ensures Reach(su, schedule + [AdminReturns]).pc == Finished
  {
    AdminIsHeard(su, schedule);
    NobodyIsAwaitedInVain(su, schedule);
    ReachHolds(su, schedule);
  }

  /** If the listeners are done within three seconds of their token, the exit is 0. */
  lemma PromptListenersExitClean(su: Setup, schedule: seq<Step>, i: nat, j: nat)
    requires var st := Reach(su, schedule);
             && st.pc.Done? && At(st.trace, i, DnsToken) && At(st.trace, j, ListenersDone)
             && st.trace[j].at <= st.trace[i].at + 3_000
    ensures Reach(su, schedule).pc.code == 0
  {
    ReachHolds(su, schedule);
    var st := Reach(su, schedule);
    assert OwnPlace(st.trace[i].event, i, st.marks, Stage(st.pc), st.pc);
    assert OwnPlace(st.trace[j].event, j, st.marks, Stage(st.pc), st.pc);
  }
}
