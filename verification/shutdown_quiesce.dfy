/** When the wait for queries in flight ends: at a poll that reads idle, at a further signal, or at the cap, and at no other time. */
module ShutdownQuiesce {
  import opened Lifecycles
  import opened Shutdowns
  import opened ShutdownRuns
  import opened ShutdownWindow

  /** A poll is made every five milliseconds from the start of the wait. */
  predicate AtAPoll(tr: seq<Stamped>, j: nat, at: nat)
    requires j < |tr|
  {
    (at - tr[j].at) % 5 == 0
  }

  /** A signal no poll could have counted before it was waited for, and one the count could still tell. */
  predicate OffPoll(tr: seq<Stamped>, j: nat, k: nat)
    requires j < |tr| && k < |tr|
  {
    tr[k].event == Signal && !AtAPoll(tr, j, tr[k].at) && SignalsIn(tr[..k]) < 0xffff_ffff
  }

  /** What ends the wait whenever it comes: a poll that reads idle, a signal between polls. */
  predicate Ends(tr: seq<Stamped>, j: nat, k: nat)
    requires j < |tr| && k < |tr|
  {
    tr[k].event == Idle || OffPoll(tr, j, k)
  }

  ghost predicate Quiet(tr: seq<Stamped>, j: nat)
    requires j < |tr|
  {
    forall k | j < k < |tr| :: !Ends(tr, j, k)
  }

  /** Everything that ends the wait came at `at`. */
  ghost predicate EndsAt(tr: seq<Stamped>, j: nat, end: nat, at: nat)
    requires j < |tr| && end <= |tr|
  {
    forall k | j < k < end :: Ends(tr, j, k) ==> tr[k].at == at
  }

  ghost predicate Heard(tr: seq<Stamped>, j: nat, end: nat, event: Event, at: nat)
    requires end <= |tr|
  {
    exists k | j < k < end :: tr[k].event == event && tr[k].at == at
  }

  /** The wait, from its start at `j` to its end at `at`, before which stand the events up to `end`. */
  ghost predicate QuiesceEnds(tr: seq<Stamped>, j: nat, end: nat, at: nat) {
    && j < end <= |tr| && tr[j].at <= at <= tr[j].at + 1_000
    && (at < tr[j].at + 1_000 ==> (Heard(tr, j, end, Idle, at) && AtAPoll(tr, j, at)) || Heard(tr, j, end, Signal, at))
    && EndsAt(tr, j, end, at)
  }

  /** Between polls: a signal above the baseline came now, and nothing else has come that ends the wait. */
  ghost predicate Listening(tr: seq<Stamped>, j: nat, now: nat, count: nat, baseline: nat)
    requires j < |tr|
  {
    && baseline <= count
    && (count > baseline ==> Heard(tr, j, |tr|, Signal, now))
    && forall k | j < k < |tr| :: Ends(tr, j, k) ==> OffPoll(tr, j, k) && tr[k].at == now && count > baseline
  }

  ghost predicate QuiesceHolds(st: State) {
    var tr, j, dns := st.trace, st.marks.stopping, st.marks.dns;
    Stage(st.pc) >= 7 ==>
      && j < |tr|
      && match st.pc
         case StartQuiesce => st.now == tr[j].at && Quiet(tr, j)
         case Poll(cap) => cap == tr[j].at + 1_000 && tr[j].at <= st.now <= cap && AtAPoll(tr, j, st.now) && Quiet(tr, j)
         case QuiesceWait(cap, until, baseline) =>
           && cap == tr[j].at + 1_000 && tr[j].at <= st.now <= until <= cap && AtAPoll(tr, j, until)
           && Listening(tr, j, st.now, st.count, baseline)
         case CancelDns => QuiesceEnds(tr, j, |tr|, st.now)
         case _ => Stage(st.pc) >= 9 ==> dns < |tr| && QuiesceEnds(tr, j, dns, tr[dns].at)
  }

  // ------------------------------------------------- what one event more does

  lemma EndsGrows(tr: seq<Stamped>, e: Stamped, j: nat, k: nat)
    requires j < |tr| && k < |tr|
    ensures Ends(tr + [e], j, k) == Ends(tr, j, k) && OffPoll(tr + [e], j, k) == OffPoll(tr, j, k)
  {
    assert (tr + [e])[..k] == tr[..k];
  }

  lemma HeardGrows(tr: seq<Stamped>, e: Stamped, j: nat, end: nat, end': nat, event: Event, at: nat)
    requires end <= |tr| && end <= end' <= |tr| + 1 && Heard(tr, j, end, event, at)
    ensures Heard(tr + [e], j, end', event, at)
  {
    var k :| j < k < end && tr[k].event == event && tr[k].at == at;
    assert (tr + [e])[k] == tr[k];
  }

  lemma QuiesceEndsGrows(tr: seq<Stamped>, e: Stamped, j: nat, end: nat, at: nat)
    requires QuiesceEnds(tr, j, end, at)
    ensures QuiesceEnds(tr + [e], j, end, at)
  {
    if Heard(tr, j, end, Idle, at) { HeardGrows(tr, e, j, end, end, Idle, at); }
    if Heard(tr, j, end, Signal, at) { HeardGrows(tr, e, j, end, end, Signal, at); }
    forall k | j < k < end && Ends(tr + [e], j, k) ensures (tr + [e])[k].at == at {
      EndsGrows(tr, e, j, k);
    }
  }

  /** An event at `at` itself, written down before the end is acted on. */
  lemma QuiesceEndsLater(tr: seq<Stamped>, e: Stamped, j: nat, at: nat)
    requires QuiesceEnds(tr, j, |tr|, at) && e.at == at
    ensures QuiesceEnds(tr + [e], j, |tr| + 1, at)
  {
    if Heard(tr, j, |tr|, Idle, at) { HeardGrows(tr, e, j, |tr|, |tr| + 1, Idle, at); }
    if Heard(tr, j, |tr|, Signal, at) { HeardGrows(tr, e, j, |tr|, |tr| + 1, Signal, at); }
    forall k | j < k <= |tr| && Ends(tr + [e], j, k) ensures (tr + [e])[k].at == at {
      if k < |tr| { EndsGrows(tr, e, j, k); }
    }
  }

  /** At a poll's own time no signal ends the wait. */
  lemma QuietGrows(tr: seq<Stamped>, e: Stamped, j: nat)
    requires j < |tr| && Quiet(tr, j) && e.event != Idle && AtAPoll(tr, j, e.at)
    ensures Quiet(tr + [e], j)
  {
    forall k | j < k <= |tr| ensures !Ends(tr + [e], j, k) {
      if k < |tr| { EndsGrows(tr, e, j, k); }
    }
  }

  lemma IdleEnds(tr: seq<Stamped>, e: Stamped, j: nat)
    requires j < |tr| && Quiet(tr, j) && e.event == Idle && AtAPoll(tr, j, e.at) && tr[j].at <= e.at <= tr[j].at + 1_000
    ensures QuiesceEnds(tr + [e], j, |tr| + 1, e.at)
  {
    assert (tr + [e])[|tr|] == e;
    forall k | j < k <= |tr| && Ends(tr + [e], j, k) ensures (tr + [e])[k].at == e.at {
      if k < |tr| { EndsGrows(tr, e, j, k); }
    }
  }

  lemma ListeningGrows(tr: seq<Stamped>, e: Stamped, j: nat, now: nat, count: nat, baseline: nat)
    requires j < |tr| && Listening(tr, j, now, count, baseline) && e.at == now && e.event != Idle && count == CountAt(tr)
    ensures Listening(tr + [e], j, now, if e.event == Signal then SaturatingInc(count) else count, baseline)
  {
    var count' := if e.event == Signal then SaturatingInc(count) else count;
    assert (tr + [e])[|tr|] == e && (tr + [e])[..|tr|] == tr;
    if count > baseline { HeardGrows(tr, e, j, |tr|, |tr| + 1, Signal, now); }
    forall k | j < k <= |tr| && Ends(tr + [e], j, k)
      ensures OffPoll(tr + [e], j, k) && (tr + [e])[k].at == now && count' > baseline
    {
      if k < |tr| { EndsGrows(tr, e, j, k); }
    }
  }

  // ------------------------------------------------------------- others' steps

  /** What everybody else may do: nothing but write down one event, which is never the sequence's own. */
  predicate Beside(st: State, st': State) {
    && st'.pc == st.pc && st'.now == st.now && st'.marks == st.marks
    && ((st'.trace == st.trace && st'.count == st.count) || BesideLogs(st, st'))
  }

  predicate BesideLogs(st: State, st': State) {
    && |st'.trace| == |st.trace| + 1 && st'.trace == st.trace + [st'.trace[|st.trace|]]
    && st'.trace[|st.trace|].at == st.now && st'.trace[|st.trace|].event != Idle
    && st'.count == if st'.trace[|st.trace|].event == Signal then SaturatingInc(st.count) else st.count
  }

  predicate Bystander(step: Step) {
    step.SetCause? || step.Bump? || step.Arrive? || step.Leave? || step.EnterServing?
  }

  lemma StepsBeside(su: Setup, st: State, step: Step)
    requires Bystander(step)
    ensures Beside(st, Next(su, st, step))
  {
  }

  lemma BesideKeeps(st: State, st': State)
    requires QuiesceHolds(st) && Beside(st, st') && st.count == CountAt(st.trace) && Stage(st.pc) <= 8
    ensures QuiesceHolds(st')
  {
    if BesideLogs(st, st') && Stage(st.pc) >= 7 {
      var tr, e, j := st.trace, st'.trace[|st.trace|], st.marks.stopping;
      match st.pc
      case StartQuiesce => QuietGrows(tr, e, j);
      case Poll(_) => QuietGrows(tr, e, j);
      case QuiesceWait(_, _, baseline) => ListeningGrows(tr, e, j, st.now, st.count, baseline);
      case CancelDns => QuiesceEndsLater(tr, e, j, st.now);
      case _ =>
    }
  }

  // ------------------------------------------------------- the sequence's own

  lemma StartsToQuiesce(su: Setup, st: State)
    requires st.pc.EnterStopping?
    ensures QuiesceHolds(Next(su, st, Main))
  {
  }

  lemma FirstPoll(su: Setup, st: State)
    requires QuiesceHolds(st) && st.pc.StartQuiesce?
    ensures QuiesceHolds(Next(su, st, Main))
  {
  }

  /** A poll that finds queries in flight waits for the next, which is again a multiple of five milliseconds on. */
  lemma Waits(su: Setup, st: State)
    requires QuiesceHolds(st) && st.pc.Poll? && st.inFlight > 0
    ensures QuiesceHolds(Next(su, st, Main))
  {
  }

  lemma ReadsIdle(su: Setup, st: State)
    requires QuiesceHolds(st) && st.pc.Poll? && st.inFlight == 0
    ensures QuiesceHolds(Next(su, st, Main))
  {
    IdleEnds(st.trace, Stamped(st.now, Idle), st.marks.stopping);
  }

  /** At the poll's time what signals came did so off no poll. */
  lemma PollsAgain(su: Setup, st: State)
    requires QuiesceHolds(st) && st.pc.QuiesceWait?
    ensures QuiesceHolds(Next(su, st, Main))
  {
  }

  lemma HearsASignal(su: Setup, st: State)
    requires QuiesceHolds(st) && st.pc.QuiesceWait?
    ensures QuiesceHolds(Next(su, st, Further))
  {
  }

  /** The clock moves only while nothing is waiting to be heard. */
  lemma QuiesceTicks(su: Setup, st: State)
    requires QuiesceHolds(st)
    ensures QuiesceHolds(Next(su, st, Tick))
  {
  }

  lemma CancelsAtTheEnd(su: Setup, st: State)
    requires QuiesceHolds(st) && st.pc.CancelDns?
    ensures QuiesceHolds(Next(su, st, Main))
  {
    QuiesceEndsGrows(st.trace, Stamped(st.now, DnsToken), st.marks.stopping, |st.trace|, st.now);
  }

  /** From the token on the wait is past. */
  lemma PastTheToken(st: State, st': State)
    requires QuiesceHolds(st) && OnceStep(st, st') && Stage(st.pc) >= 9
    ensures QuiesceHolds(st')
  {
    if st'.trace != st.trace {
      var e := st'.trace[|st.trace|];
      assert st'.trace == st.trace + [e];
      QuiesceEndsGrows(st.trace, e, st.marks.stopping, st.marks.dns, st.trace[st.marks.dns].at);
    }
  }

  lemma BeforeTheWait(su: Setup, st: State, step: Step)
    requires Stage(st.pc) <= 6 && !(st.pc.EnterStopping? && step == Main)
    ensures Stage(Next(su, st, step).pc) <= 6
  {
  }

  /** No other step is enabled in the wait but a timeout, and the deadline is later. */
  lemma NothingElse(su: Setup, st: State, step: Step)
    requires TimesHold(st) && 7 <= Stage(st.pc) <= 8 && (step.ListenersReturn? || step.AdminReturns? || step.Timeout?)
    ensures Next(su, st, step) == st
  {
  }

  lemma MainInTheWait(su: Setup, st: State)
    requires QuiesceHolds(st) && 7 <= Stage(st.pc) <= 8
    ensures QuiesceHolds(Next(su, st, Main))
  {
    match st.pc
    case StartQuiesce => FirstPoll(su, st);
    case Poll(_) => if st.inFlight == 0 { ReadsIdle(su, st); } else { Waits(su, st); }
    case QuiesceWait(_, _, _) => PollsAgain(su, st);
    case CancelDns => CancelsAtTheEnd(su, st);
    case _ =>
  }

  lemma FurtherElsewhere(su: Setup, st: State)
    requires QuiesceHolds(st) && 7 <= Stage(st.pc)
    ensures QuiesceHolds(Next(su, st, Further))
  {
    if st.pc.QuiesceWait? { HearsASignal(su, st); }
  }

  lemma StepInTheWait(su: Setup, st: State, step: Step)
    requires QuiesceHolds(st) && Holds(su, st) && WindowHolds(st) && 7 <= Stage(st.pc) <= 8
    ensures QuiesceHolds(Next(su, st, step))
  {
    match step
    case Tick => QuiesceTicks(su, st);
    case Main => MainInTheWait(su, st);
    case Further => FurtherElsewhere(su, st);
    case ListenersReturn => NothingElse(su, st, step);
    case AdminReturns => NothingElse(su, st, step);
    case Timeout => NothingElse(su, st, step);
    case _ => StepsBeside(su, st, step); BesideKeeps(st, Next(su, st, step));
  }

  lemma {:induction false} ReachQuiesce(su: Setup, schedule: seq<Step>)
    ensures QuiesceHolds(Reach(su, schedule))
  {
    if schedule != [] {
      var st, step := Reach(su, schedule[..|schedule| - 1]), schedule[|schedule| - 1];
      ReachQuiesce(su, schedule[..|schedule| - 1]);
      ReachHolds(su, schedule[..|schedule| - 1]);
      ReachWindow(su, schedule[..|schedule| - 1]);
      if Stage(st.pc) >= 9 {
        StepIsOnce(su, st, step);
        PastTheToken(st, Next(su, st, step));
      } else if Stage(st.pc) >= 7 {
        StepInTheWait(su, st, step);
      } else if st.pc.EnterStopping? && step == Main {
        StartsToQuiesce(su, st);
      } else {
        BeforeTheWait(su, st, step);
      }
    }
  }

  // ------------------------------------------------- what an idle reading is

  /** How many requests are being answered: those that came before the token and have not been answered yet. */
  function Unanswered(su: Setup, schedule: seq<Step>): nat {
    if schedule == [] then 0
    else
      var init, step := schedule[..|schedule| - 1], schedule[|schedule| - 1];
      var before := Unanswered(su, init);
      if step == Arrive && !exists k | 0 <= k < |Reach(su, init).trace| :: Reach(su, init).trace[k].event == DnsToken then before + 1
      else if step == Leave && before > 0 then before - 1 else before
  }

  lemma TokenIffStage(su: Setup, st: State)
    requires Holds(su, st)
    ensures (exists k | 0 <= k < |st.trace| :: st.trace[k].event == DnsToken) <==> Stage(st.pc) >= 9
  {
    if Stage(st.pc) >= 9 { assert st.trace[st.marks.dns].event == DnsToken; }
    if k :| 0 <= k < |st.trace| && st.trace[k].event == DnsToken {
      assert OwnPlace(st.trace[k].event, k, st.marks, Stage(st.pc), st.pc);
    }
  }

  lemma MainAnswersNone(su: Setup, st: State)
    ensures Next(su, st, Main).inFlight == st.inFlight
  {
  }

  lemma StepAnswers(su: Setup, st: State, step: Step)
    ensures Next(su, st, step).inFlight
         == if step == Arrive && Stage(st.pc) < 9 then st.inFlight + 1
            else if step == Leave && st.inFlight > 0 then st.inFlight - 1 else st.inFlight
  {
    if step == Main { MainAnswersNone(su, st); }
  }

  lemma {:induction false} InFlightIsUnanswered(su: Setup, schedule: seq<Step>)
    ensures Reach(su, schedule).inFlight == Unanswered(su, schedule)
  {
    if schedule != [] {
      var init, step := schedule[..|schedule| - 1], schedule[|schedule| - 1];
      InFlightIsUnanswered(su, init);
      ReachHolds(su, init);
      TokenIffStage(su, Reach(su, init));
      StepAnswers(su, Reach(su, init), step);
    }
  }

  /** The step wrote down an idle reading. */
  predicate WritesIdle(st: State, st': State) {
    |st'.trace| > |st.trace| && st'.trace[|st.trace|].event == Idle
  }

  lemma PollWritesIdle(su: Setup, st: State)
    ensures WritesIdle(st, Next(su, st, Main)) <==> st.pc.Poll? && st.inFlight == 0
  {
  }

  lemma NobodyElseWritesIdle(su: Setup, st: State, step: Step)
    requires step != Main
    ensures !WritesIdle(st, Next(su, st, step))
  {
  }

  /** A poll reads idle exactly when every request that came has been answered, and nothing but a poll does. */
  lemma IdleMeansAnswered(su: Setup, schedule: seq<Step>, step: Step)
    ensures var st := Reach(su, schedule);
            WritesIdle(st, Reach(su, schedule + [step])) <==> step == Main && st.pc.Poll? && Unanswered(su, schedule) == 0
  {
    assert (schedule + [step])[..|schedule|] == schedule;
    InFlightIsUnanswered(su, schedule);
    if step == Main { PollWritesIdle(su, Reach(su, schedule)); } else { NobodyElseWritesIdle(su, Reach(su, schedule), step); }
  }

  // ----------------------------------------------------------------- theorem

  /** An idle reading, or a signal between polls, before the second was up. */
  ghost predicate Curtailed(tr: seq<Stamped>, j: nat, k: nat)
    requires j < |tr|
  {
    exists i | j < i < k <= |tr| :: Ends(tr, j, i) && tr[i].at < tr[j].at + 1_000
  }

  /**
    * DNS is cancelled at the first poll that reads idle, at a further signal's own time, or at the cap of a second. No
    * idle reading and no signal between polls leaves it waiting. A signal at a poll's own time may: it is heard if it is
    * published after that poll and not if before.
    */
  lemma QuiesceIsExact(su: Setup, schedule: seq<Step>, j: nat, k: nat)
    requires At(Reach(su, schedule).trace, j, Entered(STOPPING)) && At(Reach(su, schedule).trace, k, DnsToken)
    ensures var tr := Reach(su, schedule).trace;
            && j < k && tr[j].at <= tr[k].at <= tr[j].at + 1_000
            && (tr[k].at < tr[j].at + 1_000 ==>
                  (Heard(tr, j, k, Idle, tr[k].at) && AtAPoll(tr, j, tr[k].at)) || Heard(tr, j, k, Signal, tr[k].at))
            && (Curtailed(tr, j, k) ==> tr[k].at < tr[j].at + 1_000)
            && EndsAt(tr, j, k, tr[k].at)
  {
    ReachHolds(su, schedule);
    ReachQuiesce(su, schedule);
    var st := Reach(su, schedule);
    assert OwnPlace(st.trace[j].event, j, st.marks, Stage(st.pc), st.pc);
    assert OwnPlace(st.trace[k].event, k, st.marks, Stage(st.pc), st.pc);
    if Curtailed(st.trace, j, k) { CurtailedEnds(st.trace, j, k, st.trace[k].at); }
  }

  lemma CurtailedEnds(tr: seq<Stamped>, j: nat, k: nat, at: nat)
    requires QuiesceEnds(tr, j, k, at) && Curtailed(tr, j, k)
    ensures at < tr[j].at + 1_000
  {
    var i :| j < i < k && Ends(tr, j, i) && tr[i].at < tr[j].at + 1_000;
  }
}
