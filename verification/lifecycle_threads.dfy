/** Any number of `enter` calls at once, each load and each compare-exchange one step. */
module LifecycleThreads {
  import opened Lifecycles

  /** `losses` counts the exchanges lost because the phase had moved. */
  datatype Pc = Ready | Trying(current: Phase, losses: nat) | Advanced | TooLate

  /** Thread `tid` moved the phase to `to_`. */
  datatype Advance = Advance(tid: nat, from_: Phase, to_: Phase)

  datatype State = State(phase: Phase, log: seq<Advance>, pcs: seq<Pc>)

  datatype Move = Move(tid: nat, spurious: bool)

  function Start(initial: Phase, targets: seq<Phase>): State {
    State(initial, [], seq(|targets|, _ => Ready))
  }

  function Attempt(targets: seq<Phase>, st: State, tid: nat, spurious: bool): State
    requires tid < |st.pcs| == |targets| && st.pcs[tid].Trying?
  {
    var pc, target := st.pcs[tid], targets[tid];
    if pc.current >= target then st.(pcs := st.pcs[tid := TooLate])
    else if st.phase == pc.current && !spurious then
      State(target, st.log + [Advance(tid, st.phase, target)], st.pcs[tid := Advanced])
    else
      st.(pcs := st.pcs[tid := Trying(st.phase, pc.losses + if st.phase != pc.current then 1 else 0)])
  }

  function Next(targets: seq<Phase>, st: State, m: Move): State
    requires |st.pcs| == |targets|
  {
    if m.tid >= |st.pcs| then st
    else match st.pcs[m.tid]
      case Ready => st.(pcs := st.pcs[m.tid := Trying(st.phase, 0)])
      case Trying(_, _) => Attempt(targets, st, m.tid, m.spurious)
      case _ => st
  }

  function Reach(initial: Phase, targets: seq<Phase>, schedule: seq<Move>): (st: State)
    ensures |st.pcs| == |targets|
  {
    if schedule == [] then Start(initial, targets)
    else Next(targets, Reach(initial, targets, schedule[..|schedule| - 1]), schedule[|schedule| - 1])
  }

  predicate Reported(log: seq<Advance>, tid: nat) {
    exists k | 0 <= k < |log| :: log[k].tid == tid
  }

  /** The advances join up, each strictly forward, from the initial phase to the present one. */
  ghost predicate Chain(initial: Phase, log: seq<Advance>, phase: Phase) {
    if log == [] then phase == initial
    else
      var last := log[|log| - 1];
      last.to_ == phase && last.from_ < last.to_ && Chain(initial, log[..|log| - 1], last.from_)
  }

  ghost predicate PcHolds(targets: seq<Phase>, st: State, tid: nat)
    requires tid < |st.pcs| == |targets|
  {
    match st.pcs[tid]
    case Ready => !Reported(st.log, tid)
    case Trying(current, losses) => !Reported(st.log, tid) && losses <= current <= st.phase && losses <= targets[tid]
    case Advanced => Reported(st.log, tid) && targets[tid] <= st.phase
    case TooLate => !Reported(st.log, tid) && targets[tid] <= st.phase
  }

  ghost predicate Holds(initial: Phase, targets: seq<Phase>, st: State) {
    && |st.pcs| == |targets|
    && Chain(initial, st.log, st.phase)
    && (forall i, j | 0 <= i < j < |st.log| :: st.log[i].tid != st.log[j].tid)
    && (forall k | 0 <= k < |st.log| :: st.log[k].tid < |targets| && st.log[k].to_ == targets[st.log[k].tid])
    && (forall tid | 0 <= tid < |targets| :: PcHolds(targets, st, tid))
  }

  lemma ReportedGrows(log: seq<Advance>, a: Advance, tid: nat)
    ensures Reported(log + [a], tid) <==> Reported(log, tid) || a.tid == tid
  {
    assert (log + [a])[|log|] == a;
    assert forall k | 0 <= k < |log| :: (log + [a])[k] == log[k];
  }

  lemma StepHolds(initial: Phase, targets: seq<Phase>, st: State, m: Move)
    requires Holds(initial, targets, st)
    ensures Holds(initial, targets, Next(targets, st, m))
    ensures Next(targets, st, m).phase >= st.phase
  {
    if m.tid < |st.pcs| {
      var st' := Next(targets, st, m);
      assert PcHolds(targets, st, m.tid);
      if st'.log != st.log { assert st'.log[..|st.log|] == st.log; }
      forall tid | 0 <= tid < |targets| ensures PcHolds(targets, st', tid) {
        assert PcHolds(targets, st, tid);
        if st'.log != st.log { ReportedGrows(st.log, st'.log[|st.log|], tid); }
      }
    }
  }

  lemma {:induction false} ReachHolds(initial: Phase, targets: seq<Phase>, schedule: seq<Move>)
    ensures Holds(initial, targets, Reach(initial, targets, schedule))
  {
    if schedule != [] {
      ReachHolds(initial, targets, schedule[..|schedule| - 1]);
      StepHolds(initial, targets, Reach(initial, targets, schedule[..|schedule| - 1]), schedule[|schedule| - 1]);
    }
  }

  // ---------------------------------------------------------------- theorems

  /** The phase never goes back, so a process once draining is never ready again, whoever arrives late. */
  lemma {:induction false} NeverBackwards(initial: Phase, targets: seq<Phase>, schedule: seq<Move>, later: seq<Move>)
    ensures Reach(initial, targets, schedule).phase <= Reach(initial, targets, schedule + later).phase
    ensures Reach(initial, targets, schedule).phase >= DRAINING ==> Reach(initial, targets, schedule + later).phase != SERVING
  {
    if later == [] {
      assert schedule + later == schedule;
    } else {
      var init := later[..|later| - 1];
      assert (schedule + later)[..|schedule + later| - 1] == schedule + init;
      NeverBackwards(initial, targets, schedule, init);
      ReachHolds(initial, targets, schedule + init);
      StepHolds(initial, targets, Reach(initial, targets, schedule + init), later[|later| - 1]);
    }
  }

  /** Each advance is reported by exactly one caller, and the advances are the whole history of the phase. */
  lemma EachAdvanceHasOneReporter(initial: Phase, targets: seq<Phase>, schedule: seq<Move>)
    ensures var st := Reach(initial, targets, schedule);
            && Chain(initial, st.log, st.phase)
            && (forall i, j | 0 <= i < j < |st.log| :: st.log[i].tid != st.log[j].tid)
            && (forall tid | 0 <= tid < |targets| :: st.pcs[tid].Advanced? <==> Reported(st.log, tid))
  {
    var st := Reach(initial, targets, schedule);
    ReachHolds(initial, targets, schedule);
    forall tid | 0 <= tid < |targets| ensures st.pcs[tid].Advanced? <==> Reported(st.log, tid) {
      assert PcHolds(targets, st, tid);
    }
  }

  /** A call loses at most as many exchanges to others as its target is high: four, and the phase has moved each time. */
  lemma LossesAreBounded(initial: Phase, targets: seq<Phase>, schedule: seq<Move>, tid: nat)
    requires tid < |targets| && Reach(initial, targets, schedule).pcs[tid].Trying?
    ensures Reach(initial, targets, schedule).pcs[tid].losses <= targets[tid] <= 4
  {
    ReachHolds(initial, targets, schedule);
    assert PcHolds(targets, Reach(initial, targets, schedule), tid);
  }

  /** The turns of a call's own whose exchange, if they come to one, does not fail for no reason. */
  function Turns(schedule: seq<Move>, tid: nat): nat {
    if schedule == [] then 0
    else
      Turns(schedule[..|schedule| - 1], tid) + if schedule[|schedule| - 1] == Move(tid, false) then 1 else 0
  }

  /** One turn to load the phase, and one for each exchange lost. */
  predicate TurnsHold(turns: nat, pc: Pc) {
    match pc
    case Ready => turns == 0
    case Trying(_, losses) => turns <= 1 + losses
    case _ => true
  }

  lemma {:induction false} ReachTurns(initial: Phase, targets: seq<Phase>, schedule: seq<Move>, tid: nat)
    requires tid < |targets|
    ensures TurnsHold(Turns(schedule, tid), Reach(initial, targets, schedule).pcs[tid])
  {
    if schedule != [] { ReachTurns(initial, targets, schedule[..|schedule| - 1], tid); }
  }

  /** A call returns by its sixth such turn, whatever the others do. */
  lemma EveryCallReturns(initial: Phase, targets: seq<Phase>, schedule: seq<Move>, tid: nat)
    requires tid < |targets| && Turns(schedule, tid) >= 6
    ensures var pc := Reach(initial, targets, schedule).pcs[tid]; pc.Advanced? || pc.TooLate?
  {
    ReachTurns(initial, targets, schedule, tid);
    if Reach(initial, targets, schedule).pcs[tid].Trying? { LossesAreBounded(initial, targets, schedule, tid); }
  }

  function Highest(initial: Phase, targets: seq<Phase>): (m: Phase)
    ensures initial <= m && forall i | 0 <= i < |targets| :: targets[i] <= m
    ensures m == initial || m in targets
  {
    if targets == [] then initial else MaxPhase(Highest(initial, targets[..|targets| - 1]), targets[|targets| - 1])
  }

  lemma {:induction false} ChainEnd(initial: Phase, log: seq<Advance>, phase: Phase)
    requires Chain(initial, log, phase)
    ensures initial <= phase && (phase == initial || (log != [] && log[|log| - 1].to_ == phase))
    ensures |log| <= phase - initial
  {
    if log != [] { ChainEnd(initial, log[..|log| - 1], log[|log| - 1].from_); }
  }

  /** When every caller has returned, the phase is the highest that any of them asked for. */
  lemma EndsAtTheHighest(initial: Phase, targets: seq<Phase>, schedule: seq<Move>)
    requires forall tid | 0 <= tid < |targets| ::
               var pc := Reach(initial, targets, schedule).pcs[tid]; pc.Advanced? || pc.TooLate?
    ensures Reach(initial, targets, schedule).phase == Highest(initial, targets)
    ensures |Reach(initial, targets, schedule).log| <= 4
  {
    var st := Reach(initial, targets, schedule);
    ReachHolds(initial, targets, schedule);
    ChainEnd(initial, st.log, st.phase);
    forall tid | 0 <= tid < |targets| ensures targets[tid] <= st.phase { assert PcHolds(targets, st, tid); }
    if st.phase != initial { assert st.phase in targets; }
  }
}
