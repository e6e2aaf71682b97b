/** Reloads, drains and scrapes at once: each gate and each store of a reload is one step. */
module ReloadThreads {
  import opened Configs
  import opened Reloads
  import opened ReloadContexts

  /** Where one reload stands; from `Loading` to `Gauged` it holds the lock. */
  datatype Pc =
    | Ready | Locking | Loading
    | Judged(a: Accepted, read: FileRead) | Installing(a: Accepted, read: FileRead)
    | Swapped(a: Accepted, read: FileRead) | Gauged(a: Accepted, read: FileRead)
    | Succeeded(ignored: seq<Key>) | Refused(code: Code)

  /** `displaced` is the record count of the zone the last swap replaced; `log` the files applied, in order. */
  datatype State = State(
    zone: ZoneSettings, records: nat, displaced: nat, gauge: nat, running: Config,
    draining: bool, holder: Option<nat>, pcs: seq<Pc>, log: seq<FileRead>)

  /** `read` is what the file holds at the moment a reload reads it. */
  datatype Move = Drain | Scrape | Thread(tid: nat, read: FileRead)

  function Start(started: Config, records: nat, n: nat): State {
    State(started.zone, records, records, records, started, false, None, seq(n, _ => Ready), [])
  }

  function Refuse(st: State, tid: nat, code: Code): State
    requires tid < |st.pcs|
  {
    st.(pcs := st.pcs[tid := Refused(code)], holder := if st.holder == Some(tid) then None else st.holder)
  }

  function To(st: State, tid: nat, pc: Pc): State
    requires tid < |st.pcs|
  {
    st.(pcs := st.pcs[tid := pc])
  }

  function ThreadStep(w: World, st: State, tid: nat, read: FileRead): State
    requires tid < |st.pcs|
  {
    match st.pcs[tid]
    case Ready => if st.draining then Refuse(st, tid, ShuttingDown) else To(st, tid, Locking)
    case Locking => if st.holder.Some? then Refuse(st, tid, ReloadInProgress) else To(st, tid, Loading).(holder := Some(tid))
    case Loading =>
      (match Judge(w, st.running, read)
       case Err(code) => Refuse(st, tid, code)
       case Ok(a) => To(st, tid, Judged(a, read)))
    case Judged(a, r) => if st.draining then Refuse(st, tid, ShuttingDown) else To(st, tid, Installing(a, r))
    case Installing(a, r) => To(st, tid, Swapped(a, r)).(zone := a.loaded.zone, records := a.records, displaced := st.records)
    case Swapped(a, r) => To(st, tid, Gauged(a, r)).(gauge := a.records)
    case Gauged(a, r) =>
      To(st, tid, Succeeded(DriftOf(w, st.running, a.stated, a.loaded)))
        .(running := ApplyReloadable(st.running, a.loaded), holder := None, log := st.log + [r])
    case Succeeded(_) => st
    case Refused(_) => st
  }

  /** A scrape only reads. */
  function Next(w: World, st: State, m: Move): State {
    match m
    case Drain => st.(draining := true)
    case Scrape => st
    case Thread(tid, read) => if tid < |st.pcs| then ThreadStep(w, st, tid, read) else st
  }

  function Reach(w: World, started: Config, records: nat, n: nat, schedule: seq<Move>): State {
    if schedule == [] then Start(started, records, n)
    else Next(w, Reach(w, started, records, n, schedule[..|schedule| - 1]), schedule[|schedule| - 1])
  }

  // -------------------------------------------------------------- what holds

  predicate Critical(pc: Pc) {
    pc.Loading? || pc.Judged? || pc.Installing? || pc.Swapped? || pc.Gauged?
  }

  /** What the zone, the gauge and a judgement are while `pc` holds the lock. */
  predicate HolderHolds(w: World, st: State, pc: Pc) {
    match pc
    case Judged(a, read) => Judge(w, st.running, read) == Ok(a) && Settled(w, st)
    case Installing(a, read) => Judge(w, st.running, read) == Ok(a) && Settled(w, st)
    case Swapped(a, read) =>
      Judge(w, st.running, read) == Ok(a) && st.zone == a.loaded.zone && st.records == a.records && st.gauge == st.displaced
    case Gauged(a, read) =>
      Judge(w, st.running, read) == Ok(a) && st.zone == a.loaded.zone && st.records == a.records && st.gauge == st.records
    case _ => Settled(w, st)
  }

  /** No reload is between its stores. */
  predicate Settled(w: World, st: State) {
    InPlace(w, st.zone, st.running) && st.gauge == st.records
  }

  ghost predicate Holds(w: World, started: Config, st: State) {
    && Serves(w, st.running) && st.running == AfterReloads(w, started, st.log)
    && w.build(st.zone) == Some(st.records)
    && (forall tid | 0 <= tid < |st.pcs| :: Critical(st.pcs[tid]) <==> st.holder == Some(tid))
    && (st.holder.Some? ==> st.holder.value < |st.pcs|)
    && (if st.holder.Some? then HolderHolds(w, st, st.pcs[st.holder.value]) else Settled(w, st))
  }

  lemma JudgedServes(w: World, running: Config, read: FileRead)
    requires Serves(w, running) && Judge(w, running, read).Ok?
    ensures var a := Judge(w, running, read).value;
            && w.build(a.loaded.zone) == Some(a.records) && InPlace(w, a.loaded.zone, ApplyReloadable(running, a.loaded))
            && Serves(w, ApplyReloadable(running, a.loaded)) && ApplyReloadable(running, a.loaded) == AfterReload(w, running, read)
  {
    MergeValidates(w.invocation, if w.invocation.config.None? then EMPTY_FILE else read.file);
  }

  /** A thread that does not hold the lock writes nothing but its own place and the lock. */
  lemma OutsideStep(w: World, started: Config, st: State, tid: nat, read: FileRead)
    requires Holds(w, started, st) && tid < |st.pcs| && !Critical(st.pcs[tid]) && !st.pcs[tid].Locking?
    ensures Holds(w, started, ThreadStep(w, st, tid, read))
  {
  }

  lemma LockStep(w: World, started: Config, st: State, tid: nat, read: FileRead)
    requires Holds(w, started, st) && tid < |st.pcs| && st.pcs[tid].Locking?
    ensures Holds(w, started, ThreadStep(w, st, tid, read))
  {
  }

  lemma GateStep(w: World, started: Config, st: State, tid: nat, read: FileRead)
    requires Holds(w, started, st) && tid < |st.pcs| && (st.pcs[tid].Loading? || st.pcs[tid].Judged?)
    ensures Holds(w, started, ThreadStep(w, st, tid, read))
  {
  }

  lemma StoreStep(w: World, started: Config, st: State, tid: nat, read: FileRead)
    requires Holds(w, started, st) && tid < |st.pcs| && (st.pcs[tid].Installing? || st.pcs[tid].Swapped?)
    ensures Holds(w, started, ThreadStep(w, st, tid, read))
  {
    JudgedServes(w, st.running, st.pcs[tid].read);
  }

  lemma LastStep(w: World, started: Config, st: State, tid: nat, read: FileRead)
    requires Holds(w, started, st) && tid < |st.pcs| && st.pcs[tid].Gauged?
    ensures Holds(w, started, ThreadStep(w, st, tid, read))
  {
    var r := st.pcs[tid].read;
    JudgedServes(w, st.running, r);
    assert (st.log + [r])[..|st.log|] == st.log;
  }

  lemma StepHolds(w: World, started: Config, st: State, m: Move)
    requires Holds(w, started, st)
    ensures Holds(w, started, Next(w, st, m))
  {
    if m.Thread? && m.tid < |st.pcs| {
      if st.pcs[m.tid].Locking? {
        LockStep(w, started, st, m.tid, m.read);
      } else if !Critical(st.pcs[m.tid]) {
        OutsideStep(w, started, st, m.tid, m.read);
      } else if st.pcs[m.tid].Gauged? {
        LastStep(w, started, st, m.tid, m.read);
      } else if st.pcs[m.tid].Loading? || st.pcs[m.tid].Judged? {
        GateStep(w, started, st, m.tid, m.read);
      } else {
        StoreStep(w, started, st, m.tid, m.read);
      }
    }
  }

  predicate Starts(w: World, started: Config, records: nat) {
    Serves(w, started) && w.build(started.zone) == Some(records)
  }

  lemma {:induction false} ReachHolds(w: World, started: Config, records: nat, n: nat, schedule: seq<Move>)
    requires Starts(w, started, records)
    ensures Holds(w, started, Reach(w, started, records, n, schedule))
  {
    if schedule != [] {
      ReachHolds(w, started, records, n, schedule[..|schedule| - 1]);
      StepHolds(w, started, Reach(w, started, records, n, schedule[..|schedule| - 1]), schedule[|schedule| - 1]);
    }
  }

  // ---------------------------------------------------------------- theorems

  /** Whenever it is scraped, the gauge is the count of the zone in place, or of the one that zone has just displaced. */
  lemma GaugeIsNeverAhead(w: World, started: Config, records: nat, n: nat, schedule: seq<Move>)
    requires Starts(w, started, records)
    ensures var st := Reach(w, started, records, n, schedule);
            && w.build(st.zone) == Some(st.records)
            && (st.gauge == st.records || st.gauge == st.displaced)
            && (st.gauge != st.records ==> st.holder.Some? && st.holder.value < |st.pcs| && st.pcs[st.holder.value].Swapped?)
  {
    ReachHolds(w, started, records, n, schedule);
  }

  lemma {:induction false} ThreadCount(w: World, started: Config, records: nat, n: nat, schedule: seq<Move>)
    ensures |Reach(w, started, records, n, schedule).pcs| == n
  {
    if schedule != [] { ThreadCount(w, started, records, n, schedule[..|schedule| - 1]); }
  }

  /** Every interleaving applies its reloads one at a time, and the origin is never but a spelling of the first. */
  lemma ReloadsAreSequential(w: World, started: Config, records: nat, n: nat, schedule: seq<Move>)
    requires Starts(w, started, records)
    ensures var st := Reach(w, started, records, n, schedule);
            && st.running == AfterReloads(w, started, st.log)
            && SameOrigin(w, st.running.zone.origin, started.zone.origin)
            && SameOrigin(w, st.zone.origin, started.zone.origin)
            && (st.holder.None? ==> InPlace(w, st.zone, st.running))
  {
    ReachHolds(w, started, records, n, schedule);
    ReloadsKeepServing(w, started, Reach(w, started, records, n, schedule).log);
  }

  predicate SameServed(st: State, st': State) {
    st'.zone == st.zone && st'.records == st.records && st'.gauge == st.gauge && st'.running == st.running
  }

  /** Past its first store: such a reload is never refused. */
  predicate Stored(pc: Pc) {
    pc.Swapped? || pc.Gauged? || pc.Succeeded?
  }

  lemma {:induction false} StoredStays(w: World, started: Config, records: nat, n: nat, schedule: seq<Move>, later: seq<Move>, tid: nat)
    requires var st := Reach(w, started, records, n, schedule); tid < |st.pcs| && Stored(st.pcs[tid])
    ensures var st := Reach(w, started, records, n, schedule + later); tid < |st.pcs| && Stored(st.pcs[tid])
  {
    if later == [] {
      assert schedule + later == schedule;
    } else {
      var init := later[..|later| - 1];
      assert (schedule + later)[..|schedule + later| - 1] == schedule + init;
      StoredStays(w, started, records, n, schedule, init, tid);
    }
  }

  lemma StepServes(w: World, st: State, m: Move)
    ensures SameServed(st, Next(w, st, m)) || (m.Thread? && m.tid < |st.pcs| && Stored(Next(w, st, m).pcs[m.tid]))
  {
  }

  /** No step of a reload that is refused, at whatever gate, ever changed the zone, the gauge or the running config. */
  lemma RefusalTouchesNothing(
    w: World, started: Config, records: nat, n: nat, before: seq<Move>, tid: nat, read: FileRead, after: seq<Move>)
    requires tid < |Reach(w, started, records, n, before + [Thread(tid, read)] + after).pcs|
    requires Reach(w, started, records, n, before + [Thread(tid, read)] + after).pcs[tid].Refused?
    ensures SameServed(Reach(w, started, records, n, before), Reach(w, started, records, n, before + [Thread(tid, read)]))
  {
    var m := Thread(tid, read);
    assert (before + [m])[..|before|] == before;
    StepServes(w, Reach(w, started, records, n, before), m);
    ThreadCount(w, started, records, n, before + [m]);
    ThreadCount(w, started, records, n, before + [m] + after);
    if Stored(Reach(w, started, records, n, before + [m]).pcs[tid]) {
      StoredStays(w, started, records, n, before + [m], after, tid);
    }
  }

  /** The drain is on from the step that starts it, for good. */
  lemma {:induction false} DrainIsForGood(w: World, started: Config, records: nat, n: nat, schedule: seq<Move>)
    ensures Reach(w, started, records, n, schedule).draining <==> Drain in schedule
  {
    if schedule != [] {
      var init, last := schedule[..|schedule| - 1], schedule[|schedule| - 1];
      DrainIsForGood(w, started, records, n, init);
      assert schedule == init + [last];
    }
  }

  /** Not yet past the second look at the drain. */
  predicate Abandonable(pc: Pc) {
    pc.Ready? || pc.Locking? || pc.Loading? || pc.Judged? || pc.Refused?
  }

  /** A reload the drain finds short of its second look installs nothing after it, however far it had got. */
  lemma {:induction false} TheDrainAbandonsIt(
    w: World, started: Config, records: nat, n: nat, schedule: seq<Move>, later: seq<Move>, tid: nat)
    requires tid < n && Drain in schedule
    requires |Reach(w, started, records, n, schedule).pcs| == n && Abandonable(Reach(w, started, records, n, schedule).pcs[tid])
    ensures var st := Reach(w, started, records, n, schedule + later); |st.pcs| == n && Abandonable(st.pcs[tid])
  {
    if later == [] {
      assert schedule + later == schedule;
    } else {
      var init := later[..|later| - 1];
      assert (schedule + later)[..|schedule + later| - 1] == schedule + init;
      TheDrainAbandonsIt(w, started, records, n, schedule, init, tid);
      DrainIsForGood(w, started, records, n, schedule + init);
    }
  }

  /** A reload that starts once the drain has is refused, however the run goes on. */
  lemma {:induction false} NoneStartsAfterTheDrain(
    w: World, started: Config, records: nat, n: nat, schedule: seq<Move>, later: seq<Move>, tid: nat)
    requires tid < n && Drain in schedule
    requires |Reach(w, started, records, n, schedule).pcs| == n && Reach(w, started, records, n, schedule).pcs[tid].Ready?
    ensures var st := Reach(w, started, records, n, schedule + later);
            |st.pcs| == n && (st.pcs[tid].Ready? || st.pcs[tid] == Refused(ShuttingDown))
  {
    if later == [] {
      assert schedule + later == schedule;
    } else {
      var init := later[..|later| - 1];
      assert (schedule + later)[..|schedule + later| - 1] == schedule + init;
      NoneStartsAfterTheDrain(w, started, records, n, schedule, init, tid);
      DrainIsForGood(w, started, records, n, schedule + init);
    }
  }
}
