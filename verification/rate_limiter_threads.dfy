/** Any number of `check_at` calls at once, each load and each compare-exchange one step, interleaved in any order. */
module RateLimitThreads {
  import opened RateLimits
  import opened RateLimitRuns

  /** Where one call stands. `loaded` and `seen` say how many admissions preceded its first load and its last. */
  datatype Pc =
    | Ready
    | Trying(word: u64, tries: nat, spurious: nat, loaded: nat, seen: nat)
    | Allowed
    | Refused(seen: nat)
    | Exhausted(spurious: nat, loaded: nat, seen: nat)

  /** `log` is the order the compare-exchanges succeeded in. */
  datatype State = State(table: Table, log: seq<Win>, pcs: seq<Pc>)

  /** Thread `tid` was admitted. */
  datatype Win = Win(tid: nat, call: Call)

  /** What the run is of: the calls, one per thread, and the limiter they share. */
  datatype Setup = Setup(rates: Rates, hash: u64 -> u64, table: Table, calls: seq<Call>)

  /** One step of the machine: thread `tid` moves, and its compare-exchange may fail for no reason. */
  datatype Move = Move(tid: nat, spurious: bool)

  function Start(su: Setup): State {
    State(su.table, [], seq(|su.calls|, _ => Ready))
  }

  function Attempt(su: Setup, st: State, tid: nat, spurious: bool): State
    requires tid < |st.pcs| == |su.calls| && st.pcs[tid].Trying?
  {
    var pc, c := st.pcs[tid], su.calls[tid];
    var slot := SlotOf(su.hash, c.ip);
    match Charge(su.rates, pc.word, Clock(c.t))
    case None => st.(pcs := st.pcs[tid := Refused(pc.seen)])
    case Some(charged) =>
      if st.table[slot] == pc.word && !spurious
      then State(st.table[slot := charged], st.log + [Win(tid, c)], st.pcs[tid := Allowed])
      else
        var lost := pc.spurious + if spurious then 1 else 0;
        st.(pcs := st.pcs[tid := if pc.tries + 1 < CAS_ATTEMPTS
                                 then Trying(st.table[slot], pc.tries + 1, lost, pc.loaded, |st.log|)
                                 else Exhausted(lost, pc.loaded, |st.log|)])
  }

  function Next(su: Setup, st: State, m: Move): State
    requires |st.pcs| == |su.calls|
  {
    if m.tid >= |st.pcs| then st
    else match st.pcs[m.tid]
      case Ready => st.(pcs := st.pcs[m.tid := Trying(st.table[SlotOf(su.hash, su.calls[m.tid].ip)], 0, 0, |st.log|, |st.log|)])
      case Trying(_, _, _, _, _) => Attempt(su, st, m.tid, m.spurious)
      case _ => st
  }

  function Reach(su: Setup, schedule: seq<Move>): (st: State)
    ensures |st.pcs| == |su.calls|
  {
    if schedule == [] then Start(su) else Next(su, Reach(su, schedule[..|schedule| - 1]), schedule[|schedule| - 1])
  }

  // ------------------------------------------------------ the sequential run

  /** The calls admitted from the `lo`-th on and before the `hi`-th. */
  function CallsOf(log: seq<Win>, lo: nat, hi: nat): seq<Call>
    requires lo <= hi <= |log|
  {
    if lo == hi then [] else CallsOf(log, lo, hi - 1) + [log[hi - 1].call]
  }

  /** The table a sequential run of the first `k` admitted calls leaves. */
  function TableAt(su: Setup, log: seq<Win>, k: nat): Table
    requires k <= |log|
  {
    if k == 0 then su.table else After(su.rates, su.hash, TableAt(su, log, k - 1), log[k - 1].call)
  }

  predicate AdmittedAt(su: Setup, log: seq<Win>, k: nat)
    requires k < |log|
  {
    Charged(su.rates, su.hash, TableAt(su, log, k), log[k].call).Some?
  }

  /** How many admissions of `log[lo..hi]` are on the slot. */
  function WinsOn(su: Setup, log: seq<Win>, lo: nat, hi: nat, slot: nat): nat
    requires lo <= hi <= |log|
  {
    if lo == hi then 0
    else WinsOn(su, log, lo, hi - 1, slot) + if SlotOf(su.hash, log[hi - 1].call.ip) == slot then 1 else 0
  }

  predicate Won(log: seq<Win>, tid: nat) {
    exists k | 0 <= k < |log| :: log[k].tid == tid
  }

  // ------------------------------------------------------------- what holds

  ghost predicate PcHolds(su: Setup, log: seq<Win>, tid: nat, pc: Pc)
    requires tid < |su.calls|
  {
    var c := su.calls[tid];
    var slot := SlotOf(su.hash, c.ip);
    match pc
    case Ready => !Won(log, tid)
    case Trying(word, tries, spurious, loaded, seen) =>
      && !Won(log, tid) && tries < CAS_ATTEMPTS && spurious <= tries && loaded <= seen <= |log|
      && word == TableAt(su, log, seen)[slot] && WinsOn(su, log, loaded, seen, slot) >= tries - spurious
    case Allowed => Won(log, tid)
    case Refused(seen) =>
      && !Won(log, tid) && seen <= |log| && Charged(su.rates, su.hash, TableAt(su, log, seen), c).None?
    case Exhausted(spurious, loaded, seen) =>
      && !Won(log, tid) && spurious <= CAS_ATTEMPTS && loaded <= seen <= |log|
      && WinsOn(su, log, loaded, seen, slot) >= CAS_ATTEMPTS - spurious
  }

  ghost predicate AllAdmitted(su: Setup, log: seq<Win>) {
    forall k | 0 <= k < |log| :: AdmittedAt(su, log, k)
  }

  ghost predicate LogHolds(su: Setup, log: seq<Win>) {
    && (forall i, j | 0 <= i < j < |log| :: log[i].tid != log[j].tid)
    && (forall k | 0 <= k < |log| :: log[k].tid < |su.calls| && log[k].call == su.calls[log[k].tid])
    && AllAdmitted(su, log)
  }

  ghost predicate Holds(su: Setup, st: State) {
    && |st.pcs| == |su.calls|
    && LogHolds(su, st.log)
    && st.table == TableAt(su, st.log, |st.log|)
    && forall tid | 0 <= tid < |st.pcs| :: PcHolds(su, st.log, tid, st.pcs[tid])
  }

  lemma WonGrows(log: seq<Win>, w: Win, tid: nat)
    ensures Won(log + [w], tid) <==> Won(log, tid) || w.tid == tid
  {
    assert (log + [w])[|log|] == w;
    assert forall k | 0 <= k < |log| :: (log + [w])[k] == log[k];
  }

  lemma {:induction false} TableGrows(su: Setup, log: seq<Win>, w: Win, k: nat)
    requires k <= |log|
    ensures TableAt(su, log + [w], k) == TableAt(su, log, k)
  {
    if k > 0 { TableGrows(su, log, w, k - 1); }
  }

  lemma {:induction false} WinsGrow(su: Setup, log: seq<Win>, w: Win, lo: nat, hi: nat, slot: nat)
    requires lo <= hi <= |log|
    ensures WinsOn(su, log + [w], lo, hi, slot) == WinsOn(su, log, lo, hi, slot)
    decreases hi
  {
    if lo < hi { WinsGrow(su, log, w, lo, hi - 1, slot); }
  }

  /** Another call's win disturbs nothing this one remembers. */
  lemma PcGrows(su: Setup, log: seq<Win>, w: Win, tid: nat, pc: Pc)
    requires tid < |su.calls| && w.tid != tid && PcHolds(su, log, tid, pc)
    ensures PcHolds(su, log + [w], tid, pc)
  {
    var slot := SlotOf(su.hash, su.calls[tid].ip);
    WonGrows(log, w, tid);
    match pc
    case Trying(_, _, _, loaded, seen) =>
      TableGrows(su, log, w, seen);
      WinsGrow(su, log, w, loaded, seen, slot);
    case Refused(seen) => TableGrows(su, log, w, seen);
    case Exhausted(_, loaded, seen) => WinsGrow(su, log, w, loaded, seen, slot);
    case _ =>
  }

  lemma TableNextElsewhere(su: Setup, log: seq<Win>, k: nat, slot: nat)
    requires k < |log| && slot < SLOTS && SlotOf(su.hash, log[k].call.ip) != slot
    ensures TableAt(su, log, k + 1)[slot] == TableAt(su, log, k)[slot]
  {
  }

  predicate SameOrWon(su: Setup, log: seq<Win>, lo: nat, hi: nat, slot: nat)
    requires lo <= hi <= |log| && slot < SLOTS
  {
    TableAt(su, log, lo)[slot] == TableAt(su, log, hi)[slot] || WinsOn(su, log, lo, hi, slot) >= 1
  }

  lemma SameOrWonNext(su: Setup, log: seq<Win>, lo: nat, hi: nat, slot: nat)
    requires lo <= hi < |log| && slot < SLOTS && SameOrWon(su, log, lo, hi, slot)
    ensures SameOrWon(su, log, lo, hi + 1, slot)
  {
    if SlotOf(su.hash, log[hi].call.ip) != slot { TableNextElsewhere(su, log, hi, slot); }
  }

  /** A slot word that differs from the one seen means a win on that slot since. */
  lemma {:induction false} ChangeMeansWin(su: Setup, log: seq<Win>, lo: nat, hi: nat, slot: nat)
    requires lo <= hi <= |log| && slot < SLOTS
    ensures SameOrWon(su, log, lo, hi, slot)
    decreases hi - lo
  {
    if lo < hi {
      var mid := hi - 1;
      ChangeMeansWin(su, log, lo, mid, slot);
      SameOrWonNext(su, log, lo, mid, slot);
    }
  }

  lemma {:induction false} WinsJoin(su: Setup, log: seq<Win>, lo: nat, mid: nat, hi: nat, slot: nat)
    requires lo <= mid <= hi <= |log|
    ensures WinsOn(su, log, lo, hi, slot) == WinsOn(su, log, lo, mid, slot) + WinsOn(su, log, mid, hi, slot)
    decreases hi
  {
    if mid < hi { WinsJoin(su, log, lo, mid, hi - 1, slot); }
  }

  lemma AdmittedGrows(su: Setup, log: seq<Win>, w: Win, k: nat)
    requires k < |log| && AdmittedAt(su, log, k)
    ensures AdmittedAt(su, log + [w], k)
  {
    TableGrows(su, log, w, k);
  }

  lemma LastAdmitted(su: Setup, log: seq<Win>, w: Win)
    requires Charged(su.rates, su.hash, TableAt(su, log, |log|), w.call).Some?
    ensures AdmittedAt(su, log + [w], |log|)
  {
    TableGrows(su, log, w, |log|);
  }

  lemma AllAdmittedGrows(su: Setup, log: seq<Win>, w: Win)
    requires AllAdmitted(su, log) && Charged(su.rates, su.hash, TableAt(su, log, |log|), w.call).Some?
    ensures AllAdmitted(su, log + [w])
  {
    forall k | 0 <= k <= |log| ensures AdmittedAt(su, log + [w], k) {
      if k < |log| { AdmittedGrows(su, log, w, k); } else { LastAdmitted(su, log, w); }
    }
  }

  lemma LogGrows(su: Setup, log: seq<Win>, w: Win)
    requires LogHolds(su, log) && !Won(log, w.tid) && w.tid < |su.calls| && w.call == su.calls[w.tid]
    requires Charged(su.rates, su.hash, TableAt(su, log, |log|), w.call).Some?
    ensures LogHolds(su, log + [w])
  {
    AllAdmittedGrows(su, log, w);
  }

  /** A win: the slot is written, the log grows by it, and every other call is as it was. */
  lemma WinHolds(su: Setup, st: State, st': State, tid: nat)
    requires Holds(su, st) && tid < |st.pcs| && !Won(st.log, tid)
    requires Charged(su.rates, su.hash, st.table, su.calls[tid]).Some?
    requires st' == State(After(su.rates, su.hash, st.table, su.calls[tid]), st.log + [Win(tid, su.calls[tid])], st.pcs[tid := Allowed])
    ensures Holds(su, st')
  {
    var w := Win(tid, su.calls[tid]);
    LogGrows(su, st.log, w);
    TableGrows(su, st.log, w, |st.log|);
    forall k | 0 <= k < |st'.pcs| ensures PcHolds(su, st'.log, k, st'.pcs[k]) {
      WonGrows(st.log, w, k);
      if k != tid {
        assert PcHolds(su, st.log, k, st.pcs[k]);
        PcGrows(su, st.log, w, k, st.pcs[k]);
      }
    }
  }

  /** A step that writes no slot. */
  lemma QuietHolds(su: Setup, st: State, tid: nat, pc: Pc)
    requires Holds(su, st) && tid < |st.pcs| && PcHolds(su, st.log, tid, pc)
    ensures Holds(su, st.(pcs := st.pcs[tid := pc]))
  {
    var pcs := st.pcs[tid := pc];
    forall k | 0 <= k < |pcs| ensures PcHolds(su, st.log, k, pcs[k]) {
      assert PcHolds(su, st.log, k, st.pcs[k]);
    }
  }

  /** A lost exchange that was not spurious means a win on the slot since it was last read. */
  lemma LossHolds(su: Setup, st: State, tid: nat, spurious: bool)
    requires Holds(su, st) && tid < |st.pcs| && st.pcs[tid].Trying? && PcHolds(su, st.log, tid, st.pcs[tid])
    requires Charge(su.rates, st.pcs[tid].word, Clock(su.calls[tid].t)).Some?
    requires spurious || st.table[SlotOf(su.hash, su.calls[tid].ip)] != st.pcs[tid].word
    ensures Holds(su, Attempt(su, st, tid, spurious))
  {
    var pc, slot := st.pcs[tid], SlotOf(su.hash, su.calls[tid].ip);
    ChangeMeansWin(su, st.log, pc.seen, |st.log|, slot);
    WinsJoin(su, st.log, pc.loaded, pc.seen, |st.log|, slot);
    QuietHolds(su, st, tid, Attempt(su, st, tid, spurious).pcs[tid]);
  }

  lemma StepHolds(su: Setup, st: State, m: Move)
    requires Holds(su, st)
    ensures Holds(su, Next(su, st, m))
  {
    if m.tid < |st.pcs| {
      var pc, c := st.pcs[m.tid], su.calls[m.tid];
      assert PcHolds(su, st.log, m.tid, pc);
      match pc
      case Ready => QuietHolds(su, st, m.tid, Next(su, st, m).pcs[m.tid]);
      case Trying(word, _, _, _, seen) =>
        var charge := Charge(su.rates, word, Clock(c.t));
        if charge.None? {
          QuietHolds(su, st, m.tid, Refused(seen));
        } else if m.spurious || st.table[SlotOf(su.hash, c.ip)] != word {
          LossHolds(su, st, m.tid, m.spurious);
        } else {
          WinHolds(su, st, Next(su, st, m), m.tid);
        }
      case _ =>
    }
  }

  lemma {:induction false} ReachHolds(su: Setup, schedule: seq<Move>)
    ensures Holds(su, Reach(su, schedule))
  {
    if schedule != [] {
      ReachHolds(su, schedule[..|schedule| - 1]);
      StepHolds(su, Reach(su, schedule[..|schedule| - 1]), schedule[|schedule| - 1]);
    }
  }

  lemma ReachAdmits(su: Setup, schedule: seq<Move>)
    ensures AllAdmitted(su, Reach(su, schedule).log)
  {
    ReachHolds(su, schedule);
  }

  // ---------------------------------------------------------------- theorems

  lemma {:induction false} CallsAt(log: seq<Win>, lo: nat, hi: nat)
    requires lo <= hi <= |log|
    ensures var calls := CallsOf(log, lo, hi);
            |calls| == hi - lo && forall i | 0 <= i < |calls| :: calls[i] == log[lo + i].call
    decreases hi - lo
  {
    if lo < hi {
      var mid := hi - 1;
      CallsAt(log, lo, mid);
      assert CallsOf(log, lo, hi) == CallsOf(log, lo, mid) + [log[mid].call];
    }
  }

  /** The calls of a stretch of the log are a sequential run from the table it began with, all of them admitted. */
  ghost predicate Stretch(su: Setup, log: seq<Win>, lo: nat, hi: nat)
    requires lo <= hi <= |log|
  {
    && Run(su.rates, su.hash, TableAt(su, log, lo), CallsOf(log, lo, hi)) == TableAt(su, log, hi)
    && AllOf(su.rates, su.hash, TableAt(su, log, lo), CallsOf(log, lo, hi))
  }

  lemma StretchNext(su: Setup, log: seq<Win>, lo: nat, hi: nat)
    requires lo <= hi < |log| && Stretch(su, log, lo, hi) && AdmittedAt(su, log, hi)
    ensures Stretch(su, log, lo, hi + 1)
  {
    OneMoreCall(su.rates, su.hash, TableAt(su, log, lo), CallsOf(log, lo, hi), log[hi].call);
  }

  lemma WinIsAdmitted(su: Setup, log: seq<Win>, k: nat)
    requires k < |log| && AllAdmitted(su, log)
    ensures AdmittedAt(su, log, k)
  {
  }

  lemma StretchNone(su: Setup, log: seq<Win>, lo: nat)
    requires lo <= |log|
    ensures Stretch(su, log, lo, lo)
  {
  }

  lemma {:induction false} StretchesRun(su: Setup, log: seq<Win>, lo: nat, hi: nat)
    requires lo <= hi <= |log| && AllAdmitted(su, log)
    ensures Stretch(su, log, lo, hi)
    decreases hi - lo
  {
    if lo == hi {
      StretchNone(su, log, lo);
    } else {
      var mid := hi - 1;
      StretchesRun(su, log, lo, mid);
      WinIsAdmitted(su, log, mid);
      StretchNext(su, log, lo, mid);
    }
  }

  lemma {:induction false} WinsAreCalls(su: Setup, log: seq<Win>, lo: nat, hi: nat, slot: nat)
    requires lo <= hi <= |log|
    ensures CallsOn(su.hash, CallsOf(log, lo, hi), slot) == WinsOn(su, log, lo, hi, slot)
    decreases hi
  {
    if lo < hi {
      WinsAreCalls(su, log, lo, hi - 1, slot);
      OneMoreOn(su.hash, CallsOf(log, lo, hi - 1), log[hi - 1].call, slot);
    }
  }

  lemma WinsAreAdmitted(su: Setup, log: seq<Win>, lo: nat, hi: nat, slot: nat)
    requires lo <= hi <= |log| && AllAdmitted(su, log)
    ensures Admitted(su.rates, su.hash, TableAt(su, log, lo), CallsOf(log, lo, hi), slot) == WinsOn(su, log, lo, hi, slot)
    ensures CallsOn(su.hash, CallsOf(log, lo, hi), slot) == WinsOn(su, log, lo, hi, slot)
  {
    StretchesRun(su, log, lo, hi);
    WinsAreCalls(su, log, lo, hi, slot);
    AllAreCounted(su.rates, su.hash, TableAt(su, log, lo), CallsOf(log, lo, hi), slot);
  }

  /** Every interleaving is a sequential run of its successful calls, each of them admitted, and each in it once. */
  lemma Linearises(su: Setup, schedule: seq<Move>)
    ensures var st := Reach(su, schedule);
            && st.table == Run(su.rates, su.hash, su.table, CallsOf(st.log, 0, |st.log|))
            && (forall s :: Admitted(su.rates, su.hash, su.table, CallsOf(st.log, 0, |st.log|), s) == CallsOn(su.hash, CallsOf(st.log, 0, |st.log|), s))
            && (forall tid | 0 <= tid < |su.calls| :: st.pcs[tid].Allowed? <==> Won(st.log, tid))
            && (forall i, j | 0 <= i < j < |st.log| :: st.log[i].tid != st.log[j].tid)
  {
    var st := Reach(su, schedule);
    ReachHolds(su, schedule);
    StretchesRun(su, st.log, 0, |st.log|);
    forall s: nat ensures Admitted(su.rates, su.hash, su.table, CallsOf(st.log, 0, |st.log|), s) == CallsOn(su.hash, CallsOf(st.log, 0, |st.log|), s) {
      WinsAreAdmitted(su, st.log, 0, |st.log|, s);
    }
    forall tid | 0 <= tid < |su.calls| ensures st.pcs[tid].Allowed? <==> Won(st.log, tid) {
      assert PcHolds(su, st.log, tid, st.pcs[tid]);
    }
  }

  /** A refusal is one the sequential limiter makes at the point the call last read its slot. */
  lemma RefusalLinearises(su: Setup, schedule: seq<Move>, tid: nat)
    requires tid < |su.calls| && Reach(su, schedule).pcs[tid].Refused?
    ensures var st := Reach(su, schedule);
            var seen := st.pcs[tid].seen;
            seen <= |st.log| && Charged(su.rates, su.hash, TableAt(su, st.log, seen), su.calls[tid]).None?
  {
    ReachHolds(su, schedule);
    assert PcHolds(su, Reach(su, schedule).log, tid, Reach(su, schedule).pcs[tid]);
  }

  /** The turns of a call's own whose exchange, if they come to one, fails for no reason. */
  function SpuriousTurns(schedule: seq<Move>, tid: nat): nat {
    if schedule == [] then 0
    else SpuriousTurns(schedule[..|schedule| - 1], tid) + if schedule[|schedule| - 1] == Move(tid, true) then 1 else 0
  }

  predicate SpuriousHold(turns: nat, pc: Pc) {
    match pc
    case Trying(_, _, spurious, _, _) => spurious <= turns
    case Exhausted(spurious, _, _) => spurious <= turns
    case _ => true
  }

  lemma SpuriousStep(su: Setup, st: State, m: Move, tid: nat, turns: nat)
    requires tid < |st.pcs| == |su.calls| && SpuriousHold(turns, st.pcs[tid])
    ensures SpuriousHold(turns + if m == Move(tid, true) then 1 else 0, Next(su, st, m).pcs[tid])
  {
  }

  lemma {:induction false} ReachSpurious(su: Setup, schedule: seq<Move>, tid: nat)
    requires tid < |su.calls|
    ensures SpuriousHold(SpuriousTurns(schedule, tid), Reach(su, schedule).pcs[tid])
  {
    if schedule != [] {
      var init, last := schedule[..|schedule| - 1], schedule[|schedule| - 1];
      ReachSpurious(su, init, tid);
      SpuriousStep(su, Reach(su, init), last, tid, SpuriousTurns(init, tid));
    }
  }

  /** A call that gives up has seen eight others admitted on its slot since it began, less its exchanges that failed for no reason. */
  lemma ExhaustionMeansContention(su: Setup, schedule: seq<Move>, tid: nat)
    requires tid < |su.calls| && Reach(su, schedule).pcs[tid].Exhausted?
    ensures var st := Reach(su, schedule);
            var Exhausted(spurious, loaded, seen) := st.pcs[tid];
            && loaded <= seen <= |st.log| && spurious <= SpuriousTurns(schedule, tid)
            && WinsOn(su, st.log, loaded, seen, SlotOf(su.hash, su.calls[tid].ip)) >= 8 - spurious
  {
    ReachHolds(su, schedule);
    ReachSpurious(su, schedule, tid);
    assert PcHolds(su, Reach(su, schedule).log, tid, Reach(su, schedule).pcs[tid]);
  }

  /** What a call still has to do: its load, and at most eight exchanges. */
  function Work(pc: Pc): nat {
    match pc
    case Ready => 9
    case Trying(_, tries, _, _, _) => if tries < 8 then 8 - tries else 0
    case _ => 0
  }

  ghost predicate Bounded(su: Setup, st: State, st': State, tid: nat)
    requires |st.pcs| == |st'.pcs| == |su.calls| && tid < |su.calls|
  {
    && (st.pcs[tid].Ready? || st.pcs[tid].Trying? ==> Work(st'.pcs[tid]) < Work(st.pcs[tid]))
    && (forall k | 0 <= k < |su.calls| && k != tid :: st'.pcs[k] == st.pcs[k])
    && (forall s | 0 <= s < SLOTS && st'.table[s] != st.table[s] ::
          !st.pcs[tid].Allowed? && st'.pcs[tid].Allowed? && s == SlotOf(su.hash, su.calls[tid].ip))
  }

  lemma StepIsBounded(su: Setup, st: State, m: Move)
    requires Holds(su, st) && m.tid < |su.calls|
    ensures Bounded(su, st, Next(su, st, m), m.tid)
  {
    assert PcHolds(su, st.log, m.tid, st.pcs[m.tid]);
  }

  /** A call's step brings it nearer its end and moves no other; and a slot changes only by an admission of its own. */
  lemma StepsAreBounded(su: Setup, schedule: seq<Move>, m: Move)
    requires m.tid < |su.calls|
    ensures Bounded(su, Reach(su, schedule), Reach(su, schedule + [m]), m.tid)
  {
    ReachHolds(su, schedule);
    assert (schedule + [m])[..|schedule|] == schedule;
    StepIsBounded(su, Reach(su, schedule), m);
  }

  /** At a frozen clock, from full, no interleaving admits more than `burst`, and the slot counts every one. */
  lemma FrozenThreads(su: Setup, schedule: seq<Move>, s: nat, t: nat)
    requires su.rates.Valid() && su.rates.capacity % MILLI == 0 && s < SLOTS
    requires Frozen(su.calls, t) && Unpack(su.table[s]).0 == 0
    ensures var st := Reach(su, schedule);
            && Unpack(st.table[s]).0 == 1_000 * WinsOn(su, st.log, 0, |st.log|, s)
            && WinsOn(su, st.log, 0, |st.log|, s) <= su.rates.capacity / 1_000
  {
    var st := Reach(su, schedule);
    ReachHolds(su, schedule);
    Linearises(su, schedule);
    CallsAt(st.log, 0, |st.log|);
    forall c | c in CallsOf(st.log, 0, |st.log|) ensures c.t == t { assert c in su.calls; }
    WinsAreAdmitted(su, st.log, 0, |st.log|, s);
    FrozenClock(su.rates, su.hash, su.table, CallsOf(st.log, 0, |st.log|), s, t);
  }

  /** Any stretch of admissions whose clock readings do not go back obeys the window bound. */
  lemma ConcurrentWindow(su: Setup, schedule: seq<Move>, lo: nat, hi: nat, s: nat)
    requires su.rates.Valid() && s < SLOTS && WithinCapacity(su.rates, su.table[s])
    requires lo < hi <= |Reach(su, schedule).log| && Ordered(CallsOf(Reach(su, schedule).log, lo, hi))
    ensures var log := Reach(su, schedule).log;
            1_000 * WinsOn(su, log, lo, hi, s) <= su.rates.capacity + (log[hi - 1].call.t - log[lo].call.t) * su.rates.refill
  {
    ReachAdmits(su, schedule);
    LogWindow(su, Reach(su, schedule).log, lo, hi, s);
  }

  lemma LogWindow(su: Setup, log: seq<Win>, lo: nat, hi: nat, s: nat)
    requires su.rates.Valid() && s < SLOTS && WithinCapacity(su.rates, su.table[s])
    requires lo < hi <= |log| && Ordered(CallsOf(log, lo, hi)) && AllAdmitted(su, log)
    ensures 1_000 * WinsOn(su, log, lo, hi, s) <= su.rates.capacity + (log[hi - 1].call.t - log[lo].call.t) * su.rates.refill
  {
    var before, window := CallsOf(log, 0, lo), CallsOf(log, lo, hi);
    StretchesRun(su, log, 0, lo);
    WindowBound(su.rates, su.hash, su.table, before, window, s);
    CallsAt(log, lo, hi);
    WinsAreAdmitted(su, log, lo, hi, s);
  }

  /** The slot held `b` when the stretch began, and its readings on the slot are in reach of the stamp, in whatever order. */
  ghost predicate StaleStretch(su: Setup, log: seq<Win>, lo: nat, hi: nat, s: nat, b: Bucket)
    requires lo <= hi <= |log| && s < SLOTS
  {
    Reachable(su.rates, su.hash, TableAt(su, log, lo), CallsOf(log, lo, hi), s, b)
  }

  ghost predicate StretchIsBounded(su: Setup, log: seq<Win>, lo: nat, hi: nat, s: nat, b: Bucket)
    requires lo <= hi <= |log| && s < SLOTS
  {
    var b' := Track(su.rates, su.hash, TableAt(su, log, lo), CallsOf(log, lo, hi), s, b);
    TableAt(su, log, hi)[s] == Word(b') && BoundedSpan(su.rates, b, b', WinsOn(su, log, lo, hi, s))
  }

  lemma StaleLog(su: Setup, log: seq<Win>, lo: nat, hi: nat, s: nat, b: Bucket)
    requires su.rates.Valid() && s < SLOTS && lo <= hi <= |log| && AllAdmitted(su, log)
    requires StaleStretch(su, log, lo, hi, s, b)
    ensures StretchIsBounded(su, log, lo, hi, s, b)
  {
    StretchesRun(su, log, lo, hi);
    WinsAreCalls(su, log, lo, hi, s);
    AllTracked(su.rates, su.hash, TableAt(su, log, lo), CallsOf(log, lo, hi), s, b);
  }

  /**
    * Readings taken out of order by the calls' racing: any stretch of admissions whose readings stay in reach of the
    * slot's stamp obeys the bound over the span of the stamps, in every interleaving.
    */
  lemma ConcurrentStaleReadings(su: Setup, schedule: seq<Move>, lo: nat, hi: nat, s: nat, b: Bucket)
    requires su.rates.Valid() && s < SLOTS && lo <= hi <= |Reach(su, schedule).log|
    requires StaleStretch(su, Reach(su, schedule).log, lo, hi, s, b)
    ensures StretchIsBounded(su, Reach(su, schedule).log, lo, hi, s, b)
  {
    ReachAdmits(su, schedule);
    StaleLog(su, Reach(su, schedule).log, lo, hi, s, b);
  }
}
