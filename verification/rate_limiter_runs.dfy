/** Runs of the limiter, one call after another, and the limiter itself as an object over its slot table. */
module RateLimitRuns {
  import opened RateLimits

  /** A query from `ip`, its clock read at `t` milliseconds after the epoch. */
  datatype Call = Call(ip: IpAddr, t: nat)

  type Table = s: seq<u64> | |s| == SLOTS witness seq(SLOTS, _ => 0)

  /** The hash is any function of the canonical key; the mask leaves a slot index. */
  function SlotOf(hash: u64 -> u64, ip: IpAddr): (s: nat)
    ensures s < 0x4_0000 && (hash(CanonicalKey(ip)) - s) % 0x4_0000 == 0
  {
    hash(CanonicalKey(ip)) % SLOTS
  }

  function Charged(rates: Rates, hash: u64 -> u64, table: Table, c: Call): Option<u64> {
    Charge(rates, table[SlotOf(hash, c.ip)], Clock(c.t))
  }

  function After(rates: Rates, hash: u64 -> u64, table: Table, c: Call): Table {
    match Charged(rates, hash, table, c)
    case None => table
    case Some(word) => table[SlotOf(hash, c.ip) := word]
  }

  function Run(rates: Rates, hash: u64 -> u64, table: Table, calls: seq<Call>): Table {
    if calls == [] then table
    else After(rates, hash, Run(rates, hash, table, calls[..|calls| - 1]), calls[|calls| - 1])
  }

  /** How many of the calls on slot `s` are admitted. */
  function Admitted(rates: Rates, hash: u64 -> u64, table: Table, calls: seq<Call>, s: nat): nat {
    if calls == [] then 0
    else
      var c := calls[|calls| - 1];
      Admitted(rates, hash, table, calls[..|calls| - 1], s)
        + if SlotOf(hash, c.ip) == s && Charged(rates, hash, Run(rates, hash, table, calls[..|calls| - 1]), c).Some? then 1 else 0
  }

  function CallsOn(hash: u64 -> u64, calls: seq<Call>, s: nat): nat {
    if calls == [] then 0
    else CallsOn(hash, calls[..|calls| - 1], s) + if SlotOf(hash, calls[|calls| - 1].ip) == s then 1 else 0
  }

  /** Each of the calls is admitted, in its turn. */
  predicate AllOf(rates: Rates, hash: u64 -> u64, table: Table, calls: seq<Call>) {
    calls == [] ||
    (AllOf(rates, hash, table, calls[..|calls| - 1])
     && Charged(rates, hash, Run(rates, hash, table, calls[..|calls| - 1]), calls[|calls| - 1]).Some?)
  }

  lemma {:induction false} AllAreCounted(rates: Rates, hash: u64 -> u64, table: Table, calls: seq<Call>, s: nat)
    requires AllOf(rates, hash, table, calls)
    ensures Admitted(rates, hash, table, calls, s) == CallsOn(hash, calls, s)
  {
    if calls != [] { AllAreCounted(rates, hash, table, calls[..|calls| - 1], s); }
  }

  lemma OneMoreCall(rates: Rates, hash: u64 -> u64, table: Table, calls: seq<Call>, c: Call)
    ensures Run(rates, hash, table, calls + [c]) == After(rates, hash, Run(rates, hash, table, calls), c)
    ensures AllOf(rates, hash, table, calls) && Charged(rates, hash, Run(rates, hash, table, calls), c).Some? ==>
              AllOf(rates, hash, table, calls + [c])
  {
    assert (calls + [c])[..|calls|] == calls;
  }

  lemma OneMoreOn(hash: u64 -> u64, calls: seq<Call>, c: Call, s: nat)
    ensures CallsOn(hash, calls + [c], s) == CallsOn(hash, calls, s) + if SlotOf(hash, c.ip) == s then 1 else 0
  {
    assert (calls + [c])[..|calls|] == calls;
  }

  /** No slot owes more than a whole bucket: so of a fresh table, and of every table a run leaves. */
  predicate WithinCapacity(rates: Rates, word: u64) {
    Unpack(word).0 <= rates.capacity
  }

  /** No reading is behind the one before it. */
  predicate Ordered(calls: seq<Call>) {
    |calls| < 2 || (Ordered(calls[..|calls| - 1]) && calls[|calls| - 2].t <= calls[|calls| - 1].t)
  }

  // -------------------------------------------------- the bound on a window

  function CallCost(rates: Rates, hash: u64 -> u64, table: Table, c: Call, s: nat): nat {
    if SlotOf(hash, c.ip) == s && Charged(rates, hash, table, c).Some? then MILLI else 0
  }

  /** One call's account: what it admits is paid for by the deficit it leaves and the refill since. */
  lemma CallAccount(rates: Rates, hash: u64 -> u64, table: Table, c: Call, s: nat, t: nat)
    requires rates.Valid() && s < SLOTS && t <= c.t && WithinCapacity(rates, table[s])
    ensures var table' := After(rates, hash, table, c);
            && WithinCapacity(rates, table'[s])
            && Pays(Shown(table[s], t, rates.refill), t, Shown(table'[s], c.t, rates.refill), c.t, rates.refill,
                    CallCost(rates, hash, table, c, s))
  {
    RefillIsBounded(table[s], t, c.t, rates.refill);
    if SlotOf(hash, c.ip) == s && Charged(rates, hash, table, c).Some? {
      ChargeCostsOne(rates, table[s], c.t);
    }
  }

  lemma SpanSplit(a: int, b: int, c: int, k: int)
    ensures (c - a) * k == (c - b) * k + (b - a) * k
  {
  }

  /** Whatever the readings, no slot comes to owe more than a whole bucket. */
  lemma {:induction false} RunWithinCapacity(rates: Rates, hash: u64 -> u64, table: Table, calls: seq<Call>, s: nat)
    requires rates.Valid() && s < SLOTS && WithinCapacity(rates, table[s])
    ensures WithinCapacity(rates, Run(rates, hash, table, calls)[s])
  {
    if calls != [] {
      var init, c := calls[..|calls| - 1], calls[|calls| - 1];
      RunWithinCapacity(rates, hash, table, init, s);
      CallAccount(rates, hash, Run(rates, hash, table, init), c, s, c.t);
    }
  }

  /** What a slot shows at `t` and later at `t'`, with `paid` milli-tokens charged between. */
  predicate Pays(shown: nat, t: nat, shown': nat, t': nat, refill: nat, paid: nat) {
    shown' >= shown - (t' - t) * refill + paid
  }

  lemma PaysJoin(a: nat, t0: nat, b: nat, t1: nat, c: nat, t2: nat, refill: nat, p: nat, q: nat)
    requires Pays(a, t0, b, t1, refill, p) && Pays(b, t1, c, t2, refill, q)
    ensures Pays(a, t0, c, t2, refill, p + q)
  {
    SpanSplit(t0, t1, t2, refill);
  }

  lemma {:induction false} RunAccount(rates: Rates, hash: u64 -> u64, table: Table, calls: seq<Call>, s: nat)
    requires rates.Valid() && s < SLOTS && Ordered(calls) && calls != [] && WithinCapacity(rates, table[s])
    ensures var table', t, t' := Run(rates, hash, table, calls), calls[0].t, calls[|calls| - 1].t;
            && Pays(Shown(table[s], t, rates.refill), t, Shown(table'[s], t', rates.refill), t', rates.refill,
                    MILLI * Admitted(rates, hash, table, calls, s))
  {
    var init, c := calls[..|calls| - 1], calls[|calls| - 1];
    if init == [] {
      CallAccount(rates, hash, table, c, s, c.t);
    } else {
      var t0, t1, mid := calls[0].t, init[|init| - 1].t, Run(rates, hash, table, init);
      RunAccount(rates, hash, table, init, s);
      RunWithinCapacity(rates, hash, table, init, s);
      CallAccount(rates, hash, mid, c, s, t1);
      PaysJoin(Shown(table[s], t0, rates.refill), t0, Shown(mid[s], t1, rates.refill), t1,
               Shown(After(rates, hash, mid, c)[s], c.t, rates.refill), c.t, rates.refill,
               MILLI * Admitted(rates, hash, table, init, s), CallCost(rates, hash, mid, c, s));
    }
  }

  /** In any window of any run, wraps of the 32-bit clock and all: 1000 per admission is at most a bucket and the refill. */
  lemma WindowBound(rates: Rates, hash: u64 -> u64, table: Table, before: seq<Call>, window: seq<Call>, s: nat)
    requires rates.Valid() && s < SLOTS && window != [] && Ordered(window) && WithinCapacity(rates, table[s])
    ensures 1_000 * Admitted(rates, hash, Run(rates, hash, table, before), window, s)
         <= rates.capacity + (window[|window| - 1].t - window[0].t) * rates.refill
  {
    var start := Run(rates, hash, table, before);
    RunWithinCapacity(rates, hash, table, before, s);
    RunWithinCapacity(rates, hash, start, window, s);
    RunAccount(rates, hash, start, window, s);
  }

  /** The admitted calls from addresses of one prefix. */
  function AdmittedFrom(rates: Rates, hash: u64 -> u64, table: Table, calls: seq<Call>, source: IpAddr): nat {
    if calls == [] then 0
    else
      var c := calls[|calls| - 1];
      AdmittedFrom(rates, hash, table, calls[..|calls| - 1], source)
        + if SamePrefix(c.ip, source) && Charged(rates, hash, Run(rates, hash, table, calls[..|calls| - 1]), c).Some? then 1 else 0
  }

  lemma {:induction false} PrefixSharesOneSlot(rates: Rates, hash: u64 -> u64, table: Table, calls: seq<Call>, source: IpAddr)
    ensures AdmittedFrom(rates, hash, table, calls, source) <= Admitted(rates, hash, table, calls, SlotOf(hash, source))
  {
    if calls != [] {
      PrefixSharesOneSlot(rates, hash, table, calls[..|calls| - 1], source);
      KeyIsPrefix(calls[|calls| - 1].ip, source);
    }
  }

  /** No /24 and no /56 is admitted more than its bucket and its refill, whatever shares its slot. */
  lemma PrefixBound(rates: Rates, hash: u64 -> u64, table: Table, window: seq<Call>, source: IpAddr)
    requires rates.Valid() && window != [] && Ordered(window) && WithinCapacity(rates, table[SlotOf(hash, source)])
    ensures 1_000 * AdmittedFrom(rates, hash, table, window, source)
         <= rates.capacity + (window[|window| - 1].t - window[0].t) * rates.refill
  {
    PrefixSharesOneSlot(rates, hash, table, window, source);
    WindowBound(rates, hash, table, [], window, SlotOf(hash, source));
  }

  // ------------------------------------------------------------ a frozen clock

  ghost predicate Frozen(calls: seq<Call>, t: nat) {
    forall c | c in calls :: c.t == t
  }

  function Min(a: nat, b: nat): nat {
    if a < b then a else b
  }

  /** From a full bucket at a frozen clock: the first `burst` calls are admitted, and the stored deficit counts them. */
  lemma {:induction false} FrozenClock(rates: Rates, hash: u64 -> u64, table: Table, calls: seq<Call>, s: nat, t: nat)
    requires rates.Valid() && rates.capacity % MILLI == 0 && s < SLOTS && Frozen(calls, t) && Unpack(table[s]).0 == 0
    ensures var word := Run(rates, hash, table, calls)[s];
            Unpack(word).0 == Shown(word, t, rates.refill) == 1_000 * Admitted(rates, hash, table, calls, s)
    ensures Admitted(rates, hash, table, calls, s) == Min(CallsOn(hash, calls, s), rates.capacity / 1_000)
  {
    if calls != [] {
      var init, c := calls[..|calls| - 1], calls[|calls| - 1];
      FrozenClock(rates, hash, table, init, s, t);
      var table' := Run(rates, hash, table, init);
      assert c.t == t;
      if SlotOf(hash, c.ip) == s && Charged(rates, hash, table', c).Some? { ChargeCostsOne(rates, table'[s], t); }
    }
  }

  // -------------------------------------- readings up to a minute out of order

  /** What one call makes of an ideal bucket. */
  function TrackOne(rates: Rates, b: Bucket, t: nat): Bucket {
    var full := Refill(b, t, rates.refill);
    if full.deficit + MILLI > rates.capacity then b else Bucket(full.deficit + MILLI, full.stamp)
  }

  /** The run of an ideal bucket over the calls on `s`; its stamp is the latest reading of those it admits. */
  function Track(rates: Rates, hash: u64 -> u64, table: Table, calls: seq<Call>, s: nat, b: Bucket): Bucket {
    if calls == [] then b
    else
      var init, c := calls[..|calls| - 1], calls[|calls| - 1];
      var b' := Track(rates, hash, table, init, s, b);
      if SlotOf(hash, c.ip) == s then TrackOne(rates, b', c.t) else b'
  }

  /** Each reading on `s` is at most a minute behind the slot's stamp, and less than a wrap but a minute ahead of it. */
  ghost predicate InReach(rates: Rates, hash: u64 -> u64, table: Table, calls: seq<Call>, s: nat, b: Bucket) {
    calls == [] ||
    (var init, c := calls[..|calls| - 1], calls[|calls| - 1];
     && InReach(rates, hash, table, init, s, b)
     && (SlotOf(hash, c.ip) == s ==>
           -60_000 <= c.t - Track(rates, hash, table, init, s, b).stamp < 0x1_0000_0000 - 60_000))
  }

  lemma RefillPays(b: Bucket, t: nat, refill: nat)
    ensures var full := Refill(b, t, refill);
            full.deficit <= b.deficit && b.stamp <= full.stamp && Pays(b.deficit, b.stamp, full.deficit, full.stamp, refill, 0)
  {
  }

  lemma ChargePays(a: nat, t: nat, b: nat, t': nat, refill: nat)
    requires Pays(a, t, b, t', refill, 0)
    ensures Pays(a, t, b + MILLI, t', refill, MILLI)
  {
  }

  lemma TrackAccount(rates: Rates, b: Bucket, t: nat)
    requires rates.Valid() && b.deficit <= rates.capacity && -STALE_MAX_MS <= Gap(b, t) < BACKWARDS_FLOOR_MS
    ensures var b', charge := TrackOne(rates, b, t), Charge(rates, Word(b), Clock(t));
            && b'.deficit <= rates.capacity && b.stamp <= b'.stamp
            && (if charge.Some? then Word(b') == charge.value else b' == b)
            && Pays(b.deficit, b.stamp, b'.deficit, b'.stamp, rates.refill, if charge.Some? then MILLI else 0)
  {
    var full := Refill(b, t, rates.refill);
    SettleIsRefill(b, t, rates.refill);
    RefillPays(b, t, rates.refill);
    ChargePays(b.deficit, b.stamp, full.deficit, full.stamp, rates.refill);
  }

  /** With readings out of order by up to a minute the slot is still an ideal bucket, and the same bound holds over its stamps. */
  lemma {:induction false} StaleReadings(rates: Rates, hash: u64 -> u64, table: Table, calls: seq<Call>, s: nat, b: Bucket)
    requires rates.Valid() && s < SLOTS && table[s] == Word(b) && b.deficit <= rates.capacity
    requires InReach(rates, hash, table, calls, s, b)
    ensures var b' := Track(rates, hash, table, calls, s, b);
            && Run(rates, hash, table, calls)[s] == Word(b') && b'.deficit <= rates.capacity && b.stamp <= b'.stamp
            && Pays(b.deficit, b.stamp, b'.deficit, b'.stamp, rates.refill, MILLI * Admitted(rates, hash, table, calls, s))
  {
    if calls != [] {
      var init, c := calls[..|calls| - 1], calls[|calls| - 1];
      StaleReadings(rates, hash, table, init, s, b);
      var b' := Track(rates, hash, table, init, s, b);
      if SlotOf(hash, c.ip) == s {
        TrackAccount(rates, b', c.t);
        var b'' := TrackOne(rates, b', c.t);
        PaysJoin(b.deficit, b.stamp, b'.deficit, b'.stamp, b''.deficit, b''.stamp, rates.refill,
                 MILLI * Admitted(rates, hash, table, init, s), CallCost(rates, hash, Run(rates, hash, table, init), c, s));
      }
    }
  }

  lemma StaleReadingsBound(rates: Rates, hash: u64 -> u64, table: Table, calls: seq<Call>, s: nat, b: Bucket)
    requires rates.Valid() && s < SLOTS && table[s] == Word(b) && b.deficit <= rates.capacity
    requires InReach(rates, hash, table, calls, s, b)
    ensures 1_000 * Admitted(rates, hash, table, calls, s)
         <= rates.capacity + (Track(rates, hash, table, calls, s, b).stamp - b.stamp) * rates.refill
  {
    StaleReadings(rates, hash, table, calls, s, b);
  }

  /** The slot holds the bucket, and the readings to come are in its reach. */
  ghost predicate Reachable(rates: Rates, hash: u64 -> u64, table: Table, calls: seq<Call>, s: nat, b: Bucket)
    requires s < SLOTS
  {
    table[s] == Word(b) && b.deficit <= rates.capacity && InReach(rates, hash, table, calls, s, b)
  }

  /** From `b` to `b'` with so many admissions between: no more than a bucket and the refill over the span of the stamps. */
  predicate BoundedSpan(rates: Rates, b: Bucket, b': Bucket, admitted: nat) {
    b.stamp <= b'.stamp && 1_000 * admitted <= rates.capacity + (b'.stamp - b.stamp) * rates.refill
  }

  lemma AllTracked(rates: Rates, hash: u64 -> u64, table: Table, calls: seq<Call>, s: nat, b: Bucket)
    requires rates.Valid() && s < SLOTS && AllOf(rates, hash, table, calls) && Reachable(rates, hash, table, calls, s, b)
    ensures var b' := Track(rates, hash, table, calls, s, b);
            Run(rates, hash, table, calls)[s] == Word(b') && BoundedSpan(rates, b, b', CallsOn(hash, calls, s))
  {
    StaleReadings(rates, hash, table, calls, s, b);
    StaleReadingsBound(rates, hash, table, calls, s, b);
    AllAreCounted(rates, hash, table, calls, s);
  }

  // -------------------------------------------------------------- the object

  class RateLimiter {
    const slots: array<u64>
    const hash: u64 -> u64
    const epoch: int
    const rates: Rates

    ghost predicate Valid()
      reads slots
    {
      && slots.Length == SLOTS && rates.Valid() && rates.capacity % MILLI == 0
      && forall i | 0 <= i < SLOTS :: WithinCapacity(rates, slots[i])
    }

    /** Every slot starts as the zero word: full, never touched. */
    constructor (qps: u32, burst: u32, hash: u64 -> u64, epoch: int)
      ensures Valid() && slots.Length == 0x4_0000 && fresh(slots) && this.hash == hash && this.epoch == epoch && rates == RatesOf(qps, burst)
      ensures forall i | 0 <= i < SLOTS :: slots[i] == 0
    {
      slots := new u64[SLOTS](_ => 0);
      rates := RatesOf(qps, burst);
      this.hash := hash;
      this.epoch := epoch;
    }

    /** Milliseconds since the epoch; an instant before it reads as zero. */
    function MillisSinceEpoch(now: int): nat {
      if now < epoch then 0 else now - epoch
    }

    /** One query by itself: `spurious[i]` is the weak compare-exchange's failure of attempt `i` for no reason. */
    method CheckAt(ip: IpAddr, now: int, spurious: seq<bool>) returns (allowed: bool)
      requires Valid() && |spurious| == 8
      modifies slots
      ensures Valid()
      ensures var c := Call(ip, MillisSinceEpoch(now));
              && (allowed <==> Charged(rates, hash, old(slots[..]), c).Some? && exists i | 0 <= i < 8 :: !spurious[i])
              && slots[..] == if allowed then After(rates, hash, old(slots[..]), c) else old(slots[..])
    {
      var slot, nowMs := SlotOf(hash, ip), Clock(MillisSinceEpoch(now));
      var observed := slots[slot];
      for attempt := 0 to CAS_ATTEMPTS
        invariant observed == slots[slot] && slots[..] == old(slots[..])
        invariant forall i | 0 <= i < attempt :: spurious[i]
        invariant attempt > 0 ==> Charge(rates, observed, nowMs).Some?
      {
        var (refilled, stamp) := Settle(observed, nowMs, rates.refill);
        var charged := refilled + MILLI;
        if charged > rates.capacity { return false; }
        if slots[slot] == observed && !spurious[attempt] {
          ChargeCostsOne(rates, observed, MillisSinceEpoch(now));
          slots[slot] := Pack(charged, stamp);
          return true;
        }
        observed := slots[slot];
      }
      return false;
    }

    /** The slots whose bucket is below full at `now`. */
    method ActiveAt(now: int) returns (active: nat)
      requires Valid()
      ensures active == |BelowFull(slots[..], MillisSinceEpoch(now), rates.refill)|
    {
      var t := MillisSinceEpoch(now);
      active := 0;
      assert BelowFull(slots[..0], t, rates.refill) == {};
      for i := 0 to slots.Length
        invariant active == |BelowFull(slots[..i], t, rates.refill)|
      {
        BelowFullNext(slots[..i], slots[i], t, rates.refill);
        assert slots[..i + 1] == slots[..i] + [slots[i]];
        if Settle(slots[i], Clock(t), rates.refill).0 > 0 { active := active + 1; }
      }
      assert slots[..slots.Length] == slots[..];
    }
  }

  function BelowFull(words: seq<u64>, t: nat, refill: nat): set<nat> {
    set i: nat | i < |words| && Shown(words[i], t, refill) > 0
  }

  lemma BelowFullNext(words: seq<u64>, word: u64, t: nat, refill: nat)
    ensures |BelowFull(words + [word], t, refill)| == |BelowFull(words, t, refill)| + if Shown(word, t, refill) > 0 then 1 else 0
  {
    var was := BelowFull(words, t, refill);
    assert BelowFull(words + [word], t, refill) == if Shown(word, t, refill) > 0 then was + {|words|} else was;
  }
}
