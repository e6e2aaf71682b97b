/** Token buckets packed into 64-bit words: a 30-bit deficit and a 32-bit wrapping millisecond stamp. */
module RateLimits {

  datatype Option<+T> = None | Some(value: T)

  const TWO_30 := 0x4000_0000
  const TWO_32 := 0x1_0000_0000
  const TWO_64 := 0x1_0000_0000_0000_0000
  const TWO_128 := 0x1_0000_0000_0000_0000_0000_0000_0000_0000

  type u32 = x: int | 0 <= x < TWO_32
  type u64 = x: int | 0 <= x < TWO_64
  type u128 = x: int | 0 <= x < TWO_128

  const SLOTS := 0x4_0000
  const MAX_RATE: u32 := 1_000_000
  const MILLI := 1_000
  const WRAP_GUARD_MS := 0x8000_0000
  const STALE_MAX_MS := 60_000
  const BACKWARDS_FLOOR_MS := TWO_32 - STALE_MAX_MS
  const CAS_ATTEMPTS := 8

  // -------------------------------------------------------------- the key

  datatype IpAddr = V4(v4: u32) | V6(v6: u128)

  /** `::ffff:a.b.c.d` is its IPv4 address, and nothing else is (RFC 4291 section 2.5.5.2). */
  function Fold(ip: IpAddr): IpAddr {
    if ip.V6? && ip.v6 / TWO_32 == 0xffff then V4(ip.v6 % TWO_32) else ip
  }

  /** A family tag in bits 63..62 and the prefix right-aligned below it. */
  function CanonicalKey(ip: IpAddr): u64 {
    match Fold(ip)
    case V4(a) => a / 0x100
    case V6(a) => 0x4000_0000_0000_0000 + a / 0x100_0000_0000_0000_0000
  }

  /** The IPv4 address a packet came from, whether it came over IPv4 or mapped at `::ffff:0:0/96`. */
  function IPv4Of(ip: IpAddr): Option<int> {
    match ip
    case V4(a) => Some(a)
    case V6(a) => if 0xffff_0000_0000 <= a < 0x1_0000_0000_0000 then Some(a - 0xffff_0000_0000) else None
  }

  /** One IPv4 /24, or one IPv6 /56 of addresses that are not IPv4's: the two in one aligned block. */
  predicate SamePrefix(a: IpAddr, b: IpAddr) {
    match (IPv4Of(a), IPv4Of(b))
    case (Some(x), Some(y)) => x - x % 0x100 == y - y % 0x100
    case (None, None) => a.v6 - a.v6 % 0x100_0000_0000_0000_0000 == b.v6 - b.v6 % 0x100_0000_0000_0000_0000
    case _ => false
  }

  lemma FoldsToIPv4(ip: IpAddr)
    ensures IPv4Of(ip) == if Fold(ip).V4? then Some(Fold(ip).v4) else None
    ensures Fold(ip).V6? ==> ip == Fold(ip)
  {
  }

  /** The tag keeps the families apart: bits 63..62 are 00 for IPv4 and 01 for IPv6. */
  lemma KeyIsTagged(ip: IpAddr)
    ensures CanonicalKey(ip) / 0x4000_0000_0000_0000 == if IPv4Of(ip).Some? then 0 else 1
  {
    FoldsToIPv4(ip);
  }

  lemma KeyIsPrefix(a: IpAddr, b: IpAddr)
    ensures CanonicalKey(a) == CanonicalKey(b) <==> SamePrefix(a, b)
  {
    FoldsToIPv4(a);
    FoldsToIPv4(b);
    assert Fold(a).V4? ==> CanonicalKey(a) < 0x4000_0000_0000_0000;
    assert Fold(b).V4? ==> CanonicalKey(b) < 0x4000_0000_0000_0000;
  }

  // ------------------------------------------------------------- the word

  function Unpack(word: u64): (r: (nat, u32))
    ensures r.0 < TWO_30
  {
    (word / TWO_32 % TWO_30, word % TWO_32)
  }

  function Pack(deficit: nat, last: u32): u64 {
    deficit % TWO_30 * TWO_32 + last
  }

  /** A deficit under 2^30 survives the word, and bits 63..62 stay clear. */
  lemma PackRoundTrip(deficit: nat, last: u32)
    ensures Unpack(Pack(deficit, last)) == (deficit, last) <==> deficit < 0x4000_0000
    ensures Pack(deficit, last) < 0x4000_0000_0000_0000
  {
    assert Pack(deficit, last) / TWO_32 == deficit % TWO_30;
  }

  datatype Band = Ordinary(elapsed: u32) | Backwards | LongIdle

  /** `a.wrapping_sub(b)`. */
  function WrappingSub(a: u32, b: u32): u32 {
    (a - b) % TWO_32
  }

  function BandOf(now: u32, last: u32): Band {
    var elapsed := WrappingSub(now, last);
    if elapsed < WRAP_GUARD_MS then Ordinary(elapsed)
    else if elapsed >= BACKWARDS_FLOOR_MS then Backwards
    else LongIdle
  }

  function SaturatingSub(a: nat, b: nat): nat {
    if a < b then 0 else a - b
  }

  /** The deficit brought up to `now`, and the stamp a store would carry. */
  function Settle(word: u64, now: u32, refill: nat): (r: (nat, u32))
    ensures r.0 <= Unpack(word).0
  {
    var (deficit, last) := Unpack(word);
    match BandOf(now, last)
    case Ordinary(elapsed) => (SaturatingSub(deficit, elapsed * refill), now)
    case Backwards => (deficit, last)
    case LongIdle => (0, now)
  }

  /** The low 32 bits of a millisecond count since the epoch. */
  function Clock(t: nat): u32 {
    t % TWO_32
  }

  /** `qps` and `burst` once clamped: what a limiter can be built with. */
  datatype Rates = Rates(refill: nat, capacity: nat) {
    predicate Valid() {
      1 <= refill <= MAX_RATE && MILLI <= capacity <= MAX_RATE * MILLI
    }
  }

  function Clamp(x: u32): u32 {
    if x < 1 then 1 else if x > MAX_RATE then MAX_RATE else x
  }

  function RatesOf(qps: u32, burst: u32): (r: Rates)
    ensures r.Valid() && r.capacity % 1_000 == 0
    ensures 1 <= qps <= 1_000_000 ==> r.refill == qps
    ensures 1 <= burst <= 1_000_000 ==> r.capacity == burst * 1_000
    ensures qps == 0 ==> r.refill == 1
    ensures burst == 0 ==> r.capacity == 1_000
    ensures qps > 1_000_000 ==> r.refill == 1_000_000
    ensures burst > 1_000_000 ==> r.capacity == 1_000_000_000
  {
    Rates(Clamp(qps), Clamp(burst) * MILLI)
  }

  /** The word an admission stores, or `None` when the bucket has no token left. */
  function Charge(rates: Rates, word: u64, now: u32): Option<u64> {
    var (refilled, stamp) := Settle(word, now, rates.refill);
    if refilled + MILLI > rates.capacity then None else Some(Pack(refilled + MILLI, stamp))
  }

  // ------------------------------------------- against an unbounded clock

  /** A bucket over a clock that never wraps and never runs back: the stamp only grows. */
  datatype Bucket = Bucket(deficit: nat, stamp: nat)

  function Refill(b: Bucket, t: nat, refill: nat): Bucket {
    if t <= b.stamp then b else Bucket(SaturatingSub(b.deficit, (t - b.stamp) * refill), t)
  }

  function Word(b: Bucket): u64 {
    Pack(b.deficit, Clock(b.stamp))
  }

  /** How far `t` is past the stamp. */
  function Gap(b: Bucket, t: nat): int {
    t - b.stamp
  }

  lemma GapOfWord(b: Bucket, t: nat)
    requires b.deficit < TWO_30
    ensures Unpack(Word(b)) == (b.deficit, Clock(b.stamp))
    ensures WrappingSub(Clock(t), Clock(b.stamp)) == Gap(b, t) % TWO_32
  {
    PackRoundTrip(b.deficit, Clock(b.stamp));
    assert (Clock(t) - Clock(b.stamp) - Gap(b, t)) % TWO_32 == 0;
  }

  lemma MulGrows(a: nat, b: nat, c: nat)
    requires a <= b && 1 <= c
    ensures a <= a * c <= b * c
  {
  }

  predicate AsRefill(b: Bucket, t: nat, refill: nat) {
    Settle(Word(b), Clock(t), refill) == (Refill(b, t, refill).deficit, Clock(Refill(b, t, refill).stamp))
  }

  /** A forward gap of a whole wrap and more: what settling makes of it, and when that is still right. */
  lemma SettleIsRefillPastTheWrap(b: Bucket, t: nat, refill: nat)
    requires b.deficit < TWO_30 && 1 <= refill && t - b.stamp >= 0x1_0000_0000 - 60_000
    ensures var e := (t - b.stamp) % 0x1_0000_0000;
            AsRefill(b, t, refill) <==> 0x8000_0000 <= e < 0x1_0000_0000 - 60_000 || (e < 0x8000_0000 && b.deficit <= e * refill)
  {
    GapOfWord(b, t);
    MulGrows(Gap(b, t), Gap(b, t), refill);
    StampMoves(b, t);
  }

  lemma StampMoves(b: Bucket, t: nat)
    requires 0 <= Gap(b, t)
    ensures Clock(t) == Clock(b.stamp) <==> Gap(b, t) % TWO_32 == 0
  {
  }

  /** Settling is the saturating refill for every forward gap below 2^32 - 60000 ms and every step back of at most 60 s. */
  lemma SettleIsRefill(b: Bucket, t: nat, refill: nat)
    requires b.deficit < TWO_30 && 1 <= refill
    requires -60_000 <= t - b.stamp < 0x1_0000_0000 - 60_000
    ensures AsRefill(b, t, refill)
  {
    GapOfWord(b, t);
    var gap := Gap(b, t);
    if gap < 0 {
      assert gap % TWO_32 == gap + TWO_32;
    } else {
      assert gap % TWO_32 == gap;
      if gap == 0 { assert gap * refill == 0; } else { MulGrows(gap, gap, refill); }
    }
  }

  /** A step back of more than 60 s: only at one that is whole turns of the clock, or up to 60 s more than them. */
  lemma SettleIsRefillFarBehind(b: Bucket, t: nat, refill: nat)
    requires b.deficit < TWO_30 && 1 <= refill && t - b.stamp < -60_000
    ensures var e := (t - b.stamp) % 0x1_0000_0000;
            AsRefill(b, t, refill) <==> e == 0 || e >= 0x1_0000_0000 - 60_000
  {
    GapOfWord(b, t);
    StampIsOff(b, t);
  }

  lemma StampIsOff(b: Bucket, t: nat)
    ensures Clock(t) == Clock(b.stamp) <==> Gap(b, t) % TWO_32 == 0
  {
    assert (Clock(t) - Clock(b.stamp) - Gap(b, t)) % TWO_32 == 0;
  }

  // ------------------------------------ what any clock, wraps and all, keeps

  /** The deficit a slot shows at `t`. */
  function Shown(word: u64, t: nat, refill: nat): nat {
    Settle(word, Clock(t), refill).0
  }

  lemma ElapsedShift(last: u32, t: nat, t': nat)
    requires t <= t'
    ensures WrappingSub(Clock(t'), last) == (WrappingSub(Clock(t), last) + (t' - t)) % TWO_32
  {
    assert (Clock(t') - last - (Clock(t) - last) - (t' - t)) % TWO_32 == 0;
  }

  lemma MulSplit(a: nat, b: nat, c: nat)
    requires a <= b
    ensures b * c == a * c + (b - a) * c
  {
  }

  /** The deficit shown `elapsed` milliseconds of the wrapped clock after the stamp. */
  function DeficitAfter(deficit: nat, elapsed: u32, refill: nat): nat {
    if elapsed < WRAP_GUARD_MS then SaturatingSub(deficit, elapsed * refill)
    else if elapsed >= BACKWARDS_FLOOR_MS then deficit
    else 0
  }

  lemma ShownByBand(word: u64, t: nat, refill: nat)
    ensures Shown(word, t, refill) == DeficitAfter(Unpack(word).0, WrappingSub(Clock(t), Unpack(word).1), refill)
  {
  }

  /** Between two readings in the ordinary band. */
  lemma OrdinaryFall(deficit: nat, e: nat, step: nat, refill: nat)
    ensures SaturatingSub(deficit, (e + step) * refill) >= SaturatingSub(deficit, e * refill) - step * refill
  {
    MulSplit(e, e + step, refill);
  }

  /** Within one turn of the clock: an idle gap past the guard has paid any deficit off. */
  lemma FallWithinATurn(deficit: nat, e: u32, step: nat, refill: nat)
    requires deficit < TWO_30 && 1 <= refill && e + step < TWO_32
    ensures DeficitAfter(deficit, e + step, refill) >= DeficitAfter(deficit, e, refill) - step * refill
  {
    if e + step < WRAP_GUARD_MS {
      OrdinaryFall(deficit, e, step, refill);
    } else if e + step < BACKWARDS_FLOOR_MS && e < WRAP_GUARD_MS {
      OrdinaryFall(deficit, e, step, refill);
      MulGrows(e + step, e + step, refill);
    }
  }

  /** Past a turn: the readings since it began have been through at least what the new one shows. */
  lemma FallPastATurn(deficit: nat, e: u32, step: nat, refill: nat)
    requires deficit < TWO_30 && 1 <= refill && e + step >= TWO_32
    ensures DeficitAfter(deficit, (e + step) % TWO_32, refill) >= deficit - step * refill
  {
    var e' := (e + step) % TWO_32;
    assert e' <= step;
    MulGrows(e', step, refill);
    MulGrows(step, step, refill);
  }

  lemma FallBy(deficit: nat, e: u32, step: nat, refill: nat)
    requires deficit < TWO_30 && 1 <= refill
    ensures DeficitAfter(deficit, (e + step) % TWO_32, refill) >= DeficitAfter(deficit, e, refill) - step * refill
  {
    if e + step < TWO_32 {
      assert (e + step) % TWO_32 == e + step;
      FallWithinATurn(deficit, e, step, refill);
    } else {
      FallPastATurn(deficit, e, step, refill);
    }
  }

  /** Time gives back at most `refill` per millisecond, however often the stamp has wrapped. */
  lemma RefillIsBounded(word: u64, t: nat, t': nat, refill: nat)
    requires t <= t' && 1 <= refill
    ensures Shown(word, t', refill) >= Shown(word, t, refill) - (t' - t) * refill
  {
    var last := Unpack(word).1;
    ShownByBand(word, t, refill);
    ShownByBand(word, t', refill);
    ElapsedShift(last, t, t');
    FallBy(Unpack(word).0, WrappingSub(Clock(t), last), t' - t, refill);
  }

  /** A word stamped at its own reading, or ahead of it, settles to itself. */
  lemma SettlesToItself(deficit: nat, stamp: u32, now: u32, refill: nat)
    requires deficit < TWO_30 && (stamp == now || BandOf(now, stamp).Backwards?)
    ensures Settle(Pack(deficit, stamp), now, refill) == (deficit, stamp)
  {
    PackRoundTrip(deficit, stamp);
  }

  lemma StampAfterSettling(word: u64, now: u32, refill: nat)
    ensures var stamp := Settle(word, now, refill).1; stamp == now || BandOf(now, stamp).Backwards?
  {
  }

  /** An admission costs one token at the time it is made, in every band. */
  lemma ChargeCostsOne(rates: Rates, word: u64, t: nat)
    requires rates.Valid() && Charge(rates, word, Clock(t)).Some?
    ensures var word' := Charge(rates, word, Clock(t)).value;
            && Shown(word', t, rates.refill) == Shown(word, t, rates.refill) + 1_000 <= rates.capacity
            && Unpack(word').0 == Shown(word', t, rates.refill)
  {
    var (refilled, stamp) := Settle(word, Clock(t), rates.refill);
    PackRoundTrip(refilled + MILLI, stamp);
    StampAfterSettling(word, Clock(t), rates.refill);
    SettlesToItself(refilled + MILLI, stamp, Clock(t), rates.refill);
  }
}
