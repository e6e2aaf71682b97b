/** The zone as the object that is built and queried; every method is proved against `ZoneModel`. */
module FrozenZones {
  import opened Names
  import opened U128
  import opened ZoneModel

  /** No wildcard parent sits at a depth whose bit is clear, between `e` and `d`. */
  lemma {:induction false} WalkSkipsClearBits(z: ZoneData, n: Name, t: RType, d: int, e: int)
    requires e <= d && (d < |n| || n == []) && (n == [] ==> d <= 0)
    requires DepthsCover(z)
    requires forall k: nat | e < k <= d && k >= |z.origin| :: !Bit(z.depths, k)
    ensures WalkFrom(z, n, t, d) == WalkFrom(z, n, t, e)
    decreases d
  {
    if e < d && d >= |z.origin| { WalkSkipsClearBits(z, n, t, d - 1, e); }
  }

  /** `mask & !(1 << h)`. */
  lemma ClearedBit(mask: u128, h: nat, i: nat)
    requires h < BITS
    ensures Bit(BitAnd(mask, BitNot(OneShl(h))), i) <==> Bit(mask, i) && i != h
  {
    BitOfAnd(mask, BitNot(OneShl(h)), i);
    if i < BITS {
      BitOfNot(OneShl(h), i);
      BitOfPow2(h, i);
    } else {
      HighBitsClear(mask, i);
    }
  }

  lemma HighBitsClear(x: u128, i: nat)
    requires i >= BITS
    ensures !Bit(x, i)
  {
    BitLengthBound(x, BITS);
    if x == 0 { ZeroHasNoBits(i); } else { HighestBit(x); }
  }

  /** Takes the highest set bit out of the mask. */
  method PopHighest(mask: u128) returns (h: nat, rest: u128)
    requires mask != 0
    ensures Bit(mask, h) && forall i: nat | i > h :: !Bit(mask, i)
    ensures forall i: nat :: Bit(rest, i) <==> Bit(mask, i) && i != h
  {
    HighestBit(mask);
    h := BITS - 1 - LeadingZeros(mask);
    rest := BitAnd(mask, BitNot(OneShl(h)));
    forall i: nat ensures Bit(rest, i) <==> Bit(mask, i) && i != h { ClearedBit(mask, h, i); }
  }

  lemma WindowBit(hi: u128, low: u128, floor: nat, start: nat, i: nat)
    requires floor <= start < BITS && hi == Pow2(start + 1) - 1 && low == Pow2(floor) - 1
    ensures Bit(BitAnd(hi, BitNot(low)), i) <==> floor <= i <= start
  {
    BitOfAnd(hi, BitNot(low), i);
    BitOfLowMask(start + 1, i);
    BitOfLowMask(floor, i);
    if i < BITS { BitOfNot(low, i); }
  }

  /** The build after the first `i` record sets. */
  function BuildPrefix(cfg: ZoneConfig, i: nat): Option<ZoneData>
    requires i <= |cfg.records|
  {
    InsertAll(EmptyZone(cfg.origin), cfg.records[..i], cfg.defaultTtl)
  }

  lemma BuildPrefixNext(cfg: ZoneConfig, i: nat)
    requires i < |cfg.records|
    ensures BuildPrefix(cfg, i).None? ==> BuildPrefix(cfg, i + 1).None?
    ensures BuildPrefix(cfg, i).Some? ==>
      BuildPrefix(cfg, i + 1) == ZoneModel.InsertSpec(BuildPrefix(cfg, i).value, cfg.records[i], cfg.defaultTtl)
  {
    assert cfg.records[..i + 1][..i] == cfg.records[..i];
  }

  lemma {:induction false} BuildStops(cfg: ZoneConfig, i: nat)
    requires i <= |cfg.records| && BuildPrefix(cfg, i).None?
    ensures InsertAll(EmptyZone(cfg.origin), cfg.records, cfg.defaultTtl).None?
    decreases |cfg.records| - i
  {
    if i < |cfg.records| {
      BuildPrefixNext(cfg, i);
      BuildStops(cfg, i + 1);
    } else {
      assert cfg.records[..i] == cfg.records;
    }
  }

  function Prepend(records: seq<Record>, rest: Option<seq<Record>>): Option<seq<Record>> {
    if rest.Some? then Some(records + rest.value) else None
  }

  lemma PrependNext(records: seq<Record>, owner: Name, ttl: nat, t: RType, values: seq<RawValue>)
    requires values != []
    ensures Prepend(records, ParseRecords(owner, ttl, t, values)) ==
      match ParseValue(t, values[0])
      case None => None
      case Some(d) => Prepend(records + [Record(owner, ttl, d)], ParseRecords(owner, ttl, t, values[1..]))
  {
    var rest := ParseRecords(owner, ttl, t, values[1..]);
    var d := ParseValue(t, values[0]);
    if rest.Some? && d.Some? {
      assert records + ([Record(owner, ttl, d.value)] + rest.value) == records + [Record(owner, ttl, d.value)] + rest.value;
    }
  }

  method ParseAll(owner: Name, ttl: nat, t: RType, values: seq<RawValue>) returns (r: Option<seq<Record>>)
    ensures r == ParseRecords(owner, ttl, t, values)
  {
    var records: seq<Record> := [];
    var i := 0;
    assert values[0..] == values;
    assert Prepend([], ParseRecords(owner, ttl, t, values)) == ParseRecords(owner, ttl, t, values) by {
      var whole := ParseRecords(owner, ttl, t, values);
      if whole.Some? { assert [] + whole.value == whole.value; }
    }
    while i < |values|
      invariant 0 <= i <= |values|
      invariant ParseRecords(owner, ttl, t, values) == Prepend(records, ParseRecords(owner, ttl, t, values[i..]))
    {
      PrependNext(records, owner, ttl, t, values[i..]);
      assert values[i..][1..] == values[i + 1..];
      var d := ParseValue(t, values[i]);
      if d.None? { return None; }
      records := records + [Record(owner, ttl, d.value)];
      i := i + 1;
    }
    assert records + [] == records;
    return Some(records);
  }

  method ParseRecordSet(origin: Name, spec: RecordSpec, defaultTtl: nat) returns (r: Option<(Key, seq<Record>)>)
    ensures r == ParseSpec(origin, spec, defaultTtl)
  {
    if spec.rtype == None || spec.values == [] { return None; }
    var ttl := if spec.ttl.Some? then spec.ttl.value else defaultTtl;
    var owner := Qualify(origin, OwnerLabel(spec));
    if owner.None? { return None; }
    var records := ParseAll(owner.value, ttl, spec.rtype.value, spec.values);
    if records.None? { return None; }
    return Some(((owner.value, spec.rtype.value), records.value));
  }

  class FrozenZone {
    const origin: Name
    var exact: map<Key, seq<Record>>
    var wildcard: map<Key, seq<Record>>
    var wildcardDepths: u128
    var wildcardParents: set<Name>
    var names: set<Name>
    var recordCount: nat
    var soa: Option<Record>
    var rule: Rule

    function View(): ZoneData
      reads this
    {
      ZoneData(origin, exact, wildcard, wildcardDepths, wildcardParents, names, recordCount, soa)
    }

    constructor (origin: Name)
      ensures this.origin == origin && View() == EmptyZone(origin) && rule == DeepestWins
    {
      this.origin := origin;
      exact, wildcard, wildcardDepths, wildcardParents := map[], map[], 0, {};
      names, recordCount, soa, rule := {}, 0, None, DeepestWins;
    }

    method SetParent(p: Name)
      modifies this`wildcardDepths, this`wildcardParents
      ensures View() == AddParent(old(View()), p)
    {
      if |p| <= MAX_LABELS {
        OrFits(wildcardDepths, OneShl(|p|), BITS);
        wildcardDepths := BitOr(wildcardDepths, OneShl(|p|));
        wildcardParents := wildcardParents + {p};
      }
    }

    method AddSet(isWildcard: bool, key: Key, records: seq<Record>)
      modifies this
      ensures rule == old(rule) && View() == AddRecords(old(View()), isWildcard, key, records)
    {
      recordCount := recordCount + |records|;
      if isWildcard {
        SetParent(key.0);
        wildcard := Extend(wildcard, key, records);
      } else {
        names := names + {key.0};
        exact := Extend(exact, key, records);
      }
    }

    /** An error leaves the zone as it was. */
    method InsertSpec(spec: RecordSpec, defaultTtl: nat) returns (ok: bool)
      modifies this
      ensures rule == old(rule)
      ensures ok == ZoneModel.InsertSpec(old(View()), spec, defaultTtl).Some?
      ensures View() == if ok then ZoneModel.InsertSpec(old(View()), spec, defaultTtl).value else old(View())
    {
      var parsed := ParseRecordSet(origin, spec, defaultTtl);
      if parsed.None? { return false; }
      AddSet(IsWildcardSpec(spec), parsed.value.0, parsed.value.1);
      return true;
    }

    /** Record set by record set, stopping at the first that is refused. */
    method InsertRecords(cfg: ZoneConfig) returns (ok: bool)
      requires View() == EmptyZone(cfg.origin)
      modifies this
      ensures rule == old(rule)
      ensures ok == InsertAll(EmptyZone(cfg.origin), cfg.records, cfg.defaultTtl).Some?
      ensures ok ==> View() == InsertAll(EmptyZone(cfg.origin), cfg.records, cfg.defaultTtl).value
    {
      assert cfg.records[..0] == [];
      for i := 0 to |cfg.records|
        invariant rule == old(rule) && BuildPrefix(cfg, i) == Some(View())
      {
        BuildPrefixNext(cfg, i);
        ok := InsertSpec(cfg.records[i], cfg.defaultTtl);
        if !ok {
          BuildStops(cfg, i + 1);
          return;
        }
      }
      assert cfg.records[..|cfg.records|] == cfg.records;
      ok := true;
    }

    static method Build(cfg: ZoneConfig) returns (ok: bool, zone: FrozenZone)
      ensures fresh(zone) && zone.rule == DeepestWins
      ensures ok == ZoneModel.Build(cfg).Some?
      ensures ok ==> zone.View() == ZoneModel.Build(cfg).value
    {
      zone := new FrozenZone(cfg.origin);
      if !SoaParses(cfg.soa) { return false, zone; }
      ok := zone.InsertRecords(cfg);
      if !ok { return; }
      zone.soa := SoaOf(cfg, zone.exact);
      zone.names := zone.names + {cfg.origin};
    }

    method MaterialiseAncestors(ents: seq<Name>)
      modifies this
      ensures View() == Materialise(old(View()), ents) && rule == old(rule)
    {
      assert ents[..0] == [];
      for i := 0 to |ents|
        invariant View() == Materialise(old(View()), ents[..i]) && rule == old(rule)
      {
        assert ents[..i + 1][..i] == ents[..i];
        var ent := ents[i];
        if IsWildcardName(ent) {
          SetParent(BaseName(ent));
        } else {
          names := names + {ent};
        }
      }
      assert ents[..|ents|] == ents;
    }

    method UnderTheRfcRule()
      modifies this`rule
      ensures rule == ClosestEncloser
    {
      rule := ClosestEncloser;
    }

    /** The bits from the origin's depth up to the query's parent. */
    method WildcardWindow(name: Name) returns (window: u128)
      ensures forall i: nat :: Bit(window, i) <==> |origin| <= i <= WindowStart(name)
    {
      var start := if |name| == 0 then 0 else |name| - 1;
      if MAX_LABELS < start { start := MAX_LABELS; }
      var floor := |origin|;
      if start < floor || floor > MAX_LABELS {
        LabelCeiling(name);
        LabelCeiling(origin);
        forall i: nat ensures !Bit(0, i) { ZeroHasNoBits(i); }
        return 0;
      }
      var hi: u128 := if start == MAX_LABELS then Pow2(BITS) - 1 else OneShl(start + 1) - 1;
      var low: u128 := OneShl(floor) - 1;
      window := BitAnd(hi, BitNot(low));
      forall i: nat ensures Bit(window, i) <==> floor <= i <= start { WindowBit(hi, low, floor, start, i); }
      LabelCeiling(name);
    }

    /** The depths the mask still holds: those configured, from the origin up to `d`. */
    ghost predicate Pending(mask: u128, d: int)
      reads this
    {
      forall i: nat :: PendingAt(mask, d, i)
    }

    ghost predicate PendingAt(mask: u128, d: int, i: nat)
      reads this
    {
      Bit(mask, i) <==> Bit(wildcardDepths, i) && |origin| <= i <= d
    }

    /** The walk from `start`, given what the mask has not yet visited. */
    ghost predicate WalkSoFar(name: Name, t: RType, d: int, covered: bool)
      reads this
      requires d < |name| || name == []
    {
      var rest := WalkFrom(View(), name, t, d);
      WalkFrom(View(), name, t, WindowStart(name)) == (rest.0, rest.1 || covered)
    }

    lemma SkipTo(name: Name, t: RType, mask: u128, d: int, e: int, covered: bool)
      requires DepthsCover(View()) && e <= d <= WindowStart(name)
      requires Pending(mask, d) && WalkSoFar(name, t, d, covered)
      requires forall i: nat | i > e :: !Bit(mask, i)
      ensures WalkSoFar(name, t, e, covered)
    {
      forall k: nat | e < k <= d && k >= |origin| ensures !Bit(wildcardDepths, k) {
        assert PendingAt(mask, d, k) && !Bit(mask, k);
      }
      WalkSkipsClearBits(View(), name, t, d, e);
    }

    lemma WalkStep(name: Name, t: RType, depth: nat, covered: bool)
      requires |origin| <= depth <= WindowStart(name) && WalkSoFar(name, t, depth, covered)
      ensures var p := TrimTo(name, depth);
              if p in wildcardParents && (p, t) in wildcard
              then WalkFrom(View(), name, t, WindowStart(name)) == (Some(wildcard[(p, t)]), true)
              else WalkSoFar(name, t, depth - 1, covered || p in wildcardParents)
    {
    }

    method InitialMask(name: Name) returns (mask: u128)
      ensures Pending(mask, WindowStart(name))
    {
      var window := WildcardWindow(name);
      mask := BitAnd(wildcardDepths, window);
      forall i: nat ensures PendingAt(mask, WindowStart(name), i) {
        BitOfAnd(wildcardDepths, window, i);
      }
    }

    /** The next depth to probe: everything between `d` and it is skipped, and it leaves the mask. */
    method NextDepth(name: Name, t: RType, mask: u128, ghost d: int, covered: bool) returns (depth: nat, rest: u128)
      requires mask != 0 && DepthsCover(View()) && -1 <= d <= WindowStart(name)
      requires Pending(mask, d) && WalkSoFar(name, t, d, covered)
      ensures |origin| <= depth <= d && Pending(rest, depth - 1) && WalkSoFar(name, t, depth, covered)
    {
      depth, rest := PopHighest(mask);
      assert PendingAt(mask, d, depth);
      SkipTo(name, t, mask, d, depth, covered);
      ghost var below: int := depth - 1;
      forall i: nat ensures PendingAt(rest, below, i) { assert PendingAt(mask, d, i); }
    }

    lemma WalkEnds(name: Name, t: RType, d: int, covered: bool)
      requires DepthsCover(View()) && -1 <= d <= WindowStart(name)
      requires Pending(0, d) && WalkSoFar(name, t, d, covered)
      ensures WalkFrom(View(), name, t, WindowStart(name)) == (None, covered)
    {
      forall i: nat ensures !Bit(0, i) { ZeroHasNoBits(i); }
      SkipTo(name, t, 0, d, -1, covered);
    }

    /** One probe of the walk: what it finds, or how the walk stands after it. */
    method ProbeDepth(name: Name, t: RType, depth: nat, covered: bool) returns (found: Option<seq<Record>>, covered': bool)
      requires |origin| <= depth <= WindowStart(name) && WalkSoFar(name, t, depth, covered)
      ensures found.Some? ==> WalkFrom(View(), name, t, WindowStart(name)) == (found, true)
      ensures found.None? ==> WalkSoFar(name, t, depth - 1, covered')
    {
      WalkStep(name, t, depth, covered);
      var parent := TrimTo(name, depth);
      if parent !in wildcardParents { return None, covered; }
      if (parent, t) in wildcard { return Some(wildcard[(parent, t)]), true; }
      return None, true;
    }

    /** The bitmap walk finds what a walk over every depth in the window finds. */
    method ProbeDeepestWins(name: Name, t: RType) returns (records: Option<seq<Record>>, covered: bool)
      requires DepthsCover(View())
      ensures (records, covered) == WalkFrom(View(), name, t, WindowStart(name))
    {
      var mask := InitialMask(name);
      covered := false;
      ghost var left: nat := WindowStart(name) + 1;
      while mask != 0
        invariant left <= WindowStart(name) + 1 && Pending(mask, left - 1) && WalkSoFar(name, t, left - 1, covered)
        decreases left
      {
        var depth, rest := NextDepth(name, t, mask, left - 1, covered);
        mask, left := rest, depth;
        records, covered := ProbeDepth(name, t, depth, covered);
        if records.Some? { return records, true; }
      }
      WalkEnds(name, t, left - 1, covered);
      return None, covered;
    }

    method ReadNodeNames() returns (nodes: set<Name>)
      ensures nodes == NodeNames(View())
    {
      nodes := names;
      var todo := wildcardParents;
      assert wildcardParents - todo == {};
      assert Stars({}) == {};
      while todo != {}
        invariant todo <= wildcardParents && nodes == names + Stars(wildcardParents - todo)
      {
        var parent :| parent in todo;
        StarsGrow(wildcardParents - todo, parent);
        assert wildcardParents - (todo - {parent}) == wildcardParents - todo + {parent};
        todo := todo - {parent};
        if HasStar(parent) { nodes := nodes + {StarOf(parent)}; }
      }
      assert wildcardParents - {} == wildcardParents;
    }

    /** Counts down one label at a time and stops at the first hit. */
    method FindEncloser(name: Name, nodes: set<Name>) returns (ce: Option<Name>)
      ensures ce == Encloser(origin, nodes, name)
    {
      if |name| <= |origin| { return None; }
      var d := |name|;
      while d > |origin|
        invariant |origin| <= d <= |name|
        invariant EncloserFrom(origin, nodes, name, |name| - 1) == EncloserFrom(origin, nodes, name, d - 1)
      {
        d := d - 1;
        var ancestor := TrimTo(name, d);
        if ancestor in nodes { return Some(ancestor); }
      }
      return None;
    }

    method ProbeClosestEncloser(name: Name, t: RType) returns (records: Option<seq<Record>>, covered: bool)
      ensures (records, covered) == EncloserProbe(View(), name, t)
    {
      var nodes := ReadNodeNames();
      var ce := FindEncloser(name, nodes);
      if ce.None? { return None, false; }
      if ce.value !in wildcardParents { return None, false; }
      return if (ce.value, t) in wildcard then Some(wildcard[(ce.value, t)]) else None, true;
    }

    method WildcardProbe(name: Name, t: RType) returns (records: Option<seq<Record>>, covered: bool)
      requires DepthsCover(View())
      ensures (records, covered) == Probe(View(), rule, name, t)
    {
      match rule
      case DeepestWins => records, covered := ProbeDeepestWins(name, t);
      case ClosestEncloser => records, covered := ProbeClosestEncloser(name, t);
    }

    method ExistsAt(name: Name) returns (found: bool)
      requires DepthsCover(View())
      ensures found == Exists(View(), rule, name)
    {
      if name in names { return true; }
      var _, covered := WildcardProbe(name, Any);
      return covered;
    }

    /** The arms of the lookup that chase nothing. */
    method AnswerDirectly(name: Name, t: RType, out: seq<Record>) returns (outcome: Answer, out': seq<Record>)
      requires DepthsCover(View()) && !IsAlias(View(), name, t)
      ensures outcome == Direct(View(), rule, name, t) && out' == out + RecordsOf(outcome)
    {
      out' := out;
      if !InZone(origin, name) { return NxDomain, out; }
      if t == Any {
        var found := ExistsAt(name);
        return if found then NoData else NxDomain, out;
      }
      if (name, t) in exact { return Records(exact[(name, t)]), out + exact[(name, t)]; }
      if name in names { return NoData, out; }
      var records, covered := WildcardProbe(name, t);
      if records.Some? {
        var owned := Reown(name, records.value);
        return Records(owned), out + owned;
      }
      return if covered then NoData else NxDomain, out;
    }

    /** Appends to the caller's list, and says how the search ended. */
    method ResolveInto(name: Name, t: RType, depth: nat, out: seq<Record>) returns (outcome: Answer, out': seq<Record>)
      requires DepthsCover(View())
      ensures outcome == Resolve(View(), rule, name, t, depth) && out' == out + RecordsOf(outcome)
      decreases if depth < MAX_CNAME_DEPTH then MAX_CNAME_DEPTH - depth else 0
    {
      if !IsAlias(View(), name, t) {
        outcome, out' := AnswerDirectly(name, t, out);
        return;
      }
      var cnames := exact[(name, Cname)];
      out' := out + cnames;
      if depth >= MAX_CNAME_DEPTH { return Records(cnames), out'; }
      var target := ChaseTarget(View(), name);
      if target.None? { return Records(cnames), out'; }
      var tail;
      tail, out' := ResolveInto(target.value, t, depth + 1, out');
      outcome := Records(cnames + RecordsOf(tail));
      assert out' == out + (cnames + RecordsOf(tail));
    }

    method LookupAnswer(name: Name, t: RType) returns (answer: Answer)
      requires DepthsCover(View())
      ensures answer == Lookup(View(), rule, name, t)
    {
      var out;
      answer, out := ResolveInto(name, t, 0, []);
    }
  }

  /** The wildcard at the ancestor of `d` labels holds the type. */
  predicate TypedAt(z: ZoneData, n: Name, t: RType, d: nat) {
    var p := TrimTo(n, d);
    p in z.parents && (p, t) in z.wildcard
  }

  ghost predicate DeepestTyped(z: ZoneData, n: Name, t: RType, d: int, found: Option<seq<Record>>) {
    match found
    case None => forall e: nat | |z.origin| <= e <= d :: !TypedAt(z, n, t, e)
    case Some(records) =>
      exists e: nat | |z.origin| <= e <= d ::
        TypedAt(z, n, t, e) && records == z.wildcard[(TrimTo(n, e), t)] && forall k: nat | e < k <= d :: !TypedAt(z, n, t, k)
  }

  predicate ParentAt(z: ZoneData, n: Name, d: nat) {
    TrimTo(n, d) in z.parents
  }

  ghost predicate SomeParent(z: ZoneData, n: Name, d: int) {
    exists e: nat | |z.origin| <= e <= d :: ParentAt(z, n, e)
  }

  lemma UntypedAbove(z: ZoneData, n: Name, t: RType, d: nat, found: Option<seq<Record>>)
    requires |z.origin| <= d && DeepestTyped(z, n, t, d - 1, found) && !TypedAt(z, n, t, d)
    ensures DeepestTyped(z, n, t, d, found)
  {
    if found.Some? {
      var e: nat :| |z.origin| <= e <= d - 1 && TypedAt(z, n, t, e) && found.value == z.wildcard[(TrimTo(n, e), t)]
                    && forall k: nat | e < k <= d - 1 :: !TypedAt(z, n, t, k);
      assert forall k: nat | e < k <= d :: !TypedAt(z, n, t, k);
    }
  }

  lemma OneMoreParent(z: ZoneData, n: Name, d: nat)
    requires |z.origin| <= d
    ensures SomeParent(z, n, d) <==> SomeParent(z, n, d - 1) || ParentAt(z, n, d)
  {
    if SomeParent(z, n, d - 1) {
      var e: nat :| |z.origin| <= e <= d - 1 && ParentAt(z, n, e);
    }
  }

  lemma TypedHere(z: ZoneData, n: Name, t: RType, d: nat)
    requires |z.origin| <= d && TypedAt(z, n, t, d)
    ensures DeepestTyped(z, n, t, d, Some(z.wildcard[(TrimTo(n, d), t)]))
  {
    ghost var e: nat := d;
    assert TypedAt(z, n, t, e);
  }

  /** One label of the walk, given what it finds below. */
  lemma WalkOneMore(z: ZoneData, n: Name, t: RType, d: nat)
    requires |z.origin| <= d && (d < |n| || n == [])
    requires DeepestTyped(z, n, t, d - 1, WalkFrom(z, n, t, d - 1).0)
    ensures DeepestTyped(z, n, t, d, WalkFrom(z, n, t, d).0)
  {
    if TypedAt(z, n, t, d) {
      TypedHere(z, n, t, d);
    } else {
      UntypedAbove(z, n, t, d, WalkFrom(z, n, t, d - 1).0);
    }
  }

  lemma {:induction false} WalkFindsDeepest(z: ZoneData, n: Name, t: RType, d: int)
    requires d < |n| || n == []
    ensures DeepestTyped(z, n, t, d, WalkFrom(z, n, t, d).0)
    decreases d
  {
    if d >= |z.origin| {
      WalkFindsDeepest(z, n, t, d - 1);
      WalkOneMore(z, n, t, d);
    }
  }

  lemma {:induction false} WalkIsCovered(z: ZoneData, n: Name, t: RType, d: int)
    requires d < |n| || n == []
    ensures WalkFrom(z, n, t, d).1 <==> SomeParent(z, n, d)
    decreases d
  {
    if d >= |z.origin| {
      WalkIsCovered(z, n, t, d - 1);
      OneMoreParent(z, n, d);
    }
  }

  /** What a walk means: the records of the deepest wildcard above that holds the type, and whether any wildcard is above. */
  lemma WalkIsDeepestTyped(z: ZoneData, n: Name, t: RType, d: int)
    requires d < |n| || n == []
    ensures DeepestTyped(z, n, t, d, WalkFrom(z, n, t, d).0)
    ensures WalkFrom(z, n, t, d).1 <==> SomeParent(z, n, d)
  {
    WalkFindsDeepest(z, n, t, d);
    WalkIsCovered(z, n, t, d);
  }

  /** The bitmap window and the walk over proper ancestors part only at the root of a root zone with a wildcard there. */
  lemma WindowIsNaiveWalk(z: ZoneData, n: Name, t: RType)
    requires WellFormed(z)
    ensures WalkFrom(z, n, t, WindowStart(n)) == NaiveWalk(z, n, t)
       <==> !(n == [] && z.origin == [] && [] in z.parents)
  {
  }
}
