/** The two wildcard rules over one closed node set: exactly where they differ, and in which direction. */
module ZoneWildcard {
  import opened Names
  import opened ZoneModel
  import opened ZoneClosure

  // ------------------------------------------------------- the config's view

  /** The zone as the operator's config describes it; nothing here is read off a built zone. */
  datatype ConfigModel = ConfigModel(origin: Name, nodes: set<Name>, parents: set<Name>, types: set<Key>)

  function SpecType(origin: Name, spec: RecordSpec): set<Key> {
    var node := SpecNode(origin, spec);
    if node.Some? && IsWildcardName(node.value) && spec.rtype.Some? && spec.values != []
    then {(BaseName(node.value), spec.rtype.value)} else {}
  }

  function WildcardTypes(origin: Name, specs: seq<RecordSpec>): set<Key> {
    if specs == [] then {}
    else WildcardTypes(origin, specs[..|specs| - 1]) + SpecType(origin, specs[|specs| - 1])
  }

  function ModelOf(cfg: ZoneConfig): ConfigModel {
    var nodes := Declared(cfg) + Closure(cfg.origin, Declared(cfg));
    ConfigModel(cfg.origin, nodes, set n | n in nodes && IsWildcardName(n) :: BaseName(n),
                WildcardTypes(cfg.origin, cfg.records))
  }

  /** Every proper ancestor of `n` that is a wildcard's parent, deepest first, from depth `d` down. */
  function WildcardAncestorsFrom(m: ConfigModel, n: Name, d: int): seq<Name>
    decreases d
  {
    if d < |m.origin| then []
    else (if TrimTo(n, d) in m.parents then [TrimTo(n, d)] else []) + WildcardAncestorsFrom(m, n, d - 1)
  }

  function WildcardAncestors(m: ConfigModel, n: Name): seq<Name> {
    WildcardAncestorsFrom(m, n, |n| - 1)
  }

  function FirstTyped(m: ConfigModel, ps: seq<Name>, t: RType): Option<Name> {
    if ps == [] then None else if (ps[0], t) in m.types then Some(ps[0]) else FirstTyped(m, ps[1..], t)
  }

  ghost function ModelEncloser(m: ConfigModel, n: Name): Option<Name> {
    Encloser(m.origin, m.nodes, n)
  }

  ghost predicate CoverageNarrowedAt(m: ConfigModel, n: Name, ce: Name) {
    ce !in m.parents && WildcardAncestors(m, n) != []
  }

  ghost predicate CoverageNarrowed(m: ConfigModel, n: Name) {
    n !in m.nodes && ModelEncloser(m, n).Some? && CoverageNarrowedAt(m, n, ModelEncloser(m, n).value)
  }

  /** The classifier's predicate: the answer came from a wildcard other than `*.<closest encloser>`, or coverage did. */
  ghost predicate SynthesisMoved(m: ConfigModel, n: Name, t: RType) {
    && n !in m.nodes
    && ModelEncloser(m, n).Some?
    && var ce, typed := ModelEncloser(m, n).value, FirstTyped(m, WildcardAncestors(m, n), t);
       (typed.Some? && typed.value != ce) || CoverageNarrowedAt(m, n, ce)
  }

  /** What a name with no synthesised answer resolves to; none when there is a record to synthesise. */
  ghost function RfcNegative(m: ConfigModel, n: Name, t: RType): Option<Answer> {
    match ModelEncloser(m, n)
    case None => None
    case Some(ce) =>
      if ce !in m.parents then Some(NxDomain)
      else if (ce, t) in m.types then None
      else Some(NoData)
  }

  // -------------------------------------------- the config's view is the zone

  /** The model and a zone hold the same nodes, and the same wildcards wherever a name could use them. */
  ghost predicate Agrees(m: ConfigModel, z: ZoneData) {
    && m.origin == z.origin && m.nodes == NodeNames(z)
    && (forall p: Name | |p| >= |m.origin| && HasStar(p) :: SameWildcard(m, z, p))
  }

  ghost predicate SameWildcard(m: ConfigModel, z: ZoneData, p: Name) {
    && (p in m.parents <==> p in z.parents)
    && (forall t: RType :: (p, t) in m.types <==> (p, t) in z.wildcard)
  }

  /** `*.<p>` is a node exactly when `p` is a wildcard's parent, at every depth from the origin down. */
  lemma StarIsNode(z: ZoneData, p: Name)
    requires WellFormed(z) && |p| >= |z.origin| && HasStar(p)
    ensures StarOf(p) in NodeNames(z) <==> p in z.parents
  {
    StarParts(p);
    StarsMember(z.parents, p);
  }

  lemma {:induction false} InsertAllTypes(origin: Name, specs: seq<RecordSpec>, defaultTtl: nat, p: Name, t: RType)
    requires InsertAll(EmptyZone(origin), specs, defaultTtl).Some? && |p| >= |origin| && HasStar(p)
    ensures InsertAll(EmptyZone(origin), specs, defaultTtl).value.origin == origin
    ensures (p, t) in WildcardTypes(origin, specs)
       <==> (p, t) in InsertAll(EmptyZone(origin), specs, defaultTtl).value.wildcard
  {
    if specs != [] {
      var init, spec := specs[..|specs| - 1], specs[|specs| - 1];
      InsertAllTypes(origin, init, defaultTtl, p, t);
      SpecTypeIsInserted(origin, spec, defaultTtl, p, t);
    }
  }

  lemma SpecTypeIsInserted(origin: Name, spec: RecordSpec, defaultTtl: nat, p: Name, t: RType)
    requires ParseSpec(origin, spec, defaultTtl).Some? && |p| >= |origin| && HasStar(p)
    ensures (p, t) in SpecType(origin, spec)
       <==> IsWildcardSpec(spec) && ParseSpec(origin, spec, defaultTtl).value.0 == (p, t)
  {
    var owner := Qualify(origin, OwnerLabel(spec)).value;
    if IsWildcardSpec(spec) {
      if HasStar(owner) { StarParts(owner); }
    } else if IsWildcardName(owner) {
      OnlyTheOriginIsStarred(origin, spec);
    }
  }

  lemma ModelAgrees(cfg: ZoneConfig, ents: seq<Name>)
    requires Build(cfg).Some? && ListsClosure(cfg, ents)
    ensures Agrees(ModelOf(cfg), Materialise(Build(cfg).value, ents))
  {
    var m, z := ModelOf(cfg), Materialise(Build(cfg).value, ents);
    ClosedZone(cfg, ents);
    forall p: Name | |p| >= |m.origin| && HasStar(p) ensures SameWildcard(m, z, p) {
      StarIsNode(z, p);
      StarParts(p);
      if p in m.parents {
        var n :| n in m.nodes && IsWildcardName(n) && BaseName(n) == p;
        WildcardIsStarOfBase(n);
      }
      forall t: RType ensures (p, t) in m.types <==> (p, t) in z.wildcard {
        InsertAllTypes(cfg.origin, cfg.records, cfg.defaultTtl, p, t);
      }
    }
  }

  // ----------------------------------------------------- the walk, summarised

  function SetAt(z: ZoneData, p: Option<Name>, t: RType): Option<seq<Record>> {
    if p.Some? && (p.value, t) in z.wildcard then Some(z.wildcard[(p.value, t)]) else None
  }

  ghost predicate WalkReads(m: ConfigModel, z: ZoneData, n: Name, t: RType, d: int)
    requires d < |n|
  {
    var ps, walk := WildcardAncestorsFrom(m, n, d), WalkFrom(z, n, t, d);
    && (walk.1 <==> ps != [])
    && walk.0 == SetAt(z, FirstTyped(m, ps, t), t)
    && (walk.0.None? <==> FirstTyped(m, ps, t).None?)
  }

  /** The walk's two results, read off the list of wildcard ancestors. */
  lemma {:induction false} WalkIsFirstTyped(m: ConfigModel, z: ZoneData, n: Name, t: RType, d: int)
    requires TypedAtParents(z) && Agrees(m, z) && d < |n|
    ensures WalkReads(m, z, n, t, d)
    decreases d
  {
    if d >= |z.origin| {
      WalkIsFirstTyped(m, z, n, t, d - 1);
      ProperAncestorHasStar(n, d);
      assert SameWildcard(m, z, TrimTo(n, d));
      WalkReadsOneMore(m, z, n, t, d);
    }
  }

  lemma WalkReadsOneMore(m: ConfigModel, z: ZoneData, n: Name, t: RType, d: nat)
    requires m.origin == z.origin && TypedAtParents(z) && |z.origin| <= d < |n|
    requires WalkReads(m, z, n, t, d - 1) && SameWildcard(m, z, TrimTo(n, d))
    ensures WalkReads(m, z, n, t, d)
  {
    var p, rest := TrimTo(n, d), WildcardAncestorsFrom(m, n, d - 1);
    if p in m.parents {
      assert WildcardAncestorsFrom(m, n, d) == [p] + rest;
      assert ([p] + rest)[1..] == rest;
    } else {
      assert WildcardAncestorsFrom(m, n, d) == rest;
    }
  }

  predicate CoveredFrom(z: ZoneData, n: Name, d: int)
    decreases d
  {
    d >= |z.origin| && (TrimTo(n, d) in z.parents || CoveredFrom(z, n, d - 1))
  }

  /** Coverage is a fact about the name, whatever the type. */
  lemma {:induction false} WalkCoverage(z: ZoneData, n: Name, t: RType, d: int)
    requires TypedAtParents(z) && (d < |n| || n == [])
    ensures WalkFrom(z, n, t, d).1 <==> CoveredFrom(z, n, d)
    decreases d
  {
    if d >= |z.origin| { WalkCoverage(z, n, t, d - 1); }
  }

  lemma {:induction false} WalkSkips(z: ZoneData, n: Name, t: RType, d: int, e: int)
    requires e <= d < |n|
    requires forall k: nat | e < k <= d && k >= |z.origin| :: TrimTo(n, k) !in z.parents
    ensures WalkFrom(z, n, t, d) == WalkFrom(z, n, t, e)
    decreases d
  {
    if e < d && d >= |z.origin| { WalkSkips(z, n, t, d - 1, e); }
  }

  /** No wildcard parent above a name can be deeper than its closest encloser. */
  lemma NoParentBelowEncloser(z: ZoneData, n: Name, d: nat)
    requires WellFormed(z) && Closed(z.origin, NodeNames(z)) && |z.origin| <= d < |n|
    requires Encloser(z.origin, NodeNames(z), n).Some?
    requires TrimTo(n, d) in z.parents
    ensures d <= |Encloser(z.origin, NodeNames(z), n).value|
  {
    var p := TrimTo(n, d);
    ProperAncestorHasStar(n, d);
    StarIsNode(z, p);
    StarParts(p);
    assert p in NodeNames(z);
  }

  ghost predicate ClosedZoneData(z: ZoneData) {
    WellFormed(z) && z.origin in z.names && Closed(z.origin, NodeNames(z))
  }

  lemma EncloserOf(z: ZoneData, n: Name)
    requires ClosedZoneData(z) && InZone(z.origin, n) && n != z.origin
    ensures |n| > |z.origin| && Encloser(z.origin, NodeNames(z), n).Some?
  {
    assert TrimTo(n, |z.origin|) in NodeNames(z);
  }

  lemma NoParentsBelowEncloser(z: ZoneData, n: Name)
    requires ClosedZoneData(z) && InZone(z.origin, n) && n != z.origin
    ensures |n| > |z.origin| && Encloser(z.origin, NodeNames(z), n).Some?
    ensures forall k: nat | |Encloser(z.origin, NodeNames(z), n).value| < k < |n| :: TrimTo(n, k) !in z.parents
  {
    EncloserOf(z, n);
    var ce := Encloser(z.origin, NodeNames(z), n).value;
    forall k: nat | |ce| < k < |n| ensures TrimTo(n, k) !in z.parents {
      if TrimTo(n, k) in z.parents { NoParentBelowEncloser(z, n, k); }
    }
  }

  /** The walk starts, in effect, at the closest encloser. */
  lemma WalkFromEncloser(z: ZoneData, n: Name, t: RType)
    requires ClosedZoneData(z) && InZone(z.origin, n) && n != z.origin
    ensures |n| > |z.origin| && Encloser(z.origin, NodeNames(z), n).Some?
    ensures NaiveWalk(z, n, t) == WalkFrom(z, n, t, |Encloser(z.origin, NodeNames(z), n).value|)
  {
    NoParentsBelowEncloser(z, n);
    WalkSkips(z, n, t, |n| - 1, |Encloser(z.origin, NodeNames(z), n).value|);
  }

  // -------------------------------------------------- the two rules, compared

  /** The closest-encloser probe never finds what the walk does not, and agrees with it when it finds anything. */
  lemma ProbeNarrows(z: ZoneData, n: Name, t: RType)
    requires ClosedZoneData(z) && InZone(z.origin, n) && n !in z.names
    ensures EncloserProbe(z, n, t).0.Some? ==> Probe(z, DeepestWins, n, t) == EncloserProbe(z, n, t)
    ensures EncloserProbe(z, n, t).1 ==> Probe(z, DeepestWins, n, t).1
  {
    WalkFromEncloser(z, n, t);
  }

  lemma ModelParentIsParent(m: ConfigModel, z: ZoneData, n: Name, k: nat)
    requires Agrees(m, z) && |m.origin| <= k < |n|
    ensures SameWildcard(m, z, TrimTo(n, k))
    ensures TrimTo(n, k) in m.parents <==> TrimTo(n, k) in z.parents
  {
    ProperAncestorHasStar(n, k);
  }

  /** No name of more than `e` labels and at most `d`, at or above `n`, is a wildcard parent. */
  ghost predicate NoneOf(parents: set<Name>, n: Name, e: int, d: int) {
    forall k: nat | e < k <= d :: TrimTo(n, k) !in parents
  }

  lemma NoneOfTheModel(m: ConfigModel, z: ZoneData, n: Name, e: nat, d: int)
    requires Agrees(m, z) && |m.origin| <= e && d < |n| && NoneOf(z.parents, n, e, d)
    ensures NoneOf(m.parents, n, e, d)
  {
    forall k: nat | e < k <= d ensures TrimTo(n, k) !in m.parents { ModelParentIsParent(m, z, n, k); }
  }

  lemma {:induction false} AncestorsSkip(m: ConfigModel, n: Name, d: int, e: int)
    requires e <= d < |n| && NoneOf(m.parents, n, e, d)
    ensures WildcardAncestorsFrom(m, n, d) == WildcardAncestorsFrom(m, n, e)
    decreases d
  {
    if e < d && d >= |m.origin| { AncestorsSkip(m, n, d - 1, e); }
  }

  lemma AncestorsFromEncloser(m: ConfigModel, z: ZoneData, n: Name)
    requires ClosedZoneData(z) && Agrees(m, z) && InZone(z.origin, n) && n != z.origin
    ensures |n| > |z.origin| && Encloser(z.origin, NodeNames(z), n).Some?
    ensures var ce := Encloser(z.origin, NodeNames(z), n).value;
            SameWildcard(m, z, ce) && WildcardAncestors(m, n) == WildcardAncestorsFrom(m, n, |ce|)
  {
    NoParentsBelowEncloser(z, n);
    var ce := Encloser(z.origin, NodeNames(z), n).value;
    ModelParentIsParent(m, z, n, |ce|);
    NoneOfTheModel(m, z, n, |ce|, |n| - 1);
    AncestorsSkip(m, n, |n| - 1, |ce|);
  }

  /** Off the node set, the two probes differ exactly where `SynthesisMoved` says. */
  lemma ProbesDifferIffSynthesisMoved(m: ConfigModel, z: ZoneData, n: Name, t: RType)
    requires ClosedZoneData(z) && Agrees(m, z) && InZone(z.origin, n) && n !in NodeNames(z)
    ensures Probe(z, DeepestWins, n, t) != Probe(z, ClosestEncloser, n, t) <==> SynthesisMoved(m, n, t)
  {
    WalkFromEncloser(z, n, t);
    AncestorsFromEncloser(m, z, n);
    var ce := Encloser(z.origin, NodeNames(z), n).value;
    WalkIsFirstTyped(m, z, n, t, |ce|);
    ReadingsDiffer(m, z, n, t, ce);
  }

  lemma ReadingsDiffer(m: ConfigModel, z: ZoneData, n: Name, t: RType, ce: Name)
    requires m.origin == z.origin && |z.origin| <= |ce| < |n| && TrimTo(n, |ce|) == ce && SameWildcard(m, z, ce)
    requires WalkReads(m, z, n, t, |ce|)
    ensures var ps := WildcardAncestorsFrom(m, n, |ce|);
            var typed := FirstTyped(m, ps, t);
            WalkFrom(z, n, t, |ce|) != ProbeAt(z, ce, t) <==>
            ((typed.Some? && typed.value != ce) || (ce !in m.parents && ps != []))
  {
    if ce in m.parents {
      assert WildcardAncestorsFrom(m, n, |ce|)[0] == ce;
    }
  }

  function Rank(a: Answer): nat {
    match a case Records(_) => 2 case NoData => 1 case NxDomain => 0
  }

  lemma DirectNarrows(z: ZoneData, n: Name, t: RType)
    requires ClosedZoneData(z) && !IsAlias(z, n, t)
    ensures Rank(Direct(z, ClosestEncloser, n, t)) <= Rank(Direct(z, DeepestWins, n, t))
    ensures Direct(z, ClosestEncloser, n, t).Records? ==>
      Direct(z, ClosestEncloser, n, t) == Direct(z, DeepestWins, n, t)
  {
    if InZone(z.origin, n) && n !in z.names { ProbeNarrows(z, n, t); }
  }

  /** The rule change only narrows: down Records, NoData, NxDomain, and to a prefix of the old records. */
  lemma LookupNarrows(z: ZoneData, n: Name, t: RType)
    requires ClosedZoneData(z)
    ensures var old_, new_ := Lookup(z, DeepestWins, n, t), Lookup(z, ClosestEncloser, n, t);
            Rank(new_) <= Rank(old_) && RecordsOf(new_) <= RecordsOf(old_)
  {
    if IsAlias(z, n, t) {
      ChaseFactors(z, DeepestWins, n, t, 0);
      ChaseFactors(z, ClosestEncloser, n, t, 0);
      var stop := ChaseStop(z, n, t, 0);
      if stop.Some? { DirectNarrows(z, stop.value, t); }
    } else {
      DirectNarrows(z, n, t);
    }
  }

  lemma ProbeCoverage(z: ZoneData, rule: Rule, n: Name, t: RType)
    requires TypedAtParents(z)
    ensures Probe(z, rule, n, t).1 <==> Probe(z, rule, n, Any).1
  {
    if rule == DeepestWins {
      WalkCoverage(z, n, t, WindowStart(n));
      WalkCoverage(z, n, Any, WindowStart(n));
    }
  }

  /** The name error is a function of the name alone: whatever the type, and under either rule. */
  lemma NameErrorIffAbsent(z: ZoneData, rule: Rule, n: Name, t: RType)
    requires WellFormed(z) && InZone(z.origin, n)
    ensures Lookup(z, rule, n, t) == NxDomain <==> !Exists(z, rule, n)
  {
    ProbeCoverage(z, rule, n, t);
  }
}
