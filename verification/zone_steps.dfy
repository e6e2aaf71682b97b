/** Every answer either step changes, classified from the config: exactly which changes the classifiers name. */
module ZoneSteps {
  import opened Names
  import opened ZoneModel
  import opened ZoneClosure
  import opened ZoneWildcard

  // ---------------------------------------------- ancestor closure: T1, T2, T3

  datatype Transition = EmptyNonTerminalExists | CoveredByAWildcardEmptyNonTerminal | ChaseStopsAtAnEmptyNonTerminal

  /** A wildcard that is one of `ents` sits above `n`, no shallower than the origin. */
  ghost predicate CoveredByEnt(ents: set<Name>, originDepth: nat, n: Name) {
    exists d :: originDepth <= d < |n| && HasStar(TrimTo(n, d)) && StarOf(TrimTo(n, d)) in ents
  }

  /** `after` is a strict prefix of `before` that ends on an alias. */
  predicate TruncatedAtAlias(before: Answer, after: Answer) {
    && before.Records? && after.Records?
    && |after.records| < |before.records| && after.records <= before.records
    && after.records != [] && Last(after.records).data.Alias?
  }

  ghost function Classify(ents: set<Name>, originDepth: nat, n: Name, before: Answer, after: Answer)
    : Option<Transition>
  {
    if before == after then None
    else if n in ents then (if after == NoData then Some(EmptyNonTerminalExists) else None)
    else if before == NxDomain && after == NoData && CoveredByEnt(ents, originDepth, n)
    then Some(CoveredByAWildcardEmptyNonTerminal)
    else if TruncatedAtAlias(before, after) && Last(after.records).data.target in ents
    then Some(ChaseStopsAtAnEmptyNonTerminal)
    else None
  }

  /** The name the classifiers read off the last record of a truncated answer. */
  function LastTarget(z: ZoneData, n: Name, t: RType): (r: Name)
    requires IsAlias(z, n, t)
  {
    var cnames := z.exact[(ChaseEnd(z, n, t, 0).0, Cname)];
    if cnames != [] && Last(cnames).data.Alias? then Last(cnames).data.target else n
  }

  /** Same ordinary records, same origin: the chase is the same. */
  lemma {:induction false} SameChase(a: ZoneData, b: ZoneData, n: Name, t: RType, depth: nat)
    requires a.origin == b.origin && a.exact == b.exact && IsAlias(a, n, t)
    ensures IsAlias(b, n, t)
    ensures ChaseRecords(a, n, t, depth) == ChaseRecords(b, n, t, depth)
    ensures ChaseEnd(a, n, t, depth) == ChaseEnd(b, n, t, depth)
    decreases MAX_CNAME_DEPTH - depth
  {
    if Continues(a, n, t, depth) { SameChase(a, b, ChaseTarget(a, n).value, t, depth + 1); }
  }

  /** `a` is `b` with `ents` materialised. */
  ghost predicate ClosureOf(b: ZoneData, a: ZoneData, ents: set<Name>) {
    && WellFormed(b) && WellFormed(a) && b.origin in b.names
    && a.origin == b.origin && a.exact == b.exact && a.wildcard == b.wildcard
    && b.names <= a.names <= b.names + ents && b.parents <= a.parents
    && NodeNames(a) == NodeNames(b) + ents && ents !! NodeNames(b)
    && Closed(a.origin, NodeNames(a))
  }

  lemma ClosureOfBuild(cfg: ZoneConfig, ents: seq<Name>)
    requires Build(cfg).Some? && ListsClosure(cfg, ents)
    ensures ClosureOf(Build(cfg).value, Materialise(Build(cfg).value, ents), Closure(cfg.origin, Declared(cfg)))
  {
    BuildWellFormed(cfg);
    BuildNodes(cfg);
    ClosedZone(cfg, ents);
    MaterialiseFrame(Build(cfg).value, ents);
  }

  /** A parent the closure adds comes from an empty non-terminal that is a wildcard. */
  lemma NewParentIsEnt(b: ZoneData, a: ZoneData, ents: set<Name>, p: Name)
    requires ClosureOf(b, a, ents) && p in a.parents && p !in b.parents && HasStar(p)
    ensures StarOf(p) in ents
  {
    StarsMember(a.parents, p);
    StarIsNode(b, p);
  }

  /** Closing the node set finds no new records, and covers a new name only by a wildcard it adds. */
  lemma {:induction false} WalkAfterClosure(b: ZoneData, a: ZoneData, ents: set<Name>, n: Name, t: RType, d: int)
    requires ClosureOf(b, a, ents) && d < |n|
    ensures WalkFrom(a, n, t, d).0 == WalkFrom(b, n, t, d).0
    ensures WalkFrom(b, n, t, d).1 ==> WalkFrom(a, n, t, d).1
    ensures WalkFrom(a, n, t, d).1 && !WalkFrom(b, n, t, d).1 ==> CoveredByEnt(ents, |a.origin|, n)
    decreases d
  {
    if d >= |a.origin| {
      WalkAfterClosure(b, a, ents, n, t, d - 1);
      var p := TrimTo(n, d);
      ProperAncestorHasStar(n, d);
      if p in a.parents && p !in b.parents { NewParentIsEnt(b, a, ents, p); }
    }
  }

  /** What the closure does to an answer that involves no chase. */
  ghost predicate DirectStep(ents: set<Name>, originDepth: nat, n: Name, before: Answer, after: Answer) {
    || before == after
    || (n in ents && after == NoData)
    || (before == NxDomain && after == NoData && CoveredByEnt(ents, originDepth, n))
  }

  lemma EntsAreNotDeclared(b: ZoneData, a: ZoneData, ents: set<Name>, n: Name, t: RType)
    requires ClosureOf(b, a, ents) && n in ents
    ensures n !in b.names && (n, t) !in b.exact
  {
  }

  lemma EntIsCovered(b: ZoneData, a: ZoneData, ents: set<Name>, n: Name, t: RType)
    requires ClosureOf(b, a, ents) && n in ents && n !in a.names
    ensures |n| > |a.origin| && WalkFrom(a, n, t, |n| - 1).1
  {
    var p :| p in a.parents && HasStar(p) && StarOf(p) == n;
    StarParts(p);
    assert BaseName(n) == TrimTo(n, |n| - 1);
  }

  /** What a name that does not exist answers, read off its probe. */
  function ProbeAnswer(n: Name, probe: (Option<seq<Record>>, bool)): Answer {
    if probe.0.Some? then Records(Reown(n, probe.0.value)) else if probe.1 then NoData else NxDomain
  }

  lemma AbsentAnswer(z: ZoneData, rule: Rule, n: Name, t: RType)
    requires WellFormed(z) && InZone(z.origin, n) && n !in z.names && !IsAlias(z, n, t)
    ensures Direct(z, rule, n, t) == ProbeAnswer(n, Probe(z, rule, n, t))
  {
    if t == Any && rule == DeepestWins { WalkFindsNoAny(z, n, WindowStart(n)); }
  }

  lemma {:induction false} WalkFindsNoAny(z: ZoneData, n: Name, d: int)
    requires TypedAtParents(z) && (d < |n| || n == [])
    ensures WalkFrom(z, n, Any, d).0.None?
    decreases d
  {
    if d >= |z.origin| { WalkFindsNoAny(z, n, d - 1); }
  }

  /** A name that exists in neither zone: the closure can only cover it. */
  lemma AbsentAfterClosure(b: ZoneData, a: ZoneData, ents: set<Name>, n: Name, t: RType)
    requires ClosureOf(b, a, ents) && !IsAlias(b, n, t) && InZone(b.origin, n) && n !in a.names
    ensures DirectStep(ents, |b.origin|, n, Direct(b, DeepestWins, n, t), Direct(a, DeepestWins, n, t))
  {
    AbsentAnswer(b, DeepestWins, n, t);
    AbsentAnswer(a, DeepestWins, n, t);
    WalkAfterClosure(b, a, ents, n, t, |n| - 1);
    if n in ents { EntIsCovered(b, a, ents, n, t); }
  }

  lemma DirectAfterClosure(b: ZoneData, a: ZoneData, ents: set<Name>, n: Name, t: RType)
    requires ClosureOf(b, a, ents) && !IsAlias(b, n, t)
    ensures DirectStep(ents, |b.origin|, n, Direct(b, DeepestWins, n, t), Direct(a, DeepestWins, n, t))
  {
    if InZone(b.origin, n) && n !in b.names {
      if n in a.names {
        EntsAreNotDeclared(b, a, ents, n, t);
      } else {
        AbsentAfterClosure(b, a, ents, n, t);
      }
    }
  }

  lemma Truncation(rs: seq<Record>, old_: seq<Record>, new_: seq<Record>)
    requires rs != [] && Last(rs).data.Alias? && (new_ == [] || new_ == old_)
    ensures rs + old_ != rs + new_ ==>
      TruncatedAtAlias(Records(rs + old_), Records(rs + new_)) && Last(rs + new_) == Last(rs) && old_ != new_
  {
    assert rs + [] == rs;
  }

  /** The two answers at an alias share their CNAMEs; where they differ, the new one stops there. */
  lemma AliasTruncated(b: ZoneData, ruleB: Rule, a: ZoneData, ruleA: Rule, n: Name, t: RType)
    requires NoEmptySets(b.exact) && IsAlias(b, n, t)
    requires forall r | r in b.exact[(ChaseEnd(b, n, t, 0).0, Cname)] :: r.data.Alias?
    requires SameChaseAs(b, a, n, t)
    requires ChaseTail(a, ruleA, n, t, 0) == [] || ChaseTail(a, ruleA, n, t, 0) == ChaseTail(b, ruleB, n, t, 0)
    ensures var before, after := Lookup(b, ruleB, n, t), Lookup(a, ruleA, n, t);
            before != after ==>
              && TruncatedAtAlias(before, after) && Last(after.records).data.target == LastTarget(b, n, t)
              && ChaseTail(b, ruleB, n, t, 0) != ChaseTail(a, ruleA, n, t, 0)
  {
    ChaseFactors(b, ruleB, n, t, 0);
    ChaseFactors(a, ruleA, n, t, 0);
    ChaseEndsOnAlias(b, n, t, 0);
    LastIsMember(b.exact[(ChaseEnd(b, n, t, 0).0, Cname)]);
    Truncation(ChaseRecords(b, n, t, 0), ChaseTail(b, ruleB, n, t, 0), ChaseTail(a, ruleA, n, t, 0));
  }

  lemma LastIsMember(rs: seq<Record>)
    requires rs != []
    ensures Last(rs) in rs
  {
  }

  ghost predicate SameChaseAs(b: ZoneData, a: ZoneData, n: Name, t: RType)
    requires IsAlias(b, n, t)
  {
    IsAlias(a, n, t) && ChaseRecords(a, n, t, 0) == ChaseRecords(b, n, t, 0) && ChaseStop(a, n, t, 0) == ChaseStop(b, n, t, 0)
  }

  /** With one CNAME at its end, a chase stops at the target the classifiers read. */
  lemma SingleCnameTarget(z: ZoneData, n: Name, t: RType)
    requires IsAlias(z, n, t) && |z.exact[(ChaseEnd(z, n, t, 0).0, Cname)]| == 1
    requires ChaseStop(z, n, t, 0).Some?
    ensures LastTarget(z, n, t) == ChaseStop(z, n, t, 0).value
  {
  }

  lemma AliasAfterClosure(b: ZoneData, a: ZoneData, ents: set<Name>, n: Name, t: RType)
    requires ClosureOf(b, a, ents) && IsAlias(b, n, t)
    ensures var before, after := Lookup(b, DeepestWins, n, t), Lookup(a, DeepestWins, n, t);
            before != after ==>
              && n !in ents && TruncatedAtAlias(before, after)
              && Last(after.records).data.target == LastTarget(b, n, t)
              && ChaseStop(b, n, t, 0).Some? && ChaseStop(b, n, t, 0).value in ents
  {
    SameChase(b, a, n, t, 0);
    var stop := ChaseStop(b, n, t, 0);
    if stop.Some? { DirectAfterClosure(b, a, ents, stop.value, t); }
    CnamesAreAliases(b, ChaseEnd(b, n, t, 0).0);
    AliasTruncated(b, DeepestWins, a, DeepestWins, n, t);
  }

  lemma CnamesAreAliases(z: ZoneData, n: Name)
    requires WellFormed(z) && (n, Cname) in z.exact
    ensures forall r | r in z.exact[(n, Cname)] :: r.data.Alias?
  {
  }

  /** Which class a change is of, read off the name and the zone it was asked of. */
  ghost function ClosureClass(b: ZoneData, ents: set<Name>, n: Name, t: RType): Option<Transition> {
    if n in ents then Some(EmptyNonTerminalExists)
    else if !IsAlias(b, n, t) then Some(CoveredByAWildcardEmptyNonTerminal)
    else if LastTarget(b, n, t) in ents then Some(ChaseStopsAtAnEmptyNonTerminal)
    else None
  }

  /** Records were lost from the end, and the last that is left is a CNAME to `target`. */
  predicate CutShort(before: Answer, after: Answer, target: Name) {
    && before.Records? && after.Records? && 0 < |after.records| < |before.records|
    && after.records == before.records[..|after.records|] && after.records[|after.records| - 1].data == Alias(target)
  }

  /** And what the change is: a name that now exists, a name error taken back, or a chase cut short. */
  ghost predicate ClosureShape(b: ZoneData, ents: set<Name>, n: Name, t: RType, before: Answer, after: Answer) {
    if n in ents then after == NoData
    else if !IsAlias(b, n, t) then before == NxDomain && after == NoData && CoveredByEnt(ents, |b.origin|, n)
    else CutShort(before, after, LastTarget(b, n, t))
  }

  lemma ClosureStepIsOf(b: ZoneData, a: ZoneData, ents: set<Name>, n: Name, t: RType)
    requires ClosureOf(b, a, ents)
    ensures var before, after := Lookup(b, DeepestWins, n, t), Lookup(a, DeepestWins, n, t);
            before != after ==>
              && Classify(ents, |b.origin|, n, before, after) == ClosureClass(b, ents, n, t)
              && ClosureShape(b, ents, n, t, before, after)
  {
    if IsAlias(b, n, t) {
      AliasAfterClosure(b, a, ents, n, t);
    } else {
      DirectAfterClosure(b, a, ents, n, t);
    }
  }

  /** Every answer the closure changes is classified, unless the chase ends on a CNAME set whose last target is not an empty non-terminal. */
  lemma ClosureStepClassified(b: ZoneData, a: ZoneData, ents: set<Name>, n: Name, t: RType)
    requires ClosureOf(b, a, ents)
    ensures var before, after := Lookup(b, DeepestWins, n, t), Lookup(a, DeepestWins, n, t);
            before != after ==>
              (Classify(ents, |b.origin|, n, before, after).Some? <==>
               (IsAlias(b, n, t) ==> LastTarget(b, n, t) in ents))
  {
    ClosureStepIsOf(b, a, ents, n, t);
    if IsAlias(b, n, t) { AliasAfterClosure(b, a, ents, n, t); }
  }

  ghost predicate OneCnamePerOwner(z: ZoneData) {
    forall o: Name | (o, Cname) in z.exact :: |z.exact[(o, Cname)]| == 1
  }

  /** The promise of the three classes, where each owner has at most one CNAME. */
  lemma OneCnamePerOwnerIsClassified(b: ZoneData, a: ZoneData, ents: set<Name>, n: Name, t: RType)
    requires ClosureOf(b, a, ents) && OneCnamePerOwner(b)
    ensures var before, after := Lookup(b, DeepestWins, n, t), Lookup(a, DeepestWins, n, t);
            before != after ==> Classify(ents, |b.origin|, n, before, after).Some?
  {
    if IsAlias(b, n, t) {
      AliasAfterClosure(b, a, ents, n, t);
      if ChaseStop(b, n, t, 0).Some? { SingleCnameTarget(b, n, t); }
    } else {
      DirectAfterClosure(b, a, ents, n, t);
    }
  }

  /** For every config that builds: what ancestor closure may change, and the one shape its classes do not name. */
  lemma EveryClosureChange(cfg: ZoneConfig, ents: seq<Name>, n: Name, t: RType)
    requires Build(cfg).Some? && ListsClosure(cfg, ents)
    ensures var b, closure := Build(cfg).value, Closure(cfg.origin, Declared(cfg));
            var before, after := Lookup(b, DeepestWins, n, t), Lookup(Materialise(b, ents), DeepestWins, n, t);
            before != after ==>
              && (Classify(closure, |cfg.origin|, n, before, after).Some? <==>
                  (IsAlias(b, n, t) ==> LastTarget(b, n, t) in closure))
              && Classify(closure, |cfg.origin|, n, before, after) == ClosureClass(b, closure, n, t)
              && ClosureShape(b, closure, n, t, before, after)
  {
    ClosureOfBuild(cfg, ents);
    BuildWellFormed(cfg);
    ClosureStepIsOf(Build(cfg).value, Materialise(Build(cfg).value, ents), Closure(cfg.origin, Declared(cfg)), n, t);
    ClosureStepClassified(Build(cfg).value, Materialise(Build(cfg).value, ents), Closure(cfg.origin, Declared(cfg)), n, t);
  }

  // ------------------------------------ the closest-encloser rule: W1 to W4

  datatype S3Transition =
    | SynthesisRestrictedToTheClosestEncloser
    | NameErrorRestoredAboveTheClosestEncloser
    | CnameChaseLosesAnUnreachableSynthesis
    | SynthesisRefusedAtAWildcardNameThatExists

  predicate OwnedBy(rs: seq<Record>, n: Name) {
    rs != [] && forall r | r in rs :: r.owner == n
  }

  ghost function ClassifyS3(m: ConfigModel, n: Name, t: RType, before: Answer, after: Answer): Option<S3Transition> {
    if before == after then None
    else if before.Records? && OwnedBy(before.records, n) && SynthesisMoved(m, n, t) && RfcNegative(m, n, t) == Some(after)
    then Some(SynthesisRestrictedToTheClosestEncloser)
    else if before == NoData && after == NxDomain && CoverageNarrowed(m, n)
    then Some(NameErrorRestoredAboveTheClosestEncloser)
    else if n in m.nodes && IsWildcardName(n) then
      var correct := if (BaseName(n), t) in m.types then after.Records? && OwnedBy(after.records, n) else after == NoData;
      if correct then Some(SynthesisRefusedAtAWildcardNameThatExists) else None
    else if TruncatedAtAlias(before, after) && SynthesisMoved(m, Last(after.records).data.target, t)
    then Some(CnameChaseLosesAnUnreachableSynthesis)
    else None
  }

  /** The closed zone, its config's model, and what the model says of an origin that is itself a wildcard name. */
  ghost predicate Modelled(m: ConfigModel, z: ZoneData) {
    && ClosedZoneData(z) && Agrees(m, z)
    && (IsWildcardName(z.origin) ==> forall t: RType | (BaseName(z.origin), t) in m.types :: (z.origin, t) in z.exact)
  }

  lemma {:induction false} StarredOriginTypes(origin: Name, specs: seq<RecordSpec>, defaultTtl: nat, t: RType)
    requires InsertAll(EmptyZone(origin), specs, defaultTtl).Some? && IsWildcardName(origin)
    requires (BaseName(origin), t) in WildcardTypes(origin, specs)
    ensures InsertAll(EmptyZone(origin), specs, defaultTtl).value.origin == origin
    ensures (origin, t) in InsertAll(EmptyZone(origin), specs, defaultTtl).value.exact
  {
    var init, spec := specs[..|specs| - 1], specs[|specs| - 1];
    InsertAllWellFormed(EmptyZone(origin), init, defaultTtl);
    if (BaseName(origin), t) in WildcardTypes(origin, init) {
      StarredOriginTypes(origin, init, defaultTtl, t);
    } else {
      var owner := Qualify(origin, OwnerLabel(spec)).value;
      if IsWildcardSpec(spec) {
        StarParts(owner);
      } else {
        OnlyTheOriginIsStarred(origin, spec);
      }
    }
  }

  lemma ModelledBuild(cfg: ZoneConfig, ents: seq<Name>)
    requires Build(cfg).Some? && ListsClosure(cfg, ents)
    ensures Modelled(ModelOf(cfg), Materialise(Build(cfg).value, ents))
  {
    ClosedZone(cfg, ents);
    ModelAgrees(cfg, ents);
    if IsWildcardName(cfg.origin) {
      forall t: RType | (BaseName(cfg.origin), t) in ModelOf(cfg).types
        ensures (cfg.origin, t) in Build(cfg).value.exact
      {
        StarredOriginTypes(cfg.origin, cfg.records, cfg.defaultTtl, t);
      }
    }
  }

  /** Off the node set, the probe's result is what the model reads. */
  lemma ProbesRead(m: ConfigModel, z: ZoneData, n: Name, t: RType)
    requires Modelled(m, z) && InZone(z.origin, n) && n !in NodeNames(z)
    ensures ModelEncloser(m, n).Some?
    ensures EncloserProbe(z, n, t) == ProbeAt(z, ModelEncloser(m, n).value, t)
    ensures SameWildcard(m, z, ModelEncloser(m, n).value)
    ensures Probe(z, DeepestWins, n, t).1 <==> WildcardAncestors(m, n) != []
  {
    AncestorsFromEncloser(m, z, n);
    WalkIsFirstTyped(m, z, n, t, |n| - 1);
  }

  /** A wildcard node's closest encloser is its own parent. */
  lemma WildcardNodeProbe(z: ZoneData, n: Name, t: RType)
    requires ClosedZoneData(z) && n in NodeNames(z) && n !in z.names
    ensures IsWildcardName(n) && |n| > |z.origin| && BaseName(n) in z.parents
    ensures EncloserProbe(z, n, t) == ProbeAt(z, BaseName(n), t)
  {
    var p :| p in z.parents && HasStar(p) && StarOf(p) == n;
    StarParts(p);
    assert TrimTo(n, |n| - 1) in NodeNames(z);
  }

  /** W4, and nothing else: the name is a wildcard node, so it exists. */
  lemma WildcardNodeStep(m: ConfigModel, z: ZoneData, n: Name, t: RType)
    requires Modelled(m, z) && !IsAlias(z, n, t) && n in NodeNames(z)
    requires Direct(z, DeepestWins, n, t) != Direct(z, ClosestEncloser, n, t)
    ensures n !in z.names && IsWildcardName(n) && InZone(z.origin, n)
    ensures Direct(z, DeepestWins, n, t).Records? && Direct(z, ClosestEncloser, n, t) == NoData && (BaseName(n), t) !in m.types
  {
    WildcardNodeProbe(z, n, t);
    ProbeNarrows(z, n, t);
    BaseHasStar(z, n);
    assert SameWildcard(m, z, BaseName(n));
  }

  lemma {:induction false} WalkFindsRecords(z: ZoneData, n: Name, t: RType, d: int)
    requires NoEmptySets(z.wildcard) && (d < |n| || n == [])
    ensures WalkFrom(z, n, t, d).0.Some? ==> WalkFrom(z, n, t, d).0.value != []
    decreases d
  {
    if d >= |z.origin| { WalkFindsRecords(z, n, t, d - 1); }
  }

  /** Where nothing exists at the name: a synthesis lost, or a coverage. */
  function AbsentClass(before: Answer): S3Transition {
    if before.Records? then SynthesisRestrictedToTheClosestEncloser else NameErrorRestoredAboveTheClosestEncloser
  }

  predicate AbsentShape(before: Answer, after: Answer) {
    (before.Records? && !after.Records?) || (before == NoData && after == NxDomain)
  }

  /** W1 or W2: nothing exists at the name. */
  lemma AbsentNameStep(m: ConfigModel, z: ZoneData, n: Name, t: RType)
    requires Modelled(m, z) && !IsAlias(z, n, t) && n !in NodeNames(z)
    requires Direct(z, DeepestWins, n, t) != Direct(z, ClosestEncloser, n, t)
    ensures InZone(z.origin, n) && SynthesisMoved(m, n, t)
    ensures var before, after := Direct(z, DeepestWins, n, t), Direct(z, ClosestEncloser, n, t);
            AbsentShape(before, after) && ClassifyS3(m, n, t, before, after) == Some(AbsentClass(before))
  {
    AbsentAnswer(z, DeepestWins, n, t);
    AbsentAnswer(z, ClosestEncloser, n, t);
    ProbesRead(m, z, n, t);
    ProbesDifferIffSynthesisMoved(m, z, n, t);
    ProbeNarrows(z, n, t);
    WalkFindsRecords(z, n, t, WindowStart(n));
    AbsentIsClassified(m, z, n, t, Probe(z, DeepestWins, n, t));
  }

  lemma AbsentIsClassified(m: ConfigModel, z: ZoneData, n: Name, t: RType, walk: (Option<seq<Record>>, bool))
    requires n !in m.nodes && ModelEncloser(m, n).Some? && SynthesisMoved(m, n, t)
    requires SameWildcard(m, z, ModelEncloser(m, n).value)
    requires walk.0.Some? ==> walk.1 && walk.0.value != []
    requires walk.1 <==> WildcardAncestors(m, n) != []
    requires var probe := ProbeAt(z, ModelEncloser(m, n).value, t);
             && (probe.0.Some? ==> walk == probe) && (probe.1 ==> walk.1)
             && ProbeAnswer(n, walk) != ProbeAnswer(n, probe)
    ensures var before, after := ProbeAnswer(n, walk), ProbeAnswer(n, ProbeAt(z, ModelEncloser(m, n).value, t));
            AbsentShape(before, after) && ClassifyS3(m, n, t, before, after) == Some(AbsentClass(before))
  {
    if walk.0.Some? {
      assert forall r | r in Reown(n, walk.0.value) :: r.owner == n;
    }
  }

  /** Which class a change of the rule is of, read off the name, the zone and the answer that was. */
  ghost function RuleClass(m: ConfigModel, z: ZoneData, n: Name, t: RType, before: Answer): Option<S3Transition> {
    if IsAlias(z, n, t) then
      if !IsWildcardName(n) && SynthesisMoved(m, LastTarget(z, n, t), t) then Some(CnameChaseLosesAnUnreachableSynthesis) else None
    else if n in m.nodes then Some(SynthesisRefusedAtAWildcardNameThatExists)
    else Some(AbsentClass(before))
  }

  /** And what the change is: a chase cut short, a wildcard's own name that is left with nothing of the type, a synthesis or a coverage lost. */
  ghost predicate RuleShape(m: ConfigModel, z: ZoneData, n: Name, t: RType, before: Answer, after: Answer) {
    if IsAlias(z, n, t) then CutShort(before, after, LastTarget(z, n, t))
    else if n in m.nodes then IsWildcardName(n) && (BaseName(n), t) !in m.types && before.Records? && after == NoData
    else AbsentShape(before, after)
  }

  lemma DirectStepS3(m: ConfigModel, z: ZoneData, n: Name, t: RType)
    requires Modelled(m, z) && !IsAlias(z, n, t)
    requires Direct(z, DeepestWins, n, t) != Direct(z, ClosestEncloser, n, t)
    ensures var before, after := Direct(z, DeepestWins, n, t), Direct(z, ClosestEncloser, n, t);
            && ClassifyS3(m, n, t, before, after) == RuleClass(m, z, n, t, before)
            && RuleShape(m, z, n, t, before, after)
  {
    if n in NodeNames(z) {
      WildcardNodeStep(m, z, n, t);
    } else {
      AbsentNameStep(m, z, n, t);
    }
  }

  lemma BaseHasStar(z: ZoneData, n: Name)
    requires IsWildcardName(n) && |n| > |z.origin|
    ensures HasStar(BaseName(n)) && |BaseName(n)| >= |z.origin|
  {
    WildcardIsStarOfBase(n);
  }

  lemma AliasStepIsOf(m: ConfigModel, z: ZoneData, n: Name, t: RType)
    requires Modelled(m, z) && IsAlias(z, n, t)
    ensures var before, after := Lookup(z, DeepestWins, n, t), Lookup(z, ClosestEncloser, n, t);
            before != after ==>
              ClassifyS3(m, n, t, before, after) == RuleClass(m, z, n, t, before) && RuleShape(m, z, n, t, before, after)
  {
    AliasStepS3(z, n, t);
    if Lookup(z, DeepestWins, n, t) != Lookup(z, ClosestEncloser, n, t) { assert n in NodeNames(z); }
  }

  lemma RuleClassIff(m: ConfigModel, z: ZoneData, n: Name, t: RType, before: Answer)
    ensures RuleClass(m, z, n, t, before).Some?
       <==> (IsAlias(z, n, t) ==> !IsWildcardName(n) && SynthesisMoved(m, LastTarget(z, n, t), t))
  {
  }

  /** Every answer the rule changes is classified, unless a chase ends on a CNAME set whose last target's synthesis did not move. */
  lemma EncloserStepClassified(m: ConfigModel, z: ZoneData, n: Name, t: RType)
    requires Modelled(m, z)
    ensures var before, after := Lookup(z, DeepestWins, n, t), Lookup(z, ClosestEncloser, n, t);
            before != after ==>
              && (ClassifyS3(m, n, t, before, after).Some? <==>
                  (IsAlias(z, n, t) ==> !IsWildcardName(n) && SynthesisMoved(m, LastTarget(z, n, t), t)))
              && ClassifyS3(m, n, t, before, after) == RuleClass(m, z, n, t, before)
              && RuleShape(m, z, n, t, before, after)
  {
    var before, after := Lookup(z, DeepestWins, n, t), Lookup(z, ClosestEncloser, n, t);
    RuleClassIff(m, z, n, t, before);
    if before != after {
      if IsAlias(z, n, t) { AliasStepIsOf(m, z, n, t); } else { DirectStepS3(m, z, n, t); }
    }
  }

  lemma AliasStepS3(z: ZoneData, n: Name, t: RType)
    requires ClosedZoneData(z) && IsAlias(z, n, t)
    ensures var before, after := Lookup(z, DeepestWins, n, t), Lookup(z, ClosestEncloser, n, t);
            before != after ==>
              && n in z.names && TruncatedAtAlias(before, after)
              && Last(after.records).data.target == LastTarget(z, n, t)
              && ChaseStop(z, n, t, 0).Some?
              && var u := ChaseStop(z, n, t, 0).value;
                 Direct(z, DeepestWins, u, t) != Direct(z, ClosestEncloser, u, t)
  {
    var stop := ChaseStop(z, n, t, 0);
    if stop.Some? { DirectNarrows(z, stop.value, t); }
    CnamesAreAliases(z, ChaseEnd(z, n, t, 0).0);
    AliasTruncated(z, DeepestWins, z, ClosestEncloser, n, t);
  }

  ghost predicate PlainTargets(z: ZoneData) {
    forall o: Name | (o, Cname) in z.exact :: forall r | r in z.exact[(o, Cname)] ::
      r.data.Alias? ==> !IsWildcardName(r.data.target)
  }

  /** The promise of the four classes, where each owner has one CNAME, no target is a wildcard name, and nor is the origin. */
  lemma PlainTargetsAreClassified(m: ConfigModel, z: ZoneData, n: Name, t: RType)
    requires Modelled(m, z) && !IsWildcardName(z.origin) && OneCnamePerOwner(z) && PlainTargets(z)
    ensures var before, after := Lookup(z, DeepestWins, n, t), Lookup(z, ClosestEncloser, n, t);
            before != after ==> ClassifyS3(m, n, t, before, after).Some?
  {
    EncloserStepClassified(m, z, n, t);
    if IsAlias(z, n, t) {
      AliasStepS3(z, n, t);
      if Lookup(z, DeepestWins, n, t) != Lookup(z, ClosestEncloser, n, t) {
        PlainStopMoved(m, z, n, t);
      }
    }
  }

  lemma PlainStopMoved(m: ConfigModel, z: ZoneData, n: Name, t: RType)
    requires Modelled(m, z) && !IsWildcardName(z.origin) && OneCnamePerOwner(z) && PlainTargets(z)
    requires IsAlias(z, n, t) && ChaseStop(z, n, t, 0).Some?
    requires var u := ChaseStop(z, n, t, 0).value; Direct(z, DeepestWins, u, t) != Direct(z, ClosestEncloser, u, t)
    ensures !IsWildcardName(n) && SynthesisMoved(m, LastTarget(z, n, t), t)
  {
    var u := ChaseStop(z, n, t, 0).value;
    SingleCnameTarget(z, n, t);
    assert !IsWildcardName(u) by { assert Last(z.exact[(ChaseEnd(z, n, t, 0).0, Cname)]).data.target == u; }
    if u in NodeNames(z) { WildcardNodeStep(m, z, u, t); } else { AbsentNameStep(m, z, u, t); }
  }

  /** For every config that builds: what the closest-encloser rule may change, and the one shape its classes do not name. */
  lemma EveryRuleChange(cfg: ZoneConfig, ents: seq<Name>, n: Name, t: RType)
    requires Build(cfg).Some? && ListsClosure(cfg, ents)
    ensures var z, m := Materialise(Build(cfg).value, ents), ModelOf(cfg);
            var before, after := Lookup(z, DeepestWins, n, t), Lookup(z, ClosestEncloser, n, t);
            before != after ==>
              && (ClassifyS3(m, n, t, before, after).Some? <==>
                  (IsAlias(z, n, t) ==> !IsWildcardName(n) && SynthesisMoved(m, LastTarget(z, n, t), t)))
              && ClassifyS3(m, n, t, before, after) == RuleClass(m, z, n, t, before)
              && RuleShape(m, z, n, t, before, after)
  {
    ModelledBuild(cfg, ents);
    EncloserStepClassified(ModelOf(cfg), Materialise(Build(cfg).value, ents), n, t);
  }
}
