/** The two wildcard rules run side by side over one config, and the one name at which the walks themselves part. */
module ZoneComparison {
  import opened Names
  import opened U128
  import opened ZoneModel
  import opened FrozenZones
  import opened ZoneClosure
  import opened ZoneWildcard
  import opened ZoneSteps
  import opened ZoneServed
  import opened ZoneEscapes

  /** The names of a set, in whatever order it gives them up. */
  method Listed(names: set<Name>) returns (list: seq<Name>)
    ensures (set n | n in list) == names
  {
    list := [];
    var todo := names;
    while todo != {}
      invariant todo <= names && (set n | n in list) == names - todo
    {
      var n :| n in todo;
      assert (set m | m in list + [n]) == (set m | m in list) + {n};
      todo := todo - {n};
      list := list + [n];
    }
  }

  /** Builds the zone, closes its node set, asks under the old rule, switches, and asks again. */
  method CompareRules(cfg: ZoneConfig, n: Name, t: RType) returns (ok: bool, before: Answer, after: Answer)
    ensures ok <==> Build(cfg).Some?
    ensures ok ==> Rank(after) <= Rank(before) && RecordsOf(after) <= RecordsOf(before)
    ensures ok && before != after && !RefusedByS5(cfg) && !IsWildcardName(cfg.origin) && PlainTargets(Build(cfg).value) ==>
              ClassifyS3(ModelOf(cfg), n, t, before, after).Some?
  {
    before, after := NxDomain, NxDomain;
    var zone;
    ok, zone := FrozenZone.Build(cfg);
    if !ok { return; }
    var closure := AncestorClosure(cfg);
    var ents := Listed(closure);
    ClosedZone(cfg, ents);
    zone.MaterialiseAncestors(ents);
    before := zone.LookupAnswer(n, t);
    zone.UnderTheRfcRule();
    after := zone.LookupAnswer(n, t);
    LookupNarrows(Materialise(Build(cfg).value, ents), n, t);
    if !RefusedByS5(cfg) && !IsWildcardName(cfg.origin) && PlainTargets(Build(cfg).value) {
      ServedRuleChangesAreNamed(cfg, ents, n, t);
    }
  }

  // ---------------------------------------------------- where the walks part

  const ROOT: Name := []

  /** A served root zone with a wildcard record set at `*.`. */
  const ROOT_STAR := ZoneConfig(ROOT, 0, Some(SoaTable(Some(ROOT), Some(ROOT), 0, 0)), [Spec([], NS, Blob(0)), Spec([STAR], Type(1), Blob(1))])

  lemma RootStarBuilds()
    ensures Build(ROOT_STAR).Some?
    ensures var z := Build(ROOT_STAR).value; ROOT in z.names && Shape(z, ROOT, {ROOT}, {ROOT}, ApexExact(ROOT), ApexWildcard(ROOT))
  {
    var e, rs := EmptyZone(ROOT), ROOT_STAR.records;
    BuildsApex(e, ROOT, ROOT, ROOT, ROOT);
    InsertAllNext(e, rs, 0);
    BuildsApexStar(InsertAll(e, rs[..1], 0).value, ROOT, ROOT, ROOT, ROOT);
    InsertAllNext(e, rs, 1);
    BuildIs(ROOT_STAR, rs[..2]);
  }

  lemma RootStarIsServed()
    ensures !RefusedByS5(ROOT_STAR)
  {
    assert ROOT + ROOT == ROOT && [STAR][1..] + ROOT == ROOT;
    assert SpecNode(ROOT, ROOT_STAR.records[0]) == Some(ROOT) && SpecNode(ROOT, ROOT_STAR.records[1]) == Some(StarOf(ROOT));
    forall owner ensures ValuesAt(ROOT, ROOT_STAR.records, owner, Cname) == 0 {
      ValuesAtNone(ROOT, ROOT_STAR.records, owner, Cname);
    }
    ValuesAtNone(ROOT, ROOT_STAR.records, ROOT, SOA);
    forall i: nat, owner: Name, t: RType | Declares(ROOT_STAR, i, owner, t)
      ensures EffectiveTtl(ROOT_STAR, i) == 0 && t != SOA && t != Cname && (t == NS ==> owner == ROOT)
    {
    }
    assert Declares(ROOT_STAR, 0, ROOT, NS);
  }

  /** For the root of that zone the bitmap walk finds `*.`, which is no ancestor's, and a walk over ancestors finds nothing. */
  lemma RootStarParts()
    ensures Build(ROOT_STAR).Some? && !RefusedByS5(ROOT_STAR)
    ensures var z := Build(ROOT_STAR).value;
            && WalkFrom(z, ROOT, Type(1), WindowStart(ROOT)) == (Some([Record(ROOT, 0, Opaque(1, 1))]), true)
            && NaiveWalk(z, ROOT, Type(1)) == (None, false)
  {
    RootStarBuilds();
    RootStarIsServed();
  }

  // ------------------------------------------- and that no answer shows it

  /** Existence as the walk over proper ancestors decides it. */
  predicate NaiveExists(z: ZoneData, n: Name) {
    n in z.names || NaiveWalk(z, n, Any).1
  }

  function NaiveDirect(z: ZoneData, n: Name, t: RType): Answer
    requires !IsAlias(z, n, t)
  {
    if !InZone(z.origin, n) then NxDomain
    else if t == Any then (if NaiveExists(z, n) then NoData else NxDomain)
    else if (n, t) in z.exact then Records(z.exact[(n, t)])
    else if n in z.names then NoData
    else
      match NaiveWalk(z, n, t)
      case (Some(found), _) => Records(Reown(n, found))
      case (None, covered) => if covered then NoData else NxDomain
  }

  /** The lookup with the walk over proper ancestors in place of the bitmap window. */
  function NaiveLookup(z: ZoneData, n: Name, t: RType, depth: nat): Answer
    decreases if depth < MAX_CNAME_DEPTH then MAX_CNAME_DEPTH - depth else 0
  {
    if !IsAlias(z, n, t) then NaiveDirect(z, n, t)
    else
      var cnames := z.exact[(n, Cname)];
      if depth >= MAX_CNAME_DEPTH || ChaseTarget(z, n).None? then Records(cnames)
      else Records(cnames + RecordsOf(NaiveLookup(z, ChaseTarget(z, n).value, t, depth + 1)))
  }

  /** Off the names, both walks find the same. */
  ghost predicate WalksAgree(z: ZoneData) {
    forall n, t | n !in z.names :: Probe(z, DeepestWins, n, t) == NaiveWalk(z, n, t)
  }

  lemma OriginMakesWalksAgree(z: ZoneData)
    requires WellFormed(z) && z.origin in z.names
    ensures WalksAgree(z)
  {
    forall n, t | n !in z.names ensures Probe(z, DeepestWins, n, t) == NaiveWalk(z, n, t) {
      WindowIsNaiveWalk(z, n, t);
    }
  }

  lemma DirectIsNaive(z: ZoneData, n: Name, t: RType)
    requires WalksAgree(z) && !IsAlias(z, n, t)
    ensures Direct(z, DeepestWins, n, t) == NaiveDirect(z, n, t)
  {
    if n !in z.names {
      assert Probe(z, DeepestWins, n, t) == NaiveWalk(z, n, t);
      assert Probe(z, DeepestWins, n, Any) == NaiveWalk(z, n, Any);
    }
  }

  lemma ChaseIsNaive(z: ZoneData, n: Name, t: RType, depth: nat)
    requires IsAlias(z, n, t)
    requires depth < MAX_CNAME_DEPTH && ChaseTarget(z, n).Some? ==>
               var u := ChaseTarget(z, n).value; Resolve(z, DeepestWins, u, t, depth + 1) == NaiveLookup(z, u, t, depth + 1)
    ensures Resolve(z, DeepestWins, n, t, depth) == NaiveLookup(z, n, t, depth)
  {
  }

  lemma {:induction false} ResolveIsNaive(z: ZoneData, n: Name, t: RType, depth: nat)
    requires WalksAgree(z)
    ensures Resolve(z, DeepestWins, n, t, depth) == NaiveLookup(z, n, t, depth)
    decreases if depth < MAX_CNAME_DEPTH then MAX_CNAME_DEPTH - depth else 0
  {
    if !IsAlias(z, n, t) {
      DirectIsNaive(z, n, t);
    } else {
      if depth < MAX_CNAME_DEPTH && ChaseTarget(z, n).Some? { ResolveIsNaive(z, ChaseTarget(z, n).value, t, depth + 1); }
      ChaseIsNaive(z, n, t, depth);
    }
  }

  /** Where the origin is a name, no lookup and no existence check turns on the window's extra depth. */
  lemma AnswersAreNaive(z: ZoneData, n: Name, t: RType)
    requires WellFormed(z) && z.origin in z.names
    ensures Exists(z, DeepestWins, n) == NaiveExists(z, n)
    ensures Lookup(z, DeepestWins, n, t) == NaiveLookup(z, n, t, 0)
  {
    OriginMakesWalksAgree(z);
    ResolveIsNaive(z, n, t, 0);
    assert n !in z.names ==> Probe(z, DeepestWins, n, Any) == NaiveWalk(z, n, Any);
  }

  /** Which it is in every zone a config builds, closed or not. */
  lemma BuiltAnswersAreNaive(cfg: ZoneConfig, ents: seq<Name>, n: Name, t: RType)
    requires Build(cfg).Some? && ListsClosure(cfg, ents)
    ensures forall z | z in {Build(cfg).value, Materialise(Build(cfg).value, ents)} ::
              Exists(z, DeepestWins, n) == NaiveExists(z, n) && Lookup(z, DeepestWins, n, t) == NaiveLookup(z, n, t, 0)
  {
    BuildWellFormed(cfg);
    ClosedZone(cfg, ents);
    MaterialiseNodes(Build(cfg).value, ents);
    forall z | z in {Build(cfg).value, Materialise(Build(cfg).value, ents)} {
      AnswersAreNaive(z, n, t);
    }
  }
}
