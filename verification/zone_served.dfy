/** The configs a server is willing to serve, and what the two classifications come to on them. */
module ZoneServed {
  import opened Names
  import opened ZoneModel
  import opened ZoneClosure
  import opened ZoneWildcard
  import opened ZoneSteps

  const NS := Type(2)

  /** Record set `i` declares `owner` with type `t`. */
  predicate Declares(cfg: ZoneConfig, i: nat, owner: Name, t: RType) {
    i < |cfg.records| && cfg.records[i].rtype == Some(t) && SpecNode(cfg.origin, cfg.records[i]) == Some(owner)
  }

  function EffectiveTtl(cfg: ZoneConfig, i: nat): nat
    requires i < |cfg.records|
  {
    if cfg.records[i].ttl.Some? then cfg.records[i].ttl.value else cfg.defaultTtl
  }

  /** How many values the record sets declare for one owner and type. */
  function ValuesAt(origin: Name, specs: seq<RecordSpec>, owner: Name, t: RType): nat {
    if specs == [] then 0
    else
      var spec := specs[|specs| - 1];
      ValuesAt(origin, specs[..|specs| - 1], owner, t)
        + if spec.rtype == Some(t) && SpecNode(origin, spec) == Some(owner) then |spec.values| else 0
  }

  /** A config the zone's invariants refuse, decided from the config. */
  ghost predicate RefusedByS5(cfg: ZoneConfig) {
    var apexSoas := ValuesAt(cfg.origin, cfg.records, cfg.origin, SOA);
    || (exists i, owner :: Declares(cfg, i, owner, NS) && owner != cfg.origin && IsWildcardName(owner))
    || (exists i, owner :: Declares(cfg, i, owner, SOA) && owner != cfg.origin)
    || (exists i, j, owner, t :: Declares(cfg, i, owner, t) && Declares(cfg, j, owner, t)
                              && EffectiveTtl(cfg, i) != EffectiveTtl(cfg, j))
    || (exists owner :: ValuesAt(cfg.origin, cfg.records, owner, Cname) > 1)
    || (exists i, j, owner, t :: Declares(cfg, i, owner, Cname) && Declares(cfg, j, owner, t) && t != Cname)
    || (cfg.soa.Some? && apexSoas > 0) || apexSoas > 1 || (cfg.soa.None? && apexSoas == 0)
    || (forall i :: !Declares(cfg, i, cfg.origin, NS))
  }

  function SetSize(z: ZoneData, k: Key): nat {
    if k in z.exact then |z.exact[k]| else 0
  }

  /** An ordinary RRset has as many records as its owner and type have values. */
  lemma {:induction false} SetSizeBound(origin: Name, specs: seq<RecordSpec>, defaultTtl: nat, owner: Name, t: RType)
    requires InsertAll(EmptyZone(origin), specs, defaultTtl).Some?
    ensures InsertAll(EmptyZone(origin), specs, defaultTtl).value.origin == origin
    ensures SetSize(InsertAll(EmptyZone(origin), specs, defaultTtl).value, (owner, t)) <= ValuesAt(origin, specs, owner, t)
  {
    if specs != [] {
      var init := specs[..|specs| - 1];
      SetSizeBound(origin, init, defaultTtl, owner, t);
      SetSizeOfInsert(InsertAll(EmptyZone(origin), init, defaultTtl).value, specs[|specs| - 1], defaultTtl, (owner, t));
    }
  }

  lemma SetSizeOfInsert(z: ZoneData, spec: RecordSpec, defaultTtl: nat, k: Key)
    requires InsertSpec(z, spec, defaultTtl).Some?
    ensures SetSize(InsertSpec(z, spec, defaultTtl).value, k) <= SetSize(z, k)
      + if spec.rtype == Some(k.1) && SpecNode(z.origin, spec) == Some(k.0) then |spec.values| else 0
  {
    var (key, records) := ParseSpec(z.origin, spec, defaultTtl).value;
    assert |records| == |spec.values|;
    if !IsWildcardSpec(spec) { assert SpecNode(z.origin, spec) == Some(key.0) && spec.rtype == Some(key.1); }
  }

  lemma ServedHasOneCnamePerOwner(cfg: ZoneConfig)
    requires Build(cfg).Some? && !RefusedByS5(cfg)
    ensures OneCnamePerOwner(Build(cfg).value)
  {
    BuildWellFormed(cfg);
    var z := Build(cfg).value;
    forall o: Name | (o, Cname) in z.exact ensures |z.exact[(o, Cname)]| == 1 {
      SetSizeBound(cfg.origin, cfg.records, cfg.defaultTtl, o, Cname);
      assert ValuesAt(cfg.origin, cfg.records, o, Cname) <= 1;
    }
  }

  /** Of the configs that are served, every answer ancestor closure changes is T1, T2 or T3. */
  lemma ServedClosureChangesAreNamed(cfg: ZoneConfig, ents: seq<Name>, n: Name, t: RType)
    requires Build(cfg).Some? && !RefusedByS5(cfg) && ListsClosure(cfg, ents)
    ensures var b := Build(cfg).value;
            var before, after := Lookup(b, DeepestWins, n, t), Lookup(Materialise(b, ents), DeepestWins, n, t);
            before != after ==>
              Classify(Closure(cfg.origin, Declared(cfg)), |cfg.origin|, n, before, after).Some?
  {
    ClosureOfBuild(cfg, ents);
    BuildWellFormed(cfg);
    ServedHasOneCnamePerOwner(cfg);
    OneCnamePerOwnerIsClassified(Build(cfg).value, Materialise(Build(cfg).value, ents),
                                 Closure(cfg.origin, Declared(cfg)), n, t);
  }

  /** And every answer the closest-encloser rule changes is W1 to W4, if no CNAME points at a wildcard name and the origin is not one. */
  lemma ServedRuleChangesAreNamed(cfg: ZoneConfig, ents: seq<Name>, n: Name, t: RType)
    requires Build(cfg).Some? && !RefusedByS5(cfg) && ListsClosure(cfg, ents)
    requires !IsWildcardName(cfg.origin) && PlainTargets(Build(cfg).value)
    ensures var z := Materialise(Build(cfg).value, ents);
            var before, after := Lookup(z, DeepestWins, n, t), Lookup(z, ClosestEncloser, n, t);
            before != after ==> ClassifyS3(ModelOf(cfg), n, t, before, after).Some?
  {
    ModelledBuild(cfg, ents);
    BuildWellFormed(cfg);
    ServedHasOneCnamePerOwner(cfg);
    MaterialiseFrame(Build(cfg).value, ents);
    PlainTargetsAreClassified(ModelOf(cfg), Materialise(Build(cfg).value, ents), n, t);
  }

  /** Served, under a plain origin: which changes of the rule go unnamed, with no classifier in the condition. */
  lemma UnnamedRuleChanges(cfg: ZoneConfig, ents: seq<Name>, n: Name, t: RType)
    requires Build(cfg).Some? && !RefusedByS5(cfg) && ListsClosure(cfg, ents) && !IsWildcardName(cfg.origin)
    ensures var z, m := Materialise(Build(cfg).value, ents), ModelOf(cfg);
            var before, after := Lookup(z, DeepestWins, n, t), Lookup(z, ClosestEncloser, n, t);
            before != after ==>
              (ClassifyS3(m, n, t, before, after).None? <==>
               IsAlias(z, n, t) && ChaseStop(z, n, t, 0).Some? && ChaseStop(z, n, t, 0).value in m.nodes)
  {
    var z, m := Materialise(Build(cfg).value, ents), ModelOf(cfg);
    ModelledBuild(cfg, ents);
    ServedHasOneCnamePerOwner(cfg);
    MaterialiseFrame(Build(cfg).value, ents);
    EncloserStepClassified(m, z, n, t);
    if IsAlias(z, n, t) && Lookup(z, DeepestWins, n, t) != Lookup(z, ClosestEncloser, n, t) {
      AliasStepS3(z, n, t);
      UnnamedAtTheStop(m, z, n, t);
    }
  }

  lemma UnnamedAtTheStop(m: ConfigModel, z: ZoneData, n: Name, t: RType)
    requires Modelled(m, z) && !IsWildcardName(z.origin) && OneCnamePerOwner(z) && n in z.names
    requires IsAlias(z, n, t) && ChaseStop(z, n, t, 0).Some?
    requires var u := ChaseStop(z, n, t, 0).value; Direct(z, DeepestWins, u, t) != Direct(z, ClosestEncloser, u, t)
    ensures !IsWildcardName(n)
    ensures SynthesisMoved(m, LastTarget(z, n, t), t) <==> ChaseStop(z, n, t, 0).value !in m.nodes
  {
    var u := ChaseStop(z, n, t, 0).value;
    SingleCnameTarget(z, n, t);
    if u !in NodeNames(z) { AbsentNameStep(m, z, u, t); }
  }
}
