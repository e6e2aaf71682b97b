/** A config that is served, and an answer of it that the closest-encloser rule changes in a way no class names. */
module ZoneEscapes {
  import opened Names
  import opened ZoneModel
  import opened ZoneClosure
  import opened ZoneWildcard
  import opened ZoneSteps
  import opened ZoneServed

  function Spec(labels: seq<Label>, t: RType, v: RawValue): RecordSpec {
    RecordSpec(Relative(labels), Some(t), None, [v])
  }

  /** `a CNAME *.d`, with `*` of type 1 and `*.d` of type 16, and an NS record set at the apex. */
  function StarTarget(origin: Name, d: Label, a: Label, u: Name): ZoneConfig {
    ZoneConfig(origin, 0, Some(SoaTable(Some(origin), Some(origin), 0, 0)), [
      Spec([], NS, Blob(0)), Spec([STAR], Type(1), Blob(1)), Spec([STAR, d], Type(16), Blob(2)), Spec([a], Cname, AliasTo(u))])
  }

  /** The names it declares: `p` is `d`, `n` is `a` and `u` is `*.d`. */
  predicate StarTargetNames(origin: Name, d: Label, a: Label, p: Name, n: Name, u: Name) {
    && p == [d] + origin && n == [a] + origin && a != STAR
    && HasStar(origin) && HasStar(p) && StarOf(p) == u
  }

  // -------------------------------------------------------------- what it builds

  ghost predicate Shape(z: ZoneData, origin: Name, names: set<Name>, parents: set<Name>,
                        exact: map<Key, seq<Record>>, wildcard: map<Key, seq<Record>>)
  {
    z.origin == origin && z.names == names && z.parents == parents && z.exact == exact && z.wildcard == wildcard
  }

  /** Inserting one value, under an owner and type the zone does not hold yet. */
  lemma InsertOne(z: ZoneData, labels: seq<Label>, t: RType, v: RawValue, owner: Name)
    requires ParseValue(t, v).Some?
    requires owner == (if labels != [] && labels[0] == STAR then labels[1..] else labels) + z.origin
    requires (owner, t) !in z.exact && (owner, t) !in z.wildcard
    ensures var r := [Record(owner, 0, ParseValue(t, v).value)];
            var z' := InsertSpec(z, Spec(labels, t, v), 0);
            z'.Some? &&
            if labels != [] && labels[0] == STAR
            then Shape(z'.value, z.origin, z.names, z.parents + {owner}, z.exact, z.wildcard[(owner, t) := r])
            else Shape(z'.value, z.origin, z.names + {owner}, z.parents, z.exact[(owner, t) := r], z.wildcard)
  {
    ParseOne(owner, t, v);
    if |labels| == 1 { assert labels[1..] == []; }
    assert ParseSpec(z.origin, Spec(labels, t, v), 0) == Some(((owner, t), [Record(owner, 0, ParseValue(t, v).value)]));
    LabelCeiling(owner);
    assert [] + [Record(owner, 0, ParseValue(t, v).value)] == [Record(owner, 0, ParseValue(t, v).value)];
  }

  lemma ParseOne(owner: Name, t: RType, v: RawValue)
    requires ParseValue(t, v).Some?
    ensures ParseRecords(owner, 0, t, [v]) == Some([Record(owner, 0, ParseValue(t, v).value)])
  {
    assert [v][1..] == [];
    var r := Record(owner, 0, ParseValue(t, v).value);
    assert [r] + [] == [r];
  }

  lemma InsertAllNext(z: ZoneData, specs: seq<RecordSpec>, i: nat)
    requires i < |specs| && InsertAll(z, specs[..i], 0).Some?
    ensures InsertAll(z, specs[..i + 1], 0) == InsertSpec(InsertAll(z, specs[..i], 0).value, specs[i], 0)
  {
    assert specs[..i + 1][..i] == specs[..i];
  }

  ghost predicate Holds(z: ZoneData, origin: Name, p: Name, n: Name, u: Name) {
    Shape(z, origin, {origin} + {n}, {origin} + {p}, AllExact(origin, n, u), AllWildcard(origin, p))
  }

  function ApexExact(origin: Name): map<Key, seq<Record>> {
    map[(origin, NS) := [Record(origin, 0, Opaque(2, 0))]]
  }

  function AllExact(origin: Name, n: Name, u: Name): map<Key, seq<Record>> {
    ApexExact(origin)[(n, Cname) := [Record(n, 0, Alias(u))]]
  }

  function ApexWildcard(origin: Name): map<Key, seq<Record>> {
    map[(origin, Type(1)) := [Record(origin, 0, Opaque(1, 1))]]
  }

  function AllWildcard(origin: Name, p: Name): map<Key, seq<Record>> {
    ApexWildcard(origin)[(p, Type(16)) := [Record(p, 0, Opaque(16, 2))]]
  }

  /** What the first `i` record sets of the config build. */
  ghost predicate BuiltSoFar(z: ZoneData, i: nat, origin: Name, p: Name, n: Name, u: Name) {
    match i
    case 0 => Shape(z, origin, {}, {}, map[], map[])
    case 1 => Shape(z, origin, {origin}, {}, ApexExact(origin), map[])
    case 2 => Shape(z, origin, {origin}, {origin}, ApexExact(origin), ApexWildcard(origin))
    case 3 => Shape(z, origin, {origin}, {origin} + {p}, ApexExact(origin), AllWildcard(origin, p))
    case _ => Shape(z, origin, {origin} + {n}, {origin} + {p}, AllExact(origin, n, u), AllWildcard(origin, p))
  }

  lemma BuildsApex(z: ZoneData, origin: Name, p: Name, n: Name, u: Name)
    requires BuiltSoFar(z, 0, origin, p, n, u)
    ensures var z' := InsertSpec(z, Spec([], NS, Blob(0)), 0); z'.Some? && BuiltSoFar(z'.value, 1, origin, p, n, u)
  {
    assert [] + origin == origin;
    InsertOne(z, [], NS, Blob(0), origin);
  }

  lemma BuildsApexStar(z: ZoneData, origin: Name, p: Name, n: Name, u: Name)
    requires BuiltSoFar(z, 1, origin, p, n, u)
    ensures var z' := InsertSpec(z, Spec([STAR], Type(1), Blob(1)), 0); z'.Some? && BuiltSoFar(z'.value, 2, origin, p, n, u)
  {
    assert [STAR][1..] + origin == origin;
    InsertOne(z, [STAR], Type(1), Blob(1), origin);
  }

  lemma BuildsStar(z: ZoneData, origin: Name, d: Label, p: Name, n: Name, u: Name)
    requires BuiltSoFar(z, 2, origin, p, n, u) && p == [d] + origin
    ensures var z' := InsertSpec(z, Spec([STAR, d], Type(16), Blob(2)), 0); z'.Some? && BuiltSoFar(z'.value, 3, origin, p, n, u)
  {
    assert [STAR, d][1..] + origin == p;
    InsertOne(z, [STAR, d], Type(16), Blob(2), p);
  }

  lemma BuildsAlias(z: ZoneData, origin: Name, a: Label, p: Name, n: Name, u: Name)
    requires BuiltSoFar(z, 3, origin, p, n, u) && n == [a] + origin && a != STAR
    ensures var z' := InsertSpec(z, Spec([a], Cname, AliasTo(u)), 0); z'.Some? && BuiltSoFar(z'.value, 4, origin, p, n, u)
  {
    InsertOne(z, [a], Cname, AliasTo(u), n);
  }

  /** Inserting record set `i` where the ones before it have been built. */
  lemma BuildsNext(z: ZoneData, origin: Name, d: Label, a: Label, p: Name, n: Name, u: Name, i: nat)
    requires StarTargetNames(origin, d, a, p, n, u) && i < 4 && BuiltSoFar(z, i, origin, p, n, u)
    ensures var z' := InsertSpec(z, StarTarget(origin, d, a, u).records[i], 0);
            z'.Some? && BuiltSoFar(z'.value, i + 1, origin, p, n, u)
  {
    match i
    case 0 => BuildsApex(z, origin, p, n, u);
    case 1 => BuildsApexStar(z, origin, p, n, u);
    case 2 => BuildsStar(z, origin, d, p, n, u);
    case _ => BuildsAlias(z, origin, a, p, n, u);
  }

  lemma {:induction false} BuildsPrefix(origin: Name, d: Label, a: Label, p: Name, n: Name, u: Name, i: nat)
    requires StarTargetNames(origin, d, a, p, n, u) && i <= 4
    ensures var z := InsertAll(EmptyZone(origin), StarTarget(origin, d, a, u).records[..i], 0);
            z.Some? && BuiltSoFar(z.value, i, origin, p, n, u)
  {
    if i > 0 {
      var rs := StarTarget(origin, d, a, u).records;
      BuildsPrefix(origin, d, a, p, n, u, i - 1);
      InsertAllNext(EmptyZone(origin), rs, i - 1);
      BuildsNext(InsertAll(EmptyZone(origin), rs[..i - 1], 0).value, origin, d, a, p, n, u, i - 1);
    }
  }

  lemma BuildIs(cfg: ZoneConfig, prefix: seq<RecordSpec>)
    requires SoaParses(cfg.soa) && prefix == cfg.records && InsertAll(EmptyZone(cfg.origin), prefix, cfg.defaultTtl).Some?
    ensures var z := InsertAll(EmptyZone(cfg.origin), prefix, cfg.defaultTtl).value;
            Build(cfg) == Some(z.(names := z.names + {z.origin}, soa := SoaOf(cfg, z.exact)))
  {
  }

  lemma BuiltHolds(z: ZoneData, origin: Name, p: Name, n: Name, u: Name, soa: Option<Record>)
    requires BuiltSoFar(z, 4, origin, p, n, u)
    ensures Holds(z.(names := z.names + {z.origin}, soa := soa), origin, p, n, u)
  {
  }

  lemma StarTargetBuilds(origin: Name, d: Label, a: Label, p: Name, n: Name, u: Name)
    requires StarTargetNames(origin, d, a, p, n, u)
    ensures Build(StarTarget(origin, d, a, u)).Some?
    ensures Holds(Build(StarTarget(origin, d, a, u)).value, origin, p, n, u)
  {
    var cfg := StarTarget(origin, d, a, u);
    BuildsPrefix(origin, d, a, p, n, u, 4);
    BuildIs(cfg, cfg.records[..4]);
    var z := InsertAll(EmptyZone(origin), cfg.records[..4], 0).value;
    BuiltHolds(z, origin, p, n, u, SoaOf(cfg, z.exact));
  }

  // ---------------------------------------------------- and that it is served

  lemma StarTargetDeclares(origin: Name, d: Label, a: Label, p: Name, n: Name, u: Name, i: nat)
    requires StarTargetNames(origin, d, a, p, n, u) && i < 4
    ensures SpecNode(origin, StarTarget(origin, d, a, u).records[i])
         == Some(if i == 0 then origin else if i == 1 then StarOf(origin) else if i == 2 then u else n)
  {
    assert [] + origin == origin && [STAR][1..] + origin == origin && [STAR, d][1..] + origin == p;
  }

  lemma {:induction false} ValuesAtNone(origin: Name, specs: seq<RecordSpec>, owner: Name, t: RType)
    requires forall i | 0 <= i < |specs| :: specs[i].rtype != Some(t)
    ensures ValuesAt(origin, specs, owner, t) == 0
  {
    if specs != [] { ValuesAtNone(origin, specs[..|specs| - 1], owner, t); }
  }

  lemma StarTargetIsServed(origin: Name, d: Label, a: Label, p: Name, n: Name, u: Name)
    requires StarTargetNames(origin, d, a, p, n, u)
    ensures !RefusedByS5(StarTarget(origin, d, a, u))
  {
    var cfg := StarTarget(origin, d, a, u);
    forall owner ensures ValuesAt(origin, cfg.records, owner, Cname) <= 1 {
      ValuesAtNone(origin, cfg.records[..3], owner, Cname);
    }
    ValuesAtNone(origin, cfg.records, origin, SOA);
    forall i: nat | i < 4 { StarTargetDeclares(origin, d, a, p, n, u, i); }
    forall i: nat, owner: Name, t: RType | Declares(cfg, i, owner, t)
      ensures EffectiveTtl(cfg, i) == 0 && t != SOA && (t == NS ==> owner == origin) && (t == Cname ==> i == 3)
    {
    }
    forall j: nat, t: RType | Declares(cfg, j, n, t) ensures t == Cname { assert n[0] == a; }
    assert Declares(cfg, 0, origin, NS);
  }

  // ---------------------------------------------------------- the two answers

  /** The entries the two answers are read from. */
  ghost predicate Entries(z: ZoneData, origin: Name, p: Name, n: Name, u: Name) {
    && z.origin == origin && p in z.parents && origin in z.parents
    && (p, Type(1)) !in z.wildcard && (origin, Type(1)) in z.wildcard
    && (n, Cname) in z.exact && z.exact[(n, Cname)] == [Record(n, 0, Alias(u))]
    && (n, Type(1)) !in z.exact && (u, Cname) !in z.exact
  }

  lemma HeldEntries(b: ZoneData, z: ZoneData, origin: Name, p: Name, n: Name, u: Name)
    requires Holds(b, origin, p, n, u) && p != origin && n != u
    requires z.origin == b.origin && z.exact == b.exact && z.wildcard == b.wildcard && b.parents <= z.parents
    ensures Entries(z, origin, p, n, u)
  {
  }

  /** The walk falls through `*.d` to the apex wildcard; the one probe does not. */
  lemma StarTargetAnswers(z: ZoneData, origin: Name, p: Name, n: Name, u: Name)
    requires ClosedZoneData(z) && Entries(z, origin, p, n, u)
    requires u in NodeNames(z) && u !in z.names && BaseName(u) == p && |p| == |origin| + 1
    requires InZone(origin, n)
    ensures IsAlias(z, n, Type(1)) && LastTarget(z, n, Type(1)) == u
    ensures Lookup(z, DeepestWins, n, Type(1)) != Lookup(z, ClosestEncloser, n, Type(1))
  {
    var t := Type(1);
    WildcardNodeProbe(z, u, t);
    assert InZone(origin, u);
    assert BaseName(u) == TrimTo(u, |u| - 1);
    TrimTrim(u, |u| - 1, |origin|);
    assert WalkFrom(z, u, t, |origin|).0.Some?;
    assert Probe(z, DeepestWins, u, t).0.Some?;
    AbsentAnswer(z, DeepestWins, u, t);
    AbsentAnswer(z, ClosestEncloser, u, t);
    WalkFindsRecords(z, u, t, |u| - 1);
    assert ChaseTarget(z, n) == Some(u) && !Continues(z, n, t, 0);
    ChaseFactors(z, DeepestWins, n, t, 0);
    ChaseFactors(z, ClosestEncloser, n, t, 0);
  }

  lemma StarTargetNodes(cfg: ZoneConfig, ents: seq<Name>, p: Name, n: Name, u: Name)
    requires Build(cfg).Some? && ListsClosure(cfg, ents) && Holds(Build(cfg).value, cfg.origin, p, n, u)
    requires HasStar(p) && StarOf(p) == u && u != n && u != cfg.origin
    ensures var z := Materialise(Build(cfg).value, ents); u in NodeNames(z) && u !in z.names
  {
    var b := Build(cfg).value;
    StarsMember(b.parents, p);
    BuildNodes(cfg);
    MaterialiseFrame(b, ents);
    MaterialiseNodes(b, ents);
  }

  lemma StarTargetChanges(cfg: ZoneConfig, ents: seq<Name>, p: Name, n: Name, u: Name)
    requires Build(cfg).Some? && ListsClosure(cfg, ents) && Holds(Build(cfg).value, cfg.origin, p, n, u)
    requires BaseName(u) == p && InZone(cfg.origin, n) && n != u && n != cfg.origin && u != cfg.origin
    requires |p| == |cfg.origin| + 1
    requires var z := Materialise(Build(cfg).value, ents); u in NodeNames(z) && u !in z.names
    ensures var z := Materialise(Build(cfg).value, ents);
            && IsAlias(z, n, Type(1)) && LastTarget(z, n, Type(1)) == u && u in ModelOf(cfg).nodes
            && Lookup(z, DeepestWins, n, Type(1)) != Lookup(z, ClosestEncloser, n, Type(1))
  {
    var b := Build(cfg).value;
    var z := Materialise(b, ents);
    ClosedZone(cfg, ents);
    MaterialiseFrame(b, ents);
    HeldEntries(b, z, cfg.origin, p, n, u);
    StarTargetAnswers(z, cfg.origin, p, n, u);
  }

  /** A served config, and a rule change no class names: the target is a wildcard name that exists, so no synthesis at it has moved. */
  lemma WildcardTargetEscapes(origin: Name, d: Label, a: Label, p: Name, n: Name, u: Name, ents: seq<Name>)
    requires StarTargetNames(origin, d, a, p, n, u) && ListsClosure(StarTarget(origin, d, a, u), ents)
    ensures var cfg := StarTarget(origin, d, a, u);
            && Build(cfg).Some? && !RefusedByS5(cfg)
            && var z := Materialise(Build(cfg).value, ents);
               var before, after := Lookup(z, DeepestWins, n, Type(1)), Lookup(z, ClosestEncloser, n, Type(1));
               before != after && ClassifyS3(ModelOf(cfg), n, Type(1), before, after) == None
  {
    var cfg := StarTarget(origin, d, a, u);
    StarTargetBuilds(origin, d, a, p, n, u);
    StarTargetIsServed(origin, d, a, p, n, u);
    StarParts(p);
    StarTargetNodes(cfg, ents, p, n, u);
    StarTargetChanges(cfg, ents, p, n, u);
    EveryRuleChange(cfg, ents, n, Type(1));
  }
}
