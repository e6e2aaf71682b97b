/** What a built zone holds, read off its config: which configs build, and every RRset record by record. */
module ZoneContents {
  import opened Names
  import opened U128
  import opened ZoneModel

  // ------------------------------------------------- one record set, as written

  predicate Starred(spec: RecordSpec) {
    spec.owner.labels != [] && spec.owner.labels[0] == [42]
  }

  /** The owner's labels less a leading asterisk. */
  function Unstarred(spec: RecordSpec): seq<Label> {
    if Starred(spec) then spec.owner.labels[1..] else spec.owner.labels
  }

  /** What its records belong to: below the origin, unless written with a final dot; `*.` alone is the origin's own. */
  function OwnerLabels(origin: Name, spec: RecordSpec): seq<Label> {
    if spec.owner.Relative? || (Starred(spec) && Unstarred(spec) == []) then Unstarred(spec) + origin else Unstarred(spec)
  }

  predicate EndsIn(labels: seq<Label>, origin: Name) {
    |origin| <= |labels| && labels[|labels| - |origin|..] == origin
  }

  /** A value of the type it is given under. */
  predicate Fits(t: RType, v: RawValue) {
    (t.Cname? && v.AliasTo?) || (t.Type? && v.Blob?)
  }

  function DataOf(t: RType, v: RawValue): RData
    requires Fits(t, v)
  {
    match v
    case AliasTo(target) => Alias(target)
    case Blob(payload) => Opaque(t.code, payload)
  }

  predicate AllFit(t: RType, values: seq<RawValue>) {
    forall v | v in values :: Fits(t, v)
  }

  /** A type that is known, a value at least, and every value of that type. */
  predicate Typed(spec: RecordSpec) {
    spec.rtype.Some? && spec.values != [] && AllFit(spec.rtype.value, spec.values)
  }

  /** And an owner that is a name, in the zone. */
  predicate Loads(origin: Name, spec: RecordSpec) {
    Typed(spec) && Representable(OwnerLabels(origin, spec)) && EndsIn(OwnerLabels(origin, spec), origin)
  }

  predicate AllTyped(specs: seq<RecordSpec>) {
    forall i | 0 <= i < |specs| :: Typed(specs[i])
  }

  predicate AllLoad(origin: Name, specs: seq<RecordSpec>) {
    forall i | 0 <= i < |specs| :: Loads(origin, specs[i])
  }

  /** The record set is of this kind, owner and type. */
  predicate Of(origin: Name, spec: RecordSpec, starred: bool, k: Key) {
    Starred(spec) == starred && OwnerLabels(origin, spec) == k.0 && spec.rtype == Some(k.1)
  }

  /** The TTL it states, or else the zone's. */
  function TtlOf(spec: RecordSpec, defaultTtl: nat): nat {
    match spec.ttl case Some(ttl) => ttl case None => defaultTtl
  }

  /** Its records: one for each value, in order. */
  function OwnRecords(owner: Name, spec: RecordSpec, defaultTtl: nat): (r: seq<Record>)
    requires Typed(spec)
  {
    seq(|spec.values|, i requires 0 <= i < |spec.values| =>
      Record(owner, TtlOf(spec, defaultTtl), DataOf(spec.rtype.value, spec.values[i])))
  }

  // ---------------------------------------------------------- all of a config

  /** The RRset of an owner and type: what the record sets of it declare, one after the other. */
  function RRset(origin: Name, specs: seq<RecordSpec>, defaultTtl: nat, starred: bool, k: Key): seq<Record>
    requires AllTyped(specs)
  {
    if specs == [] then []
    else
      var last := specs[|specs| - 1];
      RRset(origin, specs[..|specs| - 1], defaultTtl, starred, k)
        + if Of(origin, last, starred, k) then OwnRecords(k.0, last, defaultTtl) else []
  }

  ghost predicate Declared(origin: Name, specs: seq<RecordSpec>, starred: bool, k: Key) {
    exists i | 0 <= i < |specs| :: Of(origin, specs[i], starred, k)
  }

  ghost predicate Owned(origin: Name, specs: seq<RecordSpec>, starred: bool, owner: Name) {
    exists i | 0 <= i < |specs| :: Starred(specs[i]) == starred && OwnerLabels(origin, specs[i]) == owner
  }

  function Values(specs: seq<RecordSpec>): nat {
    if specs == [] then 0 else Values(specs[..|specs| - 1]) + |specs[|specs| - 1].values|
  }

  /** What the map holds at an owner and type is what the record sets of the kind declare, and it holds nothing else. */
  ghost predicate HoldsAt(m: map<Key, seq<Record>>, origin: Name, specs: seq<RecordSpec>, defaultTtl: nat, starred: bool, k: Key)
    requires AllTyped(specs)
  {
    && (k in m <==> Declared(origin, specs, starred, k))
    && (k in m ==> m[k] == RRset(origin, specs, defaultTtl, starred, k))
  }

  ghost predicate Holds(m: map<Key, seq<Record>>, origin: Name, specs: seq<RecordSpec>, defaultTtl: nat, starred: bool)
    requires AllTyped(specs)
  {
    forall k: Key :: HoldsAt(m, origin, specs, defaultTtl, starred, k)
  }

  /** The owners of the record sets of the kind. */
  ghost predicate Own(owners: set<Name>, origin: Name, specs: seq<RecordSpec>, starred: bool) {
    forall n: Name :: n in owners <==> Owned(origin, specs, starred, n)
  }

  ghost predicate Contents(z: ZoneData, origin: Name, specs: seq<RecordSpec>, defaultTtl: nat)
    requires AllTyped(specs)
  {
    && z.origin == origin && z.count == Values(specs)
    && Holds(z.exact, origin, specs, defaultTtl, false)
    && Holds(z.wildcard, origin, specs, defaultTtl, true)
    && Own(z.parents, origin, specs, true) && DepthsMatch(z)
  }

  /** While the record sets are going in, the names are their owners. */
  ghost predicate Inserted(z: ZoneData, origin: Name, specs: seq<RecordSpec>, defaultTtl: nat)
    requires AllTyped(specs)
  {
    Contents(z, origin, specs, defaultTtl) && Own(z.names, origin, specs, false)
  }

  // ------------------------------------------------------- one record set more

  lemma DeclaredNext(origin: Name, specs: seq<RecordSpec>, spec: RecordSpec, starred: bool, k: Key)
    ensures Declared(origin, specs + [spec], starred, k) <==> Declared(origin, specs, starred, k) || Of(origin, spec, starred, k)
  {
    if Declared(origin, specs, starred, k) {
      var i :| 0 <= i < |specs| && Of(origin, specs[i], starred, k);
      assert (specs + [spec])[i] == specs[i];
    }
    if Of(origin, spec, starred, k) { assert Of(origin, (specs + [spec])[|specs|], starred, k); }
  }

  lemma OwnedNext(origin: Name, specs: seq<RecordSpec>, spec: RecordSpec, starred: bool, owner: Name)
    ensures Owned(origin, specs + [spec], starred, owner)
       <==> Owned(origin, specs, starred, owner) || (Starred(spec) == starred && OwnerLabels(origin, spec) == owner)
  {
    if Owned(origin, specs, starred, owner) {
      var i :| 0 <= i < |specs| && Starred(specs[i]) == starred && OwnerLabels(origin, specs[i]) == owner;
      assert (specs + [spec])[i] == specs[i];
    }
    if Starred(spec) == starred && OwnerLabels(origin, spec) == owner { assert (specs + [spec])[|specs|] == spec; }
  }

  lemma RRsetNext(origin: Name, specs: seq<RecordSpec>, spec: RecordSpec, defaultTtl: nat, starred: bool, k: Key)
    requires AllTyped(specs) && Typed(spec)
    ensures AllTyped(specs + [spec])
    ensures RRset(origin, specs + [spec], defaultTtl, starred, k)
         == RRset(origin, specs, defaultTtl, starred, k) + if Of(origin, spec, starred, k) then OwnRecords(k.0, spec, defaultTtl) else []
  {
    assert (specs + [spec])[..|specs|] == specs;
  }

  lemma {:induction false} UndeclaredIsEmpty(origin: Name, specs: seq<RecordSpec>, defaultTtl: nat, starred: bool, k: Key)
    requires AllTyped(specs) && !Declared(origin, specs, starred, k)
    ensures RRset(origin, specs, defaultTtl, starred, k) == []
  {
    if specs != [] {
      var init, last := specs[..|specs| - 1], specs[|specs| - 1];
      assert specs == init + [last];
      DeclaredNext(origin, init, last, starred, k);
      UndeclaredIsEmpty(origin, init, defaultTtl, starred, k);
    }
  }

  // ----------------------------------------------------------- what is parsed

  lemma OwnerIsQualified(origin: Name, spec: RecordSpec)
    ensures Starred(spec) == IsWildcardSpec(spec)
    ensures Qualify(origin, OwnerLabel(spec)).Some?
       <==> Representable(OwnerLabels(origin, spec)) && EndsIn(OwnerLabels(origin, spec), origin)
    ensures Qualify(origin, OwnerLabel(spec)).Some? ==> Qualify(origin, OwnerLabel(spec)).value == OwnerLabels(origin, spec)
  {
    var labels := OwnerLabels(origin, spec);
    if Starred(spec) && |spec.owner.labels| == 1 { assert Unstarred(spec) == []; }
    if OwnerLabel(spec).Relative? { assert (Unstarred(spec) + origin)[|Unstarred(spec)|..] == origin; }
  }

  lemma ParsedValue(t: RType, v: RawValue)
    ensures ParseValue(t, v) == if Fits(t, v) then Some(DataOf(t, v)) else None
  {
  }

  lemma AllFitCons(t: RType, v: RawValue, rest: seq<RawValue>)
    ensures AllFit(t, [v] + rest) <==> Fits(t, v) && AllFit(t, rest)
  {
    assert v in [v] + rest;
    assert forall u | u in rest :: u in [v] + rest;
  }

  lemma {:induction false} ParsedRecords(owner: Name, ttl: nat, t: RType, values: seq<RawValue>)
    ensures ParseRecords(owner, ttl, t, values).Some? <==> AllFit(t, values)
    ensures AllFit(t, values) ==>
              var records := ParseRecords(owner, ttl, t, values).value;
              |records| == |values| && forall i | 0 <= i < |values| :: records[i] == Record(owner, ttl, DataOf(t, values[i]))
  {
    if values != [] {
      assert values == [values[0]] + values[1..];
      AllFitCons(t, values[0], values[1..]);
      ParsedValue(t, values[0]);
      ParsedRecords(owner, ttl, t, values[1..]);
    }
  }

  lemma ParsedSpec(origin: Name, spec: RecordSpec, defaultTtl: nat)
    ensures ParseSpec(origin, spec, defaultTtl).Some? <==> Loads(origin, spec)
    ensures Loads(origin, spec) ==>
              var (k, records) := ParseSpec(origin, spec, defaultTtl).value;
              Of(origin, spec, Starred(spec), k) && records == OwnRecords(k.0, spec, defaultTtl)
  {
    OwnerIsQualified(origin, spec);
    var owner := Qualify(origin, OwnerLabel(spec));
    if spec.rtype.Some? && owner.Some? {
      ParsedRecords(owner.value, TtlOf(spec, defaultTtl), spec.rtype.value, spec.values);
    }
  }

  // ------------------------------------------------------------ what is added

  /** A map with one RRset extended. */
  predicate Extended(m: map<Key, seq<Record>>, m': map<Key, seq<Record>>, k: Key, records: seq<Record>) {
    && m'.Keys == m.Keys + {k}
    && m'[k] == (if k in m then m[k] else []) + records
    && forall x | x in m && x != k :: m'[x] == m[x]
  }

  lemma HoldsNextAt(m: map<Key, seq<Record>>, m': map<Key, seq<Record>>, origin: Name, specs: seq<RecordSpec>, spec: RecordSpec,
                    defaultTtl: nat, k: Key, x: Key)
    requires AllTyped(specs) && Typed(spec) && AllTyped(specs + [spec])
    requires HoldsAt(m, origin, specs, defaultTtl, Starred(spec), x) && Of(origin, spec, Starred(spec), k)
    requires Extended(m, m', k, OwnRecords(k.0, spec, defaultTtl))
    ensures HoldsAt(m', origin, specs + [spec], defaultTtl, Starred(spec), x)
  {
    DeclaredNext(origin, specs, spec, Starred(spec), x);
    RRsetNext(origin, specs, spec, defaultTtl, Starred(spec), x);
    if x !in m { UndeclaredIsEmpty(origin, specs, defaultTtl, Starred(spec), x); }
    if x == k {
      assert x in m';
    } else {
      assert x in m' <==> x in m;
    }
  }

  lemma HoldsNext(m: map<Key, seq<Record>>, m': map<Key, seq<Record>>, origin: Name, specs: seq<RecordSpec>, spec: RecordSpec,
                  defaultTtl: nat, k: Key)
    requires AllTyped(specs) && Typed(spec) && AllTyped(specs + [spec])
    requires Holds(m, origin, specs, defaultTtl, Starred(spec)) && Of(origin, spec, Starred(spec), k)
    requires Extended(m, m', k, OwnRecords(k.0, spec, defaultTtl))
    ensures Holds(m', origin, specs + [spec], defaultTtl, Starred(spec))
  {
    forall x: Key ensures HoldsAt(m', origin, specs + [spec], defaultTtl, Starred(spec), x) {
      HoldsNextAt(m, m', origin, specs, spec, defaultTtl, k, x);
    }
  }

  lemma HoldsStill(m: map<Key, seq<Record>>, origin: Name, specs: seq<RecordSpec>, spec: RecordSpec, defaultTtl: nat, starred: bool)
    requires AllTyped(specs) && Typed(spec) && AllTyped(specs + [spec])
    requires Holds(m, origin, specs, defaultTtl, starred) && Starred(spec) != starred
    ensures Holds(m, origin, specs + [spec], defaultTtl, starred)
  {
    forall k: Key ensures HoldsAt(m, origin, specs + [spec], defaultTtl, starred, k) {
      DeclaredNext(origin, specs, spec, starred, k);
      RRsetNext(origin, specs, spec, defaultTtl, starred, k);
      assert HoldsAt(m, origin, specs, defaultTtl, starred, k);
    }
  }

  /** The parents and the depths that go with them. */
  ghost predicate DepthsMatch(z: ZoneData) {
    forall d: nat | d < 128 :: Bit(z.depths, d) <==> exists p :: p in z.parents && |p| == d
  }

  lemma DepthsNext(z: ZoneData, p: Name)
    requires DepthsMatch(z)
    ensures DepthsMatch(AddParent(z, p)) && AddParent(z, p).parents == z.parents + {p}
  {
    LabelCeiling(p);
    forall d: nat | d < 128
      ensures Bit(AddParent(z, p).depths, d) <==> exists q :: q in AddParent(z, p).parents && |q| == d
    {
      BitOfOr(z.depths, Pow2(|p|), d);
      BitOfPow2(|p|, d);
      if d == |p| { assert p in AddParent(z, p).parents; }
      assert AddParent(z, p).parents == z.parents + {p};
    }
  }

  lemma OwnNext(owners: set<Name>, origin: Name, specs: seq<RecordSpec>, spec: RecordSpec, starred: bool, owner: Name)
    requires Own(owners, origin, specs, starred) && OwnerLabels(origin, spec) == owner
    ensures Own(if Starred(spec) == starred then owners + {owner} else owners, origin, specs + [spec], starred)
  {
    forall n: Name
      ensures Owned(origin, specs + [spec], starred, n) <==> Owned(origin, specs, starred, n) || (Starred(spec) == starred && n == owner)
    {
      OwnedNext(origin, specs, spec, starred, n);
    }
  }

  /** One record set added: the one map extended, and what is counted with it. */
  ghost predicate Added(z: ZoneData, z': ZoneData, starred: bool, k: Key, records: seq<Record>) {
    && z'.origin == z.origin && z'.count == z.count + |records|
    && Extended(if starred then z.wildcard else z.exact, if starred then z'.wildcard else z'.exact, k, records)
    && (if starred then z'.exact == z.exact else z'.wildcard == z.wildcard)
    && z'.parents == (if starred then z.parents + {k.0} else z.parents)
    && z'.names == (if starred then z.names else z.names + {k.0})
    && DepthsMatch(z')
  }

  lemma AddsRecords(z: ZoneData, starred: bool, k: Key, records: seq<Record>)
    requires DepthsMatch(z)
    ensures Added(z, AddRecords(z, starred, k, records), starred, k, records)
  {
    if starred { DepthsNext(z.(count := z.count + |records|), k.0); }
  }

  lemma ContentsNext(z: ZoneData, z': ZoneData, origin: Name, specs: seq<RecordSpec>, spec: RecordSpec, defaultTtl: nat, k: Key)
    requires AllTyped(specs) && Typed(spec) && AllTyped(specs + [spec])
    requires Inserted(z, origin, specs, defaultTtl) && Of(origin, spec, Starred(spec), k)
    requires Added(z, z', Starred(spec), k, OwnRecords(k.0, spec, defaultTtl))
    ensures Inserted(z', origin, specs + [spec], defaultTtl)
  {
    assert (specs + [spec])[..|specs|] == specs;
    OwnNext(z.parents, origin, specs, spec, true, k.0);
    OwnNext(z.names, origin, specs, spec, false, k.0);
    if Starred(spec) {
      HoldsNext(z.wildcard, z'.wildcard, origin, specs, spec, defaultTtl, k);
      HoldsStill(z.exact, origin, specs, spec, defaultTtl, false);
    } else {
      HoldsNext(z.exact, z'.exact, origin, specs, spec, defaultTtl, k);
      HoldsStill(z.wildcard, origin, specs, spec, defaultTtl, true);
    }
  }

  lemma InsertsContents(z: ZoneData, origin: Name, specs: seq<RecordSpec>, spec: RecordSpec, defaultTtl: nat)
    requires AllTyped(specs) && AllTyped(specs + [spec]) && Inserted(z, origin, specs, defaultTtl)
    ensures InsertSpec(z, spec, defaultTtl).Some? <==> Loads(origin, spec)
    ensures Loads(origin, spec) ==>
              var z' := InsertSpec(z, spec, defaultTtl).value; Inserted(z', origin, specs + [spec], defaultTtl)
  {
    ParsedSpec(origin, spec, defaultTtl);
    OwnerIsQualified(origin, spec);
    if Loads(origin, spec) {
      var (k, records) := ParseSpec(origin, spec, defaultTtl).value;
      AddsRecords(z, IsWildcardSpec(spec), k, records);
      ContentsNext(z, InsertSpec(z, spec, defaultTtl).value, origin, specs, spec, defaultTtl, k);
    }
  }

  lemma NothingYet(origin: Name, defaultTtl: nat)
    ensures Inserted(EmptyZone(origin), origin, [], defaultTtl)
  {
    forall d: nat ensures !Bit(0, d) { ZeroHasNoBits(d); }
    assert forall k: Key :: HoldsAt(map[], origin, [], defaultTtl, false, k) && HoldsAt(map[], origin, [], defaultTtl, true, k);
  }

  lemma LoadsAreTyped(origin: Name, specs: seq<RecordSpec>)
    requires AllLoad(origin, specs)
    ensures AllTyped(specs)
  {
  }

  /** As far as they have gone in, all of them load; and the zone holds them. */
  ghost predicate InsertedIfLoaded(origin: Name, specs: seq<RecordSpec>, defaultTtl: nat) {
    var z := InsertAll(EmptyZone(origin), specs, defaultTtl);
    && (z.Some? <==> AllLoad(origin, specs))
    && (AllLoad(origin, specs) ==> AllTyped(specs) && Inserted(z.value, origin, specs, defaultTtl))
  }

  lemma AllLoadNext(origin: Name, specs: seq<RecordSpec>, spec: RecordSpec)
    ensures AllLoad(origin, specs + [spec]) <==> AllLoad(origin, specs) && Loads(origin, spec)
  {
    if AllLoad(origin, specs + [spec]) {
      assert (specs + [spec])[|specs|] == spec;
      forall i | 0 <= i < |specs| ensures Loads(origin, specs[i]) { assert (specs + [spec])[i] == specs[i]; }
    }
  }

  lemma InsertsLast(origin: Name, specs: seq<RecordSpec>, spec: RecordSpec, defaultTtl: nat)
    requires InsertedIfLoaded(origin, specs, defaultTtl)
    ensures InsertedIfLoaded(origin, specs + [spec], defaultTtl)
  {
    assert (specs + [spec])[..|specs|] == specs;
    AllLoadNext(origin, specs, spec);
    if AllLoad(origin, specs) {
      LoadsAreTyped(origin, specs);
      ParsedSpec(origin, spec, defaultTtl);
      if Loads(origin, spec) {
        LoadsAreTyped(origin, specs + [spec]);
        InsertsContents(InsertAll(EmptyZone(origin), specs, defaultTtl).value, origin, specs, spec, defaultTtl);
      }
    }
  }

  lemma {:induction false} InsertsAll(origin: Name, specs: seq<RecordSpec>, defaultTtl: nat)
    ensures InsertedIfLoaded(origin, specs, defaultTtl)
  {
    if specs == [] {
      NothingYet(origin, defaultTtl);
    } else {
      assert specs == specs[..|specs| - 1] + [specs[|specs| - 1]];
      InsertsAll(origin, specs[..|specs| - 1], defaultTtl);
      InsertsLast(origin, specs[..|specs| - 1], specs[|specs| - 1], defaultTtl);
    }
  }

  // ---------------------------------------------------------------- theorems

  /** The table's record, or the first of the apex's own SOA records, or none. */
  function Authority(cfg: ZoneConfig): Option<Record>
    requires AllTyped(cfg.records)
  {
    match cfg.soa
    case Some(table) => Some(Record(cfg.origin, table.minimum, Opaque(6, table.rest)))
    case None =>
      var own := RRset(cfg.origin, cfg.records, cfg.defaultTtl, false, (cfg.origin, Type(6)));
      if own == [] then None else Some(own[0])
  }

  /** Which configs build: both names of a SOA table are names, and every record set loads. */
  predicate Builds(cfg: ZoneConfig) {
    (cfg.soa.Some? ==> cfg.soa.value.mname.Some? && cfg.soa.value.rname.Some?) && AllLoad(cfg.origin, cfg.records)
  }

  /** And what the zone then holds, record set by record set; the origin is a name whether or not it owns any. */
  ghost predicate AsDeclared(cfg: ZoneConfig, z: ZoneData)
    requires AllTyped(cfg.records)
  {
    && z.soa == Authority(cfg)
    && Contents(z, cfg.origin, cfg.records, cfg.defaultTtl)
    && forall n: Name :: n in z.names <==> n == cfg.origin || Owned(cfg.origin, cfg.records, false, n)
  }

  lemma AuthorityIsSoa(cfg: ZoneConfig, exact: map<Key, seq<Record>>)
    requires AllTyped(cfg.records) && Holds(exact, cfg.origin, cfg.records, cfg.defaultTtl, false)
    ensures SoaOf(cfg, exact) == Authority(cfg)
  {
    var apex: Key := (cfg.origin, Type(6));
    assert HoldsAt(exact, cfg.origin, cfg.records, cfg.defaultTtl, false, apex);
    if apex !in exact { UndeclaredIsEmpty(cfg.origin, cfg.records, cfg.defaultTtl, false, apex); }
  }

  /** The origin and the SOA are put in last. */
  lemma Completed(cfg: ZoneConfig, z: ZoneData, z': ZoneData)
    requires AllTyped(cfg.records) && Inserted(z, cfg.origin, cfg.records, cfg.defaultTtl)
    requires z' == z.(names := z.names + {z.origin}, soa := SoaOf(cfg, z.exact))
    ensures AsDeclared(cfg, z')
  {
    AuthorityIsSoa(cfg, z.exact);
  }

  lemma BuiltAsDeclared(cfg: ZoneConfig)
    ensures Build(cfg).Some? <==> Builds(cfg)
    ensures Builds(cfg) ==> AllTyped(cfg.records) && AsDeclared(cfg, Build(cfg).value)
  {
    InsertsAll(cfg.origin, cfg.records, cfg.defaultTtl);
    if Builds(cfg) {
      Completed(cfg, InsertAll(EmptyZone(cfg.origin), cfg.records, cfg.defaultTtl).value, Build(cfg).value);
    }
  }
}
