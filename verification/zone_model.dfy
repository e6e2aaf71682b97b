/** A zone as data, and the lookup as functions on it: what `FrozenZone`'s methods are proved to compute. */
module ZoneModel {
  import opened Names
  import opened U128

  datatype Option<+T> = None | Some(value: T)

  /** QTYPE ANY is never the type of a record. */
  datatype RType = Any | Cname | Type(code: nat)

  datatype RData = Alias(target: Name) | Opaque(code: nat, payload: nat)

  datatype Record = Record(owner: Name, ttl: nat, data: RData)

  datatype Answer = Records(records: seq<Record>) | NoData | NxDomain

  datatype Rule = DeepestWins | ClosestEncloser

  type Key = (Name, RType)

  datatype ZoneData = ZoneData(
    origin: Name,
    exact: map<Key, seq<Record>>,
    wildcard: map<Key, seq<Record>>,
    depths: u128,
    parents: set<Name>,
    names: set<Name>,
    count: nat,
    soa: Option<Record>)

  const MAX_CNAME_DEPTH := 8

  // ------------------------------------------------------------- the config

  /** An owner as the operator wrote it: below the origin, or absolute with a final dot. */
  datatype OwnerText = Relative(labels: seq<Label>) | Absolute(labels: seq<Label>)

  /** A presentation-format value, up to what the RDATA parser makes of it. */
  datatype RawValue = Malformed | AliasTo(target: Name) | Blob(payload: nat)

  /** `rtype` is `None` when the type is unknown to the parser. */
  datatype RecordSpec = RecordSpec(owner: OwnerText, rtype: Option<RType>, ttl: Option<nat>, values: seq<RawValue>)

  /** A `[zone.soa]` table: its two names, `None` where one does not parse, its minimum, and the rest of its fields. */
  datatype SoaTable = SoaTable(mname: Option<Name>, rname: Option<Name>, minimum: nat, rest: nat)

  datatype ZoneConfig = ZoneConfig(origin: Name, defaultTtl: nat, soa: Option<SoaTable>, records: seq<RecordSpec>)

  predicate IsWildcardSpec(spec: RecordSpec) {
    spec.owner.labels != [] && spec.owner.labels[0] == STAR
  }

  /** The owner with its leading asterisk stripped; a bare `*.` leaves nothing, which is the apex. */
  function OwnerLabel(spec: RecordSpec): OwnerText {
    if !IsWildcardSpec(spec) then spec.owner
    else if |spec.owner.labels| == 1 then Relative([])
    else spec.owner.(labels := spec.owner.labels[1..])
  }

  /** The absolute owner, or `None` where the build refuses the name. */
  function Qualify(origin: Name, text: OwnerText): (r: Option<Name>)
    ensures r.Some? ==> InZone(origin, r.value)
  {
    match text
    case Relative(labels) =>
      assert (labels + origin)[|labels|..] == origin;
      if Representable(labels + origin) then Some(labels + origin) else None
    case Absolute(labels) =>
      if Representable(labels) && InZone(origin, labels) then Some(labels) else None
  }

  function ParseValue(t: RType, v: RawValue): Option<RData> {
    match (t, v)
    case (Cname, AliasTo(target)) => Some(Alias(target))
    case (Type(code), Blob(payload)) => Some(Opaque(code, payload))
    case _ => None
  }

  function TypeOf(d: RData): RType {
    match d case Alias(_) => Cname case Opaque(code, _) => Type(code)
  }

  function ParseRecords(owner: Name, ttl: nat, t: RType, values: seq<RawValue>): (r: Option<seq<Record>>)
    ensures r.Some? ==> |r.value| == |values| && forall x | x in r.value :: x.owner == owner && TypeOf(x.data) == t
    ensures r.Some? && values != [] ==> t != Any
  {
    if values == [] then Some([])
    else match ParseValue(t, values[0])
      case None => None
      case Some(d) =>
        match ParseRecords(owner, ttl, t, values[1..])
        case None => None
        case Some(rest) => Some([Record(owner, ttl, d)] + rest)
  }

  // -------------------------------------------------------------- the build

  function Extend(m: map<Key, seq<Record>>, k: Key, records: seq<Record>): map<Key, seq<Record>> {
    m[k := (if k in m then m[k] else []) + records]
  }

  /** One record set: its owner, type and records, or `None` for each reason the build stops. */
  function ParseSpec(origin: Name, spec: RecordSpec, defaultTtl: nat): (r: Option<(Key, seq<Record>)>)
    ensures r.Some? ==> InZone(origin, r.value.0.0) && r.value.0.1 != Any && r.value.1 != []
    ensures r.Some? ==> forall x | x in r.value.1 :: x.owner == r.value.0.0 && TypeOf(x.data) == r.value.0.1
  {
    if spec.rtype.None? || spec.values == [] then None
    else match Qualify(origin, OwnerLabel(spec))
      case None => None
      case Some(owner) =>
        var ttl := if spec.ttl.Some? then spec.ttl.value else defaultTtl;
        match ParseRecords(owner, ttl, spec.rtype.value, spec.values)
        case None => None
        case Some(records) => Some(((owner, spec.rtype.value), records))
  }

  function SetDepth(depths: u128, d: nat): u128
    requires d <= MAX_LABELS
  {
    OrFits(depths, OneShl(d), BITS);
    BitOr(depths, OneShl(d))
  }

  function AddParent(z: ZoneData, p: Name): (r: ZoneData)
    ensures r.origin == z.origin
  {
    if |p| <= MAX_LABELS then z.(depths := SetDepth(z.depths, |p|), parents := z.parents + {p}) else z
  }

  function AddRecords(z: ZoneData, wildcard: bool, k: Key, records: seq<Record>): (r: ZoneData)
    ensures r.origin == z.origin
  {
    var counted := z.(count := z.count + |records|);
    if wildcard then AddParent(counted, k.0).(wildcard := Extend(z.wildcard, k, records))
    else counted.(names := z.names + {k.0}, exact := Extend(z.exact, k, records))
  }

  function InsertSpec(z: ZoneData, spec: RecordSpec, defaultTtl: nat): Option<ZoneData> {
    match ParseSpec(z.origin, spec, defaultTtl)
    case None => None
    case Some((k, records)) => Some(AddRecords(z, IsWildcardSpec(spec), k, records))
  }

  function EmptyZone(origin: Name): ZoneData {
    ZoneData(origin, map[], map[], 0, {}, {}, 0, None)
  }

  function InsertAll(z: ZoneData, specs: seq<RecordSpec>, defaultTtl: nat): Option<ZoneData> {
    if specs == [] then Some(z)
    else match InsertAll(z, specs[..|specs| - 1], defaultTtl)
      case None => None
      case Some(z') => InsertSpec(z', specs[|specs| - 1], defaultTtl)
  }

  const SOA := Type(6)

  predicate SoaParses(soa: Option<SoaTable>) {
    soa.Some? ==> soa.value.mname.Some? && soa.value.rname.Some?
  }

  /** The table's record, or else the first apex SOA record, if either is there. */
  function SoaOf(cfg: ZoneConfig, exact: map<Key, seq<Record>>): Option<Record> {
    match cfg.soa
    case Some(table) => Some(Record(cfg.origin, table.minimum, Opaque(6, table.rest)))
    case None =>
      if (cfg.origin, SOA) in exact && exact[(cfg.origin, SOA)] != [] then Some(exact[(cfg.origin, SOA)][0]) else None
  }

  function Build(cfg: ZoneConfig): Option<ZoneData> {
    if !SoaParses(cfg.soa) then None
    else match InsertAll(EmptyZone(cfg.origin), cfg.records, cfg.defaultTtl)
      case None => None
      case Some(z) => Some(z.(names := z.names + {z.origin}, soa := SoaOf(cfg, z.exact)))
  }

  function MaterialiseOne(z: ZoneData, ent: Name): ZoneData {
    if IsWildcardName(ent) then AddParent(z, BaseName(ent)) else z.(names := z.names + {ent})
  }

  function Materialise(z: ZoneData, ents: seq<Name>): ZoneData {
    if ents == [] then z else MaterialiseOne(Materialise(z, ents[..|ents| - 1]), ents[|ents| - 1])
  }

  // -------------------------------------------------------- what a build keeps

  ghost predicate NoEmptySets(m: map<Key, seq<Record>>) {
    forall k | k in m :: m[k] != []
  }

  /** Each wildcard parent's depth is a set bit. */
  ghost predicate DepthsCover(z: ZoneData) {
    forall p | p in z.parents :: Bit(z.depths, |p|)
  }

  /** A wildcard RRset sits at a wildcard parent, and never under ANY. */
  ghost predicate TypedAtParents(z: ZoneData) {
    forall k | k in z.wildcard :: k.0 in z.parents && k.1 != Any
  }

  /** What every build and every materialisation keeps. */
  ghost predicate WellFormed(z: ZoneData) {
    && (forall k | k in z.exact :: k.0 in z.names && k.1 != Any)
    && NoEmptySets(z.exact) && NoEmptySets(z.wildcard)
    && (forall k | k in z.exact :: forall x | x in z.exact[k] :: x.owner == k.0 && TypeOf(x.data) == k.1)
    && TypedAtParents(z)
    && (forall n | n in z.names :: InZone(z.origin, n))
    && (forall p | p in z.parents :: InZone(z.origin, p))
    && DepthsCover(z)
    && (forall n | n in z.names :: IsWildcardName(n) ==> n == z.origin)
  }

  lemma AddParentWellFormed(z: ZoneData, p: Name)
    requires WellFormed(z) && InZone(z.origin, p)
    ensures WellFormed(AddParent(z, p)) && AddParent(z, p).parents == z.parents + {p}
  {
    LabelCeiling(p);
    forall q | q in z.parents + {p} ensures Bit(AddParent(z, p).depths, |q|) {
      BitOfOr(z.depths, Pow2(|p|), |q|);
      BitOfPow2(|p|, |q|);
    }
  }

  lemma AddWildcardWellFormed(z: ZoneData, k: Key, records: seq<Record>)
    requires WellFormed(z) && InZone(z.origin, k.0) && k.1 != Any && records != []
    ensures WellFormed(AddRecords(z, true, k, records))
  {
    AddParentWellFormed(z, k.0);
  }

  lemma AddOrdinaryWellFormed(z: ZoneData, k: Key, records: seq<Record>)
    requires WellFormed(z) && InZone(z.origin, k.0) && k.1 != Any && records != []
    requires forall x | x in records :: x.owner == k.0 && TypeOf(x.data) == k.1
    requires IsWildcardName(k.0) ==> k.0 == z.origin
    ensures WellFormed(AddRecords(z, false, k, records))
  {
  }

  lemma InsertSpecWellFormed(z: ZoneData, spec: RecordSpec, defaultTtl: nat)
    requires WellFormed(z) && InsertSpec(z, spec, defaultTtl).Some?
    ensures WellFormed(InsertSpec(z, spec, defaultTtl).value)
    ensures InsertSpec(z, spec, defaultTtl).value.origin == z.origin
  {
    var (k, records) := ParseSpec(z.origin, spec, defaultTtl).value;
    if IsWildcardSpec(spec) {
      AddWildcardWellFormed(z, k, records);
    } else {
      if IsWildcardName(k.0) { OnlyTheOriginIsStarred(z.origin, spec); }
      AddOrdinaryWellFormed(z, k, records);
    }
  }

  /** An ordinary record set never owns a wildcard name, unless the origin itself is one. */
  lemma OnlyTheOriginIsStarred(origin: Name, spec: RecordSpec)
    requires !IsWildcardSpec(spec) && Qualify(origin, spec.owner).Some?
    requires IsWildcardName(Qualify(origin, spec.owner).value)
    ensures Qualify(origin, spec.owner).value == origin
  {
    if spec.owner.labels == [] {
      assert [] + origin == origin;
    }
  }

  lemma {:induction false} InsertAllWellFormed(z: ZoneData, specs: seq<RecordSpec>, defaultTtl: nat)
    requires WellFormed(z) && InsertAll(z, specs, defaultTtl).Some?
    ensures WellFormed(InsertAll(z, specs, defaultTtl).value)
    ensures InsertAll(z, specs, defaultTtl).value.origin == z.origin
  {
    if specs != [] {
      var init := specs[..|specs| - 1];
      InsertAllWellFormed(z, init, defaultTtl);
      InsertSpecWellFormed(InsertAll(z, init, defaultTtl).value, specs[|specs| - 1], defaultTtl);
    }
  }

  lemma BuildWellFormed(cfg: ZoneConfig)
    requires Build(cfg).Some?
    ensures WellFormed(Build(cfg).value) && Build(cfg).value.origin == cfg.origin
    ensures cfg.origin in Build(cfg).value.names
  {
    InsertAllWellFormed(EmptyZone(cfg.origin), cfg.records, cfg.defaultTtl);
  }

  // ------------------------------------------------------------- the lookup

  /** Every wildcard parent from `d` labels down to the origin's depth, deepest first: `(records, covered)`. */
  function WalkFrom(z: ZoneData, n: Name, t: RType, d: int): (r: (Option<seq<Record>>, bool))
    requires d < |n| || n == []
    ensures r.0.Some? ==> r.1
    decreases d
  {
    if d < |z.origin| then (None, false)
    else
      var p := TrimTo(n, d);
      if p in z.parents && (p, t) in z.wildcard then (Some(z.wildcard[(p, t)]), true)
      else
        var below := WalkFrom(z, n, t, d - 1);
        (below.0, below.1 || p in z.parents)
  }

  /** A naive walk over every proper ancestor, from the parent down to the origin. */
  function NaiveWalk(z: ZoneData, n: Name, t: RType): (Option<seq<Record>>, bool) {
    WalkFrom(z, n, t, |n| - 1)
  }

  /** Every node: the ordinary names and `*.<p>` for each wildcard parent `p` with room for the asterisk. */
  ghost function NodeNames(z: ZoneData): set<Name> {
    z.names + Stars(z.parents)
  }

  function Stars(parents: set<Name>): set<Name> {
    set p | p in parents && HasStar(p) :: StarOf(p)
  }

  function StarIfAny(p: Name): set<Name> {
    if HasStar(p) then {StarOf(p)} else {}
  }

  lemma StarsGrow(parents: set<Name>, p: Name)
    ensures Stars(parents + {p}) == Stars(parents) + StarIfAny(p)
  {
    assert forall q | q in parents + {p} :: q in parents || q == p;
  }

  lemma StarsMember(parents: set<Name>, p: Name)
    requires HasStar(p)
    ensures StarOf(p) in Stars(parents) <==> p in parents
  {
    StarParts(p);
    forall q | q in parents && HasStar(q) && StarOf(q) == StarOf(p) ensures q == p { StarParts(q); }
  }

  /** The deepest proper ancestor of `n` in `nodes`, looking no deeper than `d` labels. */
  ghost function EncloserFrom(origin: Name, nodes: set<Name>, n: Name, d: int): (r: Option<Name>)
    requires d < |n|
    ensures r.Some? ==> r.value in nodes && |origin| <= |r.value| <= d && r.value == TrimTo(n, |r.value|)
    ensures r.Some? ==> forall e | |r.value| < e <= d :: TrimTo(n, e) !in nodes
    ensures r.None? ==> forall e | |origin| <= e <= d :: TrimTo(n, e) !in nodes
    decreases d
  {
    if d < |origin| then None
    else if TrimTo(n, d) in nodes then Some(TrimTo(n, d))
    else EncloserFrom(origin, nodes, n, d - 1)
  }

  ghost function Encloser(origin: Name, nodes: set<Name>, n: Name): (r: Option<Name>)
    ensures r.Some? ==> r.value in nodes && |origin| <= |r.value| < |n| && r.value == TrimTo(n, |r.value|)
  {
    if |n| <= |origin| then None else EncloserFrom(origin, nodes, n, |n| - 1)
  }

  /** RFC 4592 section 3.3.1: one probe, at `*.<closest encloser>`. */
  ghost function EncloserProbe(z: ZoneData, n: Name, t: RType): (r: (Option<seq<Record>>, bool))
    ensures r.0.Some? ==> r.1
  {
    match Encloser(z.origin, NodeNames(z), n)
    case None => (None, false)
    case Some(ce) => ProbeAt(z, ce, t)
  }

  /** What `*.<p>` holds of the type, and whether it exists. */
  function ProbeAt(z: ZoneData, p: Name, t: RType): (r: (Option<seq<Record>>, bool))
    ensures r.0.Some? ==> r.1
  {
    if p !in z.parents then (None, false)
    else (if (p, t) in z.wildcard then Some(z.wildcard[(p, t)]) else None, true)
  }

  /** The depths the bitmap window starts from: the parent's, or the root's own for the root. */
  function WindowStart(n: Name): nat {
    if n == [] then 0 else |n| - 1
  }

  ghost function Probe(z: ZoneData, rule: Rule, n: Name, t: RType): (r: (Option<seq<Record>>, bool))
    ensures r.0.Some? ==> r.1
  {
    match rule
    case DeepestWins => WalkFrom(z, n, t, WindowStart(n))
    case ClosestEncloser => EncloserProbe(z, n, t)
  }

  ghost predicate Exists(z: ZoneData, rule: Rule, n: Name) {
    n in z.names || Probe(z, rule, n, Any).1
  }

  function Reown(n: Name, records: seq<Record>): (r: seq<Record>)
    ensures |r| == |records|
    ensures forall i | 0 <= i < |r| :: r[i] == Record(n, records[i].ttl, records[i].data)
  {
    seq(|records|, i requires 0 <= i < |records| => Record(n, records[i].ttl, records[i].data))
  }

  /** A CNAME here answers for `t`: no RRset of the type itself, and one of CNAME. */
  predicate IsAlias(z: ZoneData, n: Name, t: RType) {
    InZone(z.origin, n) && t != Any && t != Cname && (n, t) !in z.exact && (n, Cname) in z.exact
  }

  /** The in-zone name an alias is chased to: its first CNAME's target. */
  function ChaseTarget(z: ZoneData, n: Name): Option<Name>
    requires (n, Cname) in z.exact
  {
    var cnames := z.exact[(n, Cname)];
    if cnames != [] && cnames[0].data.Alias? && InZone(z.origin, cnames[0].data.target)
    then Some(cnames[0].data.target) else None
  }

  /** What a name that is not an alias for `t` answers: no chase. */
  ghost function Direct(z: ZoneData, rule: Rule, n: Name, t: RType): Answer
    requires !IsAlias(z, n, t)
  {
    if !InZone(z.origin, n) then NxDomain
    else if t == Any then (if Exists(z, rule, n) then NoData else NxDomain)
    else if (n, t) in z.exact then Records(z.exact[(n, t)])
    else if n in z.names then NoData
    else
      var (found, covered) := Probe(z, rule, n, t);
      if found.Some? then Records(Reown(n, found.value))
      else if covered then NoData else NxDomain
  }

  /** `resolve`: the outcome, with the records it appends to the caller's list. */
  ghost function Resolve(z: ZoneData, rule: Rule, n: Name, t: RType, depth: nat): (r: Answer)
    decreases if depth < MAX_CNAME_DEPTH then MAX_CNAME_DEPTH - depth else 0
  {
    if !IsAlias(z, n, t) then Direct(z, rule, n, t)
    else
      var cnames := z.exact[(n, Cname)];
      if depth >= MAX_CNAME_DEPTH || ChaseTarget(z, n).None? then Records(cnames)
      else Records(cnames + RecordsOf(Resolve(z, rule, ChaseTarget(z, n).value, t, depth + 1)))
  }

  function RecordsOf(a: Answer): seq<Record> {
    match a case Records(rs) => rs case _ => []
  }

  ghost function Lookup(z: ZoneData, rule: Rule, n: Name, t: RType): Answer {
    Resolve(z, rule, n, t, 0)
  }

  // ------------------------------------------- the chase and its last answer

  /** The chase goes from `n` to another alias, within the depth limit. */
  predicate Continues(z: ZoneData, n: Name, t: RType, depth: nat)
    requires IsAlias(z, n, t)
  {
    depth < MAX_CNAME_DEPTH && ChaseTarget(z, n).Some? && IsAlias(z, ChaseTarget(z, n).value, t)
  }

  /** The CNAMEs a chase from `n` collects; they depend on no wildcard and on no rule. */
  function ChaseRecords(z: ZoneData, n: Name, t: RType, depth: nat): (rs: seq<Record>)
    requires IsAlias(z, n, t)
    ensures |rs| >= |z.exact[(n, Cname)]|
    decreases MAX_CNAME_DEPTH - depth
  {
    if Continues(z, n, t, depth)
    then z.exact[(n, Cname)] + ChaseRecords(z, ChaseTarget(z, n).value, t, depth + 1)
    else z.exact[(n, Cname)]
  }

  /** The last alias of the chase, and the depth it was reached at. */
  function ChaseEnd(z: ZoneData, n: Name, t: RType, depth: nat): (r: (Name, nat))
    requires IsAlias(z, n, t)
    ensures IsAlias(z, r.0, t) && !Continues(z, r.0, t, r.1)
    decreases MAX_CNAME_DEPTH - depth
  {
    if Continues(z, n, t, depth) then ChaseEnd(z, ChaseTarget(z, n).value, t, depth + 1) else (n, depth)
  }

  /** The name whose own answer the chase appends, if it gets that far. */
  function ChaseStop(z: ZoneData, n: Name, t: RType, depth: nat): (r: Option<Name>)
    requires IsAlias(z, n, t)
    ensures r.Some? ==> !IsAlias(z, r.value, t) && InZone(z.origin, r.value)
  {
    var (end, d) := ChaseEnd(z, n, t, depth);
    if d < MAX_CNAME_DEPTH then ChaseTarget(z, end) else None
  }

  /** What is appended after the CNAMEs. */
  ghost function ChaseTail(z: ZoneData, rule: Rule, n: Name, t: RType, depth: nat): seq<Record>
    requires IsAlias(z, n, t)
  {
    match ChaseStop(z, n, t, depth)
    case None => []
    case Some(u) => RecordsOf(Direct(z, rule, u, t))
  }

  lemma ChaseStops(z: ZoneData, rule: Rule, n: Name, t: RType, depth: nat)
    requires IsAlias(z, n, t) && !Continues(z, n, t, depth)
    ensures Resolve(z, rule, n, t, depth) == Records(ChaseRecords(z, n, t, depth) + ChaseTail(z, rule, n, t, depth))
  {
    assert z.exact[(n, Cname)] + [] == z.exact[(n, Cname)];
  }

  lemma ChaseGoesOn(z: ZoneData, rule: Rule, n: Name, t: RType, depth: nat)
    requires IsAlias(z, n, t) && Continues(z, n, t, depth)
    requires var u := ChaseTarget(z, n).value;
             Resolve(z, rule, u, t, depth + 1)
               == Records(ChaseRecords(z, u, t, depth + 1) + ChaseTail(z, rule, u, t, depth + 1))
    ensures Resolve(z, rule, n, t, depth) == Records(ChaseRecords(z, n, t, depth) + ChaseTail(z, rule, n, t, depth))
  {
    var u, cnames := ChaseTarget(z, n).value, z.exact[(n, Cname)];
    assert cnames + (ChaseRecords(z, u, t, depth + 1) + ChaseTail(z, rule, u, t, depth + 1))
        == (cnames + ChaseRecords(z, u, t, depth + 1)) + ChaseTail(z, rule, u, t, depth + 1);
  }

  /** Every lookup at an alias is its CNAME chase followed by one answer that involves no chase. */
  lemma {:induction false} ChaseFactors(z: ZoneData, rule: Rule, n: Name, t: RType, depth: nat)
    requires IsAlias(z, n, t)
    ensures Resolve(z, rule, n, t, depth) == Records(ChaseRecords(z, n, t, depth) + ChaseTail(z, rule, n, t, depth))
    decreases MAX_CNAME_DEPTH - depth
  {
    if Continues(z, n, t, depth) {
      ChaseFactors(z, rule, ChaseTarget(z, n).value, t, depth + 1);
      ChaseGoesOn(z, rule, n, t, depth);
    } else {
      ChaseStops(z, rule, n, t, depth);
    }
  }

  function Last(rs: seq<Record>): Record
    requires rs != []
  {
    rs[|rs| - 1]
  }

  /** The chase's records end with the last CNAME of the last alias. */
  lemma {:induction false} ChaseEndsOnAlias(z: ZoneData, n: Name, t: RType, depth: nat)
    requires NoEmptySets(z.exact) && IsAlias(z, n, t)
    ensures ChaseRecords(z, n, t, depth) != []
    ensures Last(ChaseRecords(z, n, t, depth)) == Last(z.exact[(ChaseEnd(z, n, t, depth).0, Cname)])
    decreases MAX_CNAME_DEPTH - depth
  {
    if Continues(z, n, t, depth) {
      ChaseEndsOnAlias(z, ChaseTarget(z, n).value, t, depth + 1);
    }
  }
}
