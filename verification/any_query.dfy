/** The handler's replies above the zone lookup: REFUSED, the minimal ANY answer and the negative branches. */
module AnyQueries {
  import opened Names
  import opened ZoneModel
  import opened ZoneClosure
  import opened ZoneWildcard
  import ZoneSteps

  datatype Reply = Refused | NameError | EmptyAnswer | Found(records: seq<Record>)

  const HINFO_CODE := 13

  /** The one synthetic record of RFC 8482 section 4.2. */
  function MinimalAny(n: Name, ttl: nat): Record {
    Record(n, ttl, Opaque(HINFO_CODE, 0))
  }

  /** What a query outside the built-in sub-zones is answered, whichever branch it takes. */
  ghost function Respond(z: ZoneData, rule: Rule, soa: Record, ttl: nat, n: Name, t: RType): Reply {
    if !InZone(z.origin, n) then Refused
    else if t == Any then
      if !Exists(z, rule, n) then NameError
      else match Lookup(z, rule, n, Cname)
        case Records(cnames) => if cnames != [] then Found(cnames) else Found([MinimalAny(n, ttl)])
        case _ => Found([MinimalAny(n, ttl)])
    else if t == SOA && n == z.origin then Found([soa])
    else match Lookup(z, rule, n, t)
      case Records(records) => if records == [] then EmptyAnswer else Found(records)
      case NoData => EmptyAnswer
      case NxDomain => NameError
  }

  /** ANY denies exactly the names every other type denies (RFC 1034 section 4.3.2, RFC 8482 section 4). */
  lemma AnyDeniesWhatEveryTypeDenies(z: ZoneData, rule: Rule, soa: Record, ttl: nat, n: Name, t: RType)
    requires WellFormed(z) && z.origin in z.names
    ensures Respond(z, rule, soa, ttl, n, Any) == NameError <==> Respond(z, rule, soa, ttl, n, t) == NameError
  {
    if InZone(z.origin, n) {
      NameErrorIffAbsent(z, rule, n, t);
    }
  }

  /** A name that exists is never answered ANY with nothing. */
  lemma AnyFindsWhatExists(z: ZoneData, rule: Rule, soa: Record, ttl: nat, n: Name)
    requires InZone(z.origin, n)
    ensures Exists(z, rule, n) <==> Respond(z, rule, soa, ttl, n, Any).Found?
  {
  }

  lemma CnameAnswer(z: ZoneData, rule: Rule, n: Name)
    requires WellFormed(z) && InZone(z.origin, n) && Lookup(z, rule, n, Cname).Records?
    ensures var records := Lookup(z, rule, n, Cname).records; records != [] && forall x | x in records :: x.owner == n
  {
    if rule == DeepestWins { ZoneSteps.WalkFindsRecords(z, n, Cname, WindowStart(n)); }
  }

  /** It gets its CNAME RRset, as a CNAME query would, or the one HINFO; and nothing of any other owner. */
  lemma AnyFindsTheAlias(z: ZoneData, rule: Rule, soa: Record, ttl: nat, n: Name)
    requires WellFormed(z) && InZone(z.origin, n) && Exists(z, rule, n)
    ensures Respond(z, rule, soa, ttl, n, Any)
         == if Lookup(z, rule, n, Cname).Records? then Respond(z, rule, soa, ttl, n, Cname) else Found([Record(n, ttl, Opaque(13, 0))])
    ensures forall x | x in Respond(z, rule, soa, ttl, n, Any).records :: x.owner == n
  {
    AnyFindsWhatExists(z, rule, soa, ttl, n);
    if Lookup(z, rule, n, Cname).Records? { CnameAnswer(z, rule, n); }
  }

  /** Every other type: refused outside the zone, the zone's own SOA at its apex, and else exactly what the lookup finds. */
  lemma EveryOtherReply(z: ZoneData, rule: Rule, soa: Record, ttl: nat, n: Name, t: RType)
    requires t != Any
    ensures Respond(z, rule, soa, ttl, n, t) == Refused <==> !InZone(z.origin, n)
    ensures n == z.origin && t == Type(6) ==> Respond(z, rule, soa, ttl, n, t) == Found([soa])
    ensures InZone(z.origin, n) && !(n == z.origin && t == Type(6)) ==>
              match Respond(z, rule, soa, ttl, n, t)
              case NameError => Lookup(z, rule, n, t) == NxDomain
              case EmptyAnswer => Lookup(z, rule, n, t) == NoData || Lookup(z, rule, n, t) == Records([])
              case Found(records) => records != [] && Lookup(z, rule, n, t) == Records(records)
              case Refused => false
  {
    if n == z.origin { assert TrimTo(n, |n|) == n; }
  }

  /** Over every config that builds, closed under ancestry or not, and under both rules. */
  lemma AnyDenialOfEveryConfig(cfg: ZoneConfig, ents: seq<Name>, rule: Rule, soa: Record, ttl: nat, n: Name, t: RType)
    requires Build(cfg).Some? && ListsClosure(cfg, ents)
    ensures var b, a := Build(cfg).value, Materialise(Build(cfg).value, ents);
            && (Respond(b, rule, soa, ttl, n, Any) == NameError <==> Respond(b, rule, soa, ttl, n, t) == NameError)
            && (Respond(a, rule, soa, ttl, n, Any) == NameError <==> Respond(a, rule, soa, ttl, n, t) == NameError)
  {
    BuildWellFormed(cfg);
    ClosedZone(cfg, ents);
    AnyDeniesWhatEveryTypeDenies(Build(cfg).value, rule, soa, ttl, n, t);
    AnyDeniesWhatEveryTypeDenies(Materialise(Build(cfg).value, ents), rule, soa, ttl, n, t);
  }
}
