/** What a lookup answers, said of the records a zone holds: how far a chase goes, and what a name answers on its own. */
module ZoneAnswers {
  import opened Names
  import opened ZoneModel
  import opened FrozenZones

  // --------------------------------------------------------------- the chase

  /** An alias for `t`: in the zone, with no RRset of the type and one of CNAME. */
  predicate Aliased(z: ZoneData, n: Name, t: RType) {
    && |z.origin| <= |n| && n[|n| - |z.origin|..] == z.origin
    && t != Any && t != Cname && (n, t) !in z.exact && (n, Cname) in z.exact
  }

  /** Each name but the last is an alias whose first CNAME names the next. */
  ghost predicate Chain(z: ZoneData, names: seq<Name>, t: RType) {
    forall i | 0 <= i < |names| - 1 ::
      && Aliased(z, names[i], t)
      && z.exact[(names[i], Cname)] != [] && z.exact[(names[i], Cname)][0].data == Alias(names[i + 1])
  }

  /** The CNAMEs of some aliases, one name's after the other's. */
  function CnamesOf(z: ZoneData, names: seq<Name>): seq<Record> {
    if names == [] then []
    else (if (names[0], Cname) in z.exact then z.exact[(names[0], Cname)] else []) + CnamesOf(z, names[1..])
  }

  lemma AliasedIsAlias(z: ZoneData, n: Name, t: RType)
    ensures Aliased(z, n, t) == IsAlias(z, n, t)
  {
    if |z.origin| <= |n| {
      if |n| == |z.origin| { assert n[|n| - |z.origin|..] == n; }
    }
  }

  /** One link. */
  lemma Link(z: ZoneData, rule: Rule, names: seq<Name>, t: RType, depth: nat)
    requires |names| > 1 && Chain(z, names, t)
    ensures Chain(z, names[1..], t) && IsAlias(z, names[0], t)
    ensures Resolve(z, rule, names[0], t, depth)
         == Records(z.exact[(names[0], Cname)] + if depth < 8 then RecordsOf(Resolve(z, rule, names[1], t, depth + 1)) else [])
  {
    AliasedIsAlias(z, names[0], t);
    assert z.exact[(names[0], Cname)][0].data == Alias(names[1]);
    forall i | 0 <= i < |names[1..]| - 1
      ensures Aliased(z, names[1..][i], t) && z.exact[(names[1..][i], Cname)] != []
      ensures z.exact[(names[1..][i], Cname)][0].data == Alias(names[1..][i + 1])
    {
      assert names[1..][i] == names[i + 1];
    }
  }

  lemma CnamesCons(z: ZoneData, names: seq<Name>, k: nat)
    requires 1 <= k <= |names| && (names[0], Cname) in z.exact
    ensures CnamesOf(z, names[..k]) == z.exact[(names[0], Cname)] + CnamesOf(z, names[1..][..k - 1])
  {
    assert names[..k][1..] == names[1..][..k - 1];
  }

  /** The aliases' CNAMEs, and what comes after. */
  ghost predicate Goes(z: ZoneData, rule: Rule, names: seq<Name>, t: RType, depth: nat, rest: seq<Record>)
    requires names != []
  {
    RecordsOf(Resolve(z, rule, names[0], t, depth)) == CnamesOf(z, names[..|names| - 1]) + rest
  }

  lemma GoesOneBack(z: ZoneData, rule: Rule, names: seq<Name>, t: RType, depth: nat, rest: seq<Record>)
    requires |names| > 1 && Chain(z, names, t) && depth < 8 && Goes(z, rule, names[1..], t, depth + 1, rest)
    ensures Goes(z, rule, names, t, depth, rest)
  {
    Link(z, rule, names, t, depth);
    CnamesCons(z, names, |names| - 1);
  }

  lemma EndsAlone(z: ZoneData, rule: Rule, n: Name, t: RType, depth: nat)
    requires !Aliased(z, n, t)
    ensures Resolve(z, rule, n, t, depth) == Lookup(z, rule, n, t)
  {
    AliasedIsAlias(z, n, t);
  }

  lemma {:induction false} ChaseGoes(z: ZoneData, rule: Rule, names: seq<Name>, t: RType, depth: nat)
    requires names != [] && Chain(z, names, t) && !Aliased(z, names[|names| - 1], t) && |names| - 1 + depth <= 8
    ensures Goes(z, rule, names, t, depth, RecordsOf(Lookup(z, rule, names[|names| - 1], t)))
    decreases |names|
  {
    if |names| == 1 {
      EndsAlone(z, rule, names[0], t, depth);
    } else {
      Link(z, rule, names, t, depth);
      ChaseGoes(z, rule, names[1..], t, depth + 1);
      GoesOneBack(z, rule, names, t, depth, RecordsOf(Lookup(z, rule, names[|names| - 1], t)));
    }
  }

  lemma {:induction false} ChaseBreaksOff(z: ZoneData, rule: Rule, names: seq<Name>, t: RType, depth: nat)
    requires depth <= 8 && |names| + depth >= 10 && Chain(z, names, t)
    ensures RecordsOf(Resolve(z, rule, names[0], t, depth)) == CnamesOf(z, names[..9 - depth])
    decreases |names|
  {
    Link(z, rule, names, t, depth);
    CnamesCons(z, names, 9 - depth);
    if depth < 8 { ChaseBreaksOff(z, rule, names[1..], t, depth + 1); }
  }

  /** Up to eight aliases in a row: their CNAMEs, and then what the name they end at answers on its own. */
  lemma EightAliasesAreFollowed(z: ZoneData, rule: Rule, names: seq<Name>, t: RType)
    requires 2 <= |names| <= 9 && Chain(z, names, t) && !Aliased(z, names[|names| - 1], t)
    ensures Lookup(z, rule, names[0], t)
         == Records(CnamesOf(z, names[..|names| - 1]) + RecordsOf(Lookup(z, rule, names[|names| - 1], t)))
  {
    Link(z, rule, names, t, 0);
    ChaseGoes(z, rule, names, t, 0);
  }

  /** Nine or more, as in a loop: the CNAMEs of the first nine, and nothing else. */
  lemma TheNinthAliasIsTheLast(z: ZoneData, rule: Rule, names: seq<Name>, t: RType)
    requires |names| >= 10 && Chain(z, names, t)
    ensures Lookup(z, rule, names[0], t) == Records(CnamesOf(z, names[..9]))
  {
    Link(z, rule, names, t, 0);
    ChaseBreaksOff(z, rule, names, t, 0);
  }

  /** Where each alias has the one CNAME, as in every config that is served, there is one record for each. */
  lemma {:induction false} OneCnameEach(z: ZoneData, names: seq<Name>)
    requires forall n | n in names :: (n, Cname) in z.exact && |z.exact[(n, Cname)]| == 1
    ensures |CnamesOf(z, names)| == |names|
    ensures forall i | 0 <= i < |names| :: CnamesOf(z, names)[i] == z.exact[(names[i], Cname)][0]
  {
    if names != [] {
      OneCnameEach(z, names[1..]);
      assert z.exact[(names[0], Cname)] == [z.exact[(names[0], Cname)][0]];
    }
  }

  // ----------------------------------------------------- what a name is alone

  /** The proper ancestor of `d` labels, in the zone. */
  predicate Above(z: ZoneData, n: Name, d: nat) {
    |z.origin| <= d < |n|
  }

  predicate WildAt(z: ZoneData, n: Name, t: RType, d: nat) {
    Above(z, n, d) && (n[|n| - d..], t) in z.wildcard
  }

  predicate CoverAt(z: ZoneData, n: Name, d: nat) {
    Above(z, n, d) && n[|n| - d..] in z.parents
  }

  /** A name that exists: an ordinary one, or the asterisk of a wildcard parent. */
  predicate IsNode(z: ZoneData, x: seq<Label>) {
    Representable(x) && (x in z.names || (x != [] && x[0] == [42] && x[1..] in z.parents))
  }

  predicate NodeAt(z: ZoneData, n: Name, d: nat) {
    Above(z, n, d) && IsNode(z, n[|n| - d..])
  }

  /** The wildcard's records under the name that was asked for: same TTLs, same values, same order. */
  ghost predicate Synthesised(z: ZoneData, n: Name, t: RType, d: nat, rs: seq<Record>)
    requires WildAt(z, n, t, d)
  {
    var wild := z.wildcard[(n[|n| - d..], t)];
    |rs| == |wild| && forall i | 0 <= i < |rs| :: rs[i] == Record(n, wild[i].ttl, wild[i].data)
  }

  ghost predicate FromWildcard(z: ZoneData, n: Name, t: RType, d: nat, a: Answer) {
    WildAt(z, n, t, d) && a.Records? && Synthesised(z, n, t, d, a.records)
  }

  /** The deepest wildcard above that holds the type; failing that, whether there is one at all. */
  ghost predicate DeepestAnswers(z: ZoneData, n: Name, t: RType, a: Answer) {
    if exists d: nat :: WildAt(z, n, t, d)
    then exists d: nat :: FromWildcard(z, n, t, d, a) && forall e: nat | e > d :: !WildAt(z, n, t, e)
    else a == if exists d: nat :: CoverAt(z, n, d) then NoData else NxDomain
  }

  /** The wildcard at the deepest ancestor that exists, whatever is above it. */
  ghost predicate EncloserAnswers(z: ZoneData, n: Name, t: RType, a: Answer) {
    exists d: nat ::
      && NodeAt(z, n, d) && (forall e: nat | e > d :: !NodeAt(z, n, e))
      && if WildAt(z, n, t, d) then FromWildcard(z, n, t, d, a) else a == if CoverAt(z, n, d) then NoData else NxDomain
  }

  ghost predicate WildcardAnswers(z: ZoneData, rule: Rule, n: Name, t: RType, a: Answer) {
    match rule
    case DeepestWins => DeepestAnswers(z, n, t, a)
    case ClosestEncloser => EncloserAnswers(z, n, t, a)
  }

  /** What a name answers that is no alias for the type: its RRset as it stands, or that it exists, or its wildcard. */
  ghost predicate AnswersAlone(z: ZoneData, rule: Rule, n: Name, t: RType, a: Answer) {
    if !(|z.origin| <= |n| && n[|n| - |z.origin|..] == z.origin) then a == NxDomain
    else if (n, t) in z.exact then a == Records(z.exact[(n, t)])
    else if n in z.names then a == NoData
    else WildcardAnswers(z, rule, n, t, a)
  }

  lemma AncestorIsTrim(z: ZoneData, n: Name, t: RType, d: nat)
    requires WellFormed(z) && Above(z, n, d)
    ensures n[|n| - d..] == TrimTo(n, d)
    ensures WildAt(z, n, t, d) == TypedAt(z, n, t, d) && CoverAt(z, n, d) == ParentAt(z, n, d)
  {
  }

  lemma OutOfSight(z: ZoneData, n: Name)
    requires InZone(z.origin, n) && n != z.origin
    ensures |z.origin| < |n|
  {
  }

  /** The records found are the wildcard's, under the new name. */
  lemma ReownedIsSynthesised(z: ZoneData, n: Name, t: RType, d: nat, found: seq<Record>)
    requires WildAt(z, n, t, d) && found == z.wildcard[(n[|n| - d..], t)]
    ensures FromWildcard(z, n, t, d, Records(Reown(n, found)))
  {
  }

  lemma TypedIsWild(z: ZoneData, n: Name, t: RType, d: nat)
    requires WellFormed(z) && d < |n|
    ensures WildAt(z, n, t, d) <==> |z.origin| <= d && TypedAt(z, n, t, d)
  {
    if |z.origin| <= d { AncestorIsTrim(z, n, t, d); }
  }

  lemma WalkFindsRecords(z: ZoneData, n: Name, t: RType, found: seq<Record>)
    requires WellFormed(z) && |z.origin| < |n| && DeepestTyped(z, n, t, |n| - 1, Some(found))
    ensures DeepestAnswers(z, n, t, Records(Reown(n, found)))
  {
    var d: nat :| |z.origin| <= d <= |n| - 1 && TypedAt(z, n, t, d) && found == z.wildcard[(TrimTo(n, d), t)]
                  && forall k: nat | d < k <= |n| - 1 :: !TypedAt(z, n, t, k);
    TypedIsWild(z, n, t, d);
    forall e: nat | e > d ensures !WildAt(z, n, t, e) {
      if e < |n| { TypedIsWild(z, n, t, e); }
    }
    ReownedIsSynthesised(z, n, t, d, found);
  }

  lemma WalkFindsNone(z: ZoneData, n: Name, t: RType, covered: bool)
    requires WellFormed(z) && |z.origin| < |n| && DeepestTyped(z, n, t, |n| - 1, None)
    requires covered <==> SomeParent(z, n, |n| - 1)
    ensures DeepestAnswers(z, n, t, if covered then NoData else NxDomain)
  {
    forall d: nat ensures !WildAt(z, n, t, d) {
      if d < |n| { TypedIsWild(z, n, t, d); }
    }
    CoveredIffSomeParent(z, n);
  }

  lemma WalkAnswers(z: ZoneData, n: Name, t: RType)
    requires WellFormed(z) && |z.origin| < |n|
    ensures var (found, covered) := WalkFrom(z, n, t, |n| - 1);
            DeepestAnswers(z, n, t, if found.Some? then Records(Reown(n, found.value)) else if covered then NoData else NxDomain)
  {
    var (found, covered) := WalkFrom(z, n, t, |n| - 1);
    WalkIsDeepestTyped(z, n, t, |n| - 1);
    if found.Some? { WalkFindsRecords(z, n, t, found.value); } else { WalkFindsNone(z, n, t, covered); }
  }

  lemma CoveredIffSomeParent(z: ZoneData, n: Name)
    requires |z.origin| < |n|
    ensures SomeParent(z, n, |n| - 1) <==> exists d: nat :: CoverAt(z, n, d)
  {
    if SomeParent(z, n, |n| - 1) {
      var d: nat :| |z.origin| <= d <= |n| - 1 && ParentAt(z, n, d);
      assert CoverAt(z, n, d);
    }
    if d: nat :| CoverAt(z, n, d) { assert ParentAt(z, n, d); }
  }

  lemma NodeNamesAreNodes(z: ZoneData, x: Name)
    ensures x in NodeNames(z) <==> IsNode(z, x)
  {
    if x != [] && x[0] == [42] && x[1..] in z.parents {
      var p: Name := x[1..];
      assert [STAR] + p == x;
      StarsMember(z.parents, p);
    }
    if x in Stars(z.parents) {
      var p :| p in z.parents && HasStar(p) && StarOf(p) == x;
      assert x[1..] == p;
    }
  }

  lemma EncloserIsDeepestNode(z: ZoneData, n: Name)
    requires z.origin in z.names && InZone(z.origin, n) && |z.origin| < |n|
    ensures var ce := Encloser(z.origin, NodeNames(z), n);
            && ce.Some? && NodeAt(z, n, |ce.value|) && ce.value == n[|n| - |ce.value|..]
            && forall e: nat | e > |ce.value| :: !NodeAt(z, n, e)
  {
    var ce := Encloser(z.origin, NodeNames(z), n);
    assert TrimTo(n, |z.origin|) in NodeNames(z);
    NodeNamesAreNodes(z, ce.value);
    forall e: nat | e > |ce.value| ensures !NodeAt(z, n, e) {
      if e < |n| { NodeNamesAreNodes(z, TrimTo(n, e)); }
    }
  }

  lemma ProbeAnswers(z: ZoneData, n: Name, t: RType)
    requires WellFormed(z) && z.origin in z.names && InZone(z.origin, n) && |z.origin| < |n|
    ensures var (found, covered) := EncloserProbe(z, n, t);
            EncloserAnswers(z, n, t, if found.Some? then Records(Reown(n, found.value)) else if covered then NoData else NxDomain)
  {
    var (found, covered) := EncloserProbe(z, n, t);
    EncloserIsDeepestNode(z, n);
    var d := |Encloser(z.origin, NodeNames(z), n).value|;
    if found.Some? { ReownedIsSynthesised(z, n, t, d, found.value); }
  }

  lemma NoRecordOfAny(z: ZoneData, rule: Rule, n: Name)
    requires WellFormed(z) && n !in z.names && InZone(z.origin, n) && |z.origin| < |n|
    ensures Probe(z, rule, n, Any).0.None?
  {
    if rule.DeepestWins? { WalkIsDeepestTyped(z, n, Any, |n| - 1); }
  }

  /** Of every name that is no alias for the type, in every zone that is well formed and has its origin, under either rule. */
  lemma EveryNameAnswers(z: ZoneData, rule: Rule, n: Name, t: RType)
    requires WellFormed(z) && z.origin in z.names && !Aliased(z, n, t)
    ensures AnswersAlone(z, rule, n, t, Lookup(z, rule, n, t))
  {
    AliasedIsAlias(z, n, t);
    if InZone(z.origin, n) && n !in z.names {
      OutOfSight(z, n);
      if t == Any { NoRecordOfAny(z, rule, n); }
      match rule
      case DeepestWins => WalkAnswers(z, n, t);
      case ClosestEncloser => ProbeAnswers(z, n, t);
    }
  }
}
