/** The node set closed under ancestry: computed from the config, least, and what makes a search by depth sound. */
module ZoneClosure {
  import opened Names
  import opened U128
  import opened ZoneModel

  /** The node one record set declares; none when a wildcard has no room for its asterisk. */
  function SpecNode(origin: Name, spec: RecordSpec): Option<Name> {
    match Qualify(origin, OwnerLabel(spec))
    case None => None
    case Some(owner) =>
      if !IsWildcardSpec(spec) then Some(owner)
      else if HasStar(owner) then Some(StarOf(owner)) else None
  }

  function SpecNodes(origin: Name, specs: seq<RecordSpec>): set<Name> {
    if specs == [] then {origin}
    else
      var node := SpecNode(origin, specs[|specs| - 1]);
      SpecNodes(origin, specs[..|specs| - 1]) + if node.Some? then {node.value} else {}
  }

  function Declared(cfg: ZoneConfig): set<Name> {
    SpecNodes(cfg.origin, cfg.records)
  }

  predicate IsStrictAncestor(origin: Name, a: Name, n: Name) {
    |origin| <= |a| < |n| && TrimTo(n, |a|) == a
  }

  function Ancestors(origin: Name, n: Name): (r: set<Name>)
    ensures forall a :: a in r <==> IsStrictAncestor(origin, a, n)
  {
    var r := set d | |origin| <= d < |n| :: TrimTo(n, d);
    assert forall a | IsStrictAncestor(origin, a, n) :: TrimTo(n, |a|) in r;
    r
  }

  function AllAncestors(origin: Name, declared: set<Name>): (r: set<Name>)
    ensures forall a :: a in r <==> exists n :: n in declared && a in Ancestors(origin, n)
  {
    set n, a | n in declared && a in Ancestors(origin, n) :: a
  }

  /** The strict ancestors of `declared`, down to the origin's depth, that it does not already hold. */
  function Closure(origin: Name, declared: set<Name>): set<Name> {
    AllAncestors(origin, declared) - declared
  }

  /** The declared names, then each one's undeclared ancestors. */
  method AncestorClosure(cfg: ZoneConfig) returns (ents: set<Name>)
    ensures ents == Closure(cfg.origin, Declared(cfg))
  {
    var declared := DeclaredNodeNames(cfg);
    ents := {};
    var todo := declared;
    while todo != {}
      invariant todo <= declared
      invariant ents == AllAncestors(cfg.origin, declared - todo) - declared
    {
      var name :| name in todo;
      AllAncestorsGrow(cfg.origin, declared - todo, name);
      assert declared - (todo - {name}) == declared - todo + {name};
      todo := todo - {name};
      ents := AddAncestors(cfg.origin, declared, name, ents);
    }
    assert declared - {} == declared;
  }

  method DeclaredNodeNames(cfg: ZoneConfig) returns (declared: set<Name>)
    ensures declared == Declared(cfg)
  {
    declared := {cfg.origin};
    for i := 0 to |cfg.records|
      invariant declared == SpecNodes(cfg.origin, cfg.records[..i])
    {
      var node := SpecNode(cfg.origin, cfg.records[i]);
      if node.Some? { declared := declared + {node.value}; }
      assert cfg.records[..i + 1][..i] == cfg.records[..i];
    }
    assert cfg.records[..|cfg.records|] == cfg.records;
  }

  method AddAncestors(origin: Name, declared: set<Name>, name: Name, ents: set<Name>) returns (r: set<Name>)
    ensures r == ents + (Ancestors(origin, name) - declared)
  {
    r := ents;
    var d := |origin|;
    while d < |name|
      invariant |origin| <= d
      invariant r == ents + (AncestorsBelow(origin, name, d) - declared)
    {
      AncestorsBelowGrow(origin, name, d);
      var ancestor := TrimTo(name, d);
      if ancestor !in declared { r := r + {ancestor}; }
      d := d + 1;
    }
    assert AncestorsBelow(origin, name, d) == Ancestors(origin, name);
  }

  function AncestorsBelow(origin: Name, n: Name, d: nat): set<Name> {
    set a | a in Ancestors(origin, n) && |a| < d
  }

  lemma AncestorsBelowGrow(origin: Name, n: Name, d: nat)
    requires |origin| <= d < |n|
    ensures AncestorsBelow(origin, n, d + 1) == AncestorsBelow(origin, n, d) + {TrimTo(n, d)}
  {
    assert IsStrictAncestor(origin, TrimTo(n, d), n);
  }

  lemma AllAncestorsGrow(origin: Name, declared: set<Name>, n: Name)
    ensures AllAncestors(origin, declared + {n}) == AllAncestors(origin, declared) + Ancestors(origin, n)
  {
    forall a
      ensures a in AllAncestors(origin, declared + {n}) <==> a in AllAncestors(origin, declared) + Ancestors(origin, n)
    {
    }
  }

  // -------------------------------------------------------- the least closure

  /** In the zone, and closed under parent down to the origin. */
  ghost predicate Closed(origin: Name, nodes: set<Name>) {
    && (forall n | n in nodes :: InZone(origin, n))
    && (forall n {:trigger BaseName(n)} | n in nodes && |n| > |origin| :: BaseName(n) in nodes)
  }

  /** Existence is monotone in label depth: every ancestor of a node, down to the origin, is one. */
  lemma {:induction false} ClosedUnderTrim(origin: Name, nodes: set<Name>, n: Name, d: nat)
    requires Closed(origin, nodes) && n in nodes && |origin| <= d <= |n|
    ensures TrimTo(n, d) in nodes
    decreases |n|
  {
    if d < |n| {
      TrimTrim(n, |n| - 1, d);
      ClosedUnderTrim(origin, nodes, BaseName(n), d);
    }
  }

  lemma ParentOfAncestor(origin: Name, m: Name, n: Name)
    requires InZone(origin, n) && IsStrictAncestor(origin, m, n) && |m| > |origin|
    ensures IsStrictAncestor(origin, BaseName(m), n)
  {
    TrimTrim(n, |m|, |m| - 1);
  }

  lemma ClosureIsClosed(origin: Name, declared: set<Name>)
    requires forall n | n in declared :: InZone(origin, n)
    ensures Closed(origin, declared + Closure(origin, declared))
  {
    forall m | m in declared + Closure(origin, declared)
      ensures InZone(origin, m)
      ensures |m| > |origin| ==> BaseName(m) in declared + Closure(origin, declared)
    {
      if m in declared {
        if |m| > |origin| { assert IsStrictAncestor(origin, BaseName(m), m); }
      } else {
        var n :| n in declared && m in Ancestors(origin, n);
        TrimInZone(origin, n, |m|);
        if |m| > |origin| { ParentOfAncestor(origin, m, n); }
      }
    }
  }

  /** The closure is the least closed set that holds what the config declares. */
  lemma ClosureIsLeast(origin: Name, declared: set<Name>, nodes: set<Name>)
    requires Closed(origin, nodes) && declared <= nodes
    ensures declared + Closure(origin, declared) <= nodes
  {
    forall m | m in Closure(origin, declared) ensures m in nodes {
      var n :| n in declared && m in Ancestors(origin, n);
      ClosedUnderTrim(origin, nodes, n, |m|);
    }
  }

  // ------------------------------------------ the nodes a build ends up with

  lemma InsertSpecNodes(z: ZoneData, spec: RecordSpec, defaultTtl: nat)
    requires InsertSpec(z, spec, defaultTtl).Some?
    ensures var node := SpecNode(z.origin, spec);
            NodeNames(InsertSpec(z, spec, defaultTtl).value)
              == NodeNames(z) + if node.Some? then {node.value} else {}
  {
    var (k, records) := ParseSpec(z.origin, spec, defaultTtl).value;
    AddRecordsNodes(z, IsWildcardSpec(spec), k, records);
  }

  lemma AddRecordsNodes(z: ZoneData, wildcard: bool, k: Key, records: seq<Record>)
    ensures NodeNames(AddRecords(z, wildcard, k, records))
         == NodeNames(z) + if wildcard then StarIfAny(k.0) else {k.0}
  {
    LabelCeiling(k.0);
    StarsGrow(z.parents, k.0);
  }

  lemma {:induction false} InsertAllNodes(origin: Name, specs: seq<RecordSpec>, defaultTtl: nat)
    requires InsertAll(EmptyZone(origin), specs, defaultTtl).Some?
    ensures InsertAll(EmptyZone(origin), specs, defaultTtl).value.origin == origin
    ensures NodeNames(InsertAll(EmptyZone(origin), specs, defaultTtl).value) + {origin} == SpecNodes(origin, specs)
  {
    if specs != [] {
      var init := specs[..|specs| - 1];
      InsertAllNodes(origin, init, defaultTtl);
      InsertSpecNodes(InsertAll(EmptyZone(origin), init, defaultTtl).value, specs[|specs| - 1], defaultTtl);
    }
  }

  /** The build's nodes are exactly what the config declares. */
  lemma BuildNodes(cfg: ZoneConfig)
    requires Build(cfg).Some?
    ensures NodeNames(Build(cfg).value) == Declared(cfg)
  {
    InsertAllNodes(cfg.origin, cfg.records, cfg.defaultTtl);
  }

  lemma {:induction false} DeclaredInZone(origin: Name, specs: seq<RecordSpec>)
    ensures origin in SpecNodes(origin, specs)
    ensures forall n | n in SpecNodes(origin, specs) :: InZone(origin, n)
  {
    if specs != [] {
      DeclaredInZone(origin, specs[..|specs| - 1]);
      var spec := specs[|specs| - 1];
      if SpecNode(origin, spec).Some? && IsWildcardSpec(spec) {
        var owner := Qualify(origin, OwnerLabel(spec)).value;
        StarInZone(origin, owner);
      }
    }
  }

  lemma StarInZone(origin: Name, p: Name)
    requires InZone(origin, p) && HasStar(p)
    ensures InZone(origin, StarOf(p))
  {
    StarParts(p);
    TrimTrim(StarOf(p), |p|, |origin|);
  }

  /** The names the closure adds: in the zone, and never the origin. */
  ghost predicate ValidEnts(origin: Name, ents: seq<Name>) {
    forall e | e in ents :: InZone(origin, e) && e != origin
  }

  lemma MaterialiseOneNodes(z: ZoneData, ent: Name)
    ensures NodeNames(MaterialiseOne(z, ent)) == NodeNames(z) + {ent}
  {
    if IsWildcardName(ent) {
      LabelCeiling(BaseName(ent));
      WildcardIsStarOfBase(ent);
      StarsGrow(z.parents, BaseName(ent));
    }
  }

  lemma MaterialiseOneWellFormed(z: ZoneData, ent: Name)
    requires WellFormed(z) && InZone(z.origin, ent) && ent != z.origin
    ensures WellFormed(MaterialiseOne(z, ent))
  {
    if IsWildcardName(ent) {
      TrimInZone(z.origin, ent, |ent| - 1);
      AddParentWellFormed(z, BaseName(ent));
    }
  }

  /** Materialising touches no record, no count and no declared name. */
  lemma {:induction false} MaterialiseFrame(z: ZoneData, ents: seq<Name>)
    ensures var z' := Materialise(z, ents);
            && z'.origin == z.origin && z'.count == z.count && z'.exact == z.exact && z'.wildcard == z.wildcard
            && z.names <= z'.names <= z.names + (set e | e in ents) && z.parents <= z'.parents
  {
    if ents != [] { MaterialiseFrame(z, ents[..|ents| - 1]); }
  }

  /** It adds exactly the nodes it is given. */
  lemma {:induction false} MaterialiseNodes(z: ZoneData, ents: seq<Name>)
    ensures NodeNames(Materialise(z, ents)) == NodeNames(z) + (set e | e in ents)
  {
    if ents != [] {
      var init, last := ents[..|ents| - 1], ents[|ents| - 1];
      assert ents == init + [last];
      MaterialiseNodes(z, init);
      MaterialiseOneNodes(Materialise(z, init), last);
    }
  }

  lemma {:induction false} MaterialiseWellFormed(z: ZoneData, ents: seq<Name>)
    requires WellFormed(z) && ValidEnts(z.origin, ents)
    ensures WellFormed(Materialise(z, ents))
  {
    if ents != [] {
      var init := ents[..|ents| - 1];
      MaterialiseWellFormed(z, init);
      MaterialiseFrame(z, init);
      MaterialiseOneWellFormed(Materialise(z, init), ents[|ents| - 1]);
    }
  }

  /** `ents` lists the config's closure, in whatever order a hash set gives it up. */
  ghost predicate ListsClosure(cfg: ZoneConfig, ents: seq<Name>) {
    (set e | e in ents) == Closure(cfg.origin, Declared(cfg))
  }

  /** The zone both wildcard rules are compared over. */
  lemma ClosedZone(cfg: ZoneConfig, ents: seq<Name>)
    requires Build(cfg).Some? && ListsClosure(cfg, ents)
    ensures ValidEnts(cfg.origin, ents)
    ensures var z, z' := Build(cfg).value, Materialise(Build(cfg).value, ents);
            && WellFormed(z') && z'.origin == cfg.origin && cfg.origin in z'.names
            && NodeNames(z') == Declared(cfg) + Closure(cfg.origin, Declared(cfg))
            && Closed(cfg.origin, NodeNames(z'))
            && z'.exact == z.exact && z'.wildcard == z.wildcard && z'.count == z.count
  {
    BuildWellFormed(cfg);
    BuildNodes(cfg);
    DeclaredInZone(cfg.origin, cfg.records);
    ClosureIsClosed(cfg.origin, Declared(cfg));
    forall e | e in ents ensures InZone(cfg.origin, e) && e != cfg.origin {
      assert e in Closure(cfg.origin, Declared(cfg));
    }
    MaterialiseFrame(Build(cfg).value, ents);
    MaterialiseNodes(Build(cfg).value, ents);
    MaterialiseWellFormed(Build(cfg).value, ents);
  }

  // ---------------------------------------------- the build's own fast closure

  /** Every node below the origin's children has its parent, except those still to be climbed from. */
  ghost predicate ClosedBut(origin: Name, all: set<Name>, pending: set<Name>) {
    forall n {:trigger BaseName(n)} | n in all && |n| > |origin| + 1 && n !in pending :: BaseName(n) in all
  }

  /** Climbs from `start` to the first ancestor already held. */
  method Climb(origin: Name, held: set<Name>, ghost pending: set<Name>, ghost full: set<Name>, start: Name)
    returns (all: set<Name>)
    requires Closed(origin, full) && held <= full && start in held
    requires ClosedBut(origin, held, pending + {start})
    ensures held <= all <= full && ClosedBut(origin, all, pending)
  {
    all := held;
    var current := start;
    while |current| > |origin| + 1
      invariant held <= all <= full && current in all && ClosedBut(origin, all, pending + {current})
      decreases |current|
    {
      var parent := BaseName(current);
      if parent in all { break; }
      all := all + {parent};
      current := parent;
    }
  }

  /** The build's own closure: climb from each deep node, stopping early, and nothing is missed. */
  method CloseByClimbing(origin: Name, nodes: set<Name>) returns (all: set<Name>)
    requires origin in nodes && forall n | n in nodes :: InZone(origin, n)
    ensures all == nodes + Closure(origin, nodes)
  {
    ghost var full := nodes + Closure(origin, nodes);
    ClosureIsClosed(origin, nodes);
    all := nodes;
    var pending := set n | n in nodes && |n| > |origin| + 1;
    while pending != {}
      invariant pending <= nodes <= all <= full && ClosedBut(origin, all, pending)
    {
      var start :| start in pending;
      pending := pending - {start};
      all := Climb(origin, all, pending, full, start);
    }
    ClosedButNothing(origin, all, full);
    ClosureIsLeast(origin, nodes, all);
  }

  lemma ClosedButNothing(origin: Name, all: set<Name>, full: set<Name>)
    requires ClosedBut(origin, all, {}) && origin in all && all <= full && Closed(origin, full)
    ensures Closed(origin, all)
  {
    forall n | n in all && |n| > |origin| ensures BaseName(n) in all {
      assert InZone(origin, n);
    }
  }

  // --------------------------------------------------- the search by bisection

  /** Where the count-down search stops is the one boundary between names that exist and names that do not. */
  lemma EncloserIsTheBoundary(origin: Name, nodes: set<Name>, n: Name, d: nat)
    requires Closed(origin, nodes) && origin in nodes && InZone(origin, n) && |origin| <= d < |n|
    ensures Encloser(origin, nodes, n).Some?
    ensures TrimTo(n, d) in nodes <==> d <= |Encloser(origin, nodes, n).value|
  {
    assert TrimTo(n, |origin|) in nodes;
    var ce := Encloser(origin, nodes, n).value;
    if d <= |ce| {
      ClosedUnderTrim(origin, nodes, ce, d);
      TrimTrim(n, |ce|, d);
    }
  }

  lemma OutsiderHasNoAncestorNode(origin: Name, nodes: set<Name>, n: Name, d: nat)
    requires Closed(origin, nodes) && !InZone(origin, n) && d >= |origin|
    ensures TrimTo(n, d) !in nodes
  {
    if TrimTo(n, d) in nodes { TrimTrim(n, d, |origin|); }
  }

  /** The node set cannot be deeper than `maxDepth`, which the search's window is clamped to. */
  ghost predicate DepthBounds(nodes: set<Name>, maxDepth: nat) {
    maxDepth <= MAX_LABELS && forall n | n in nodes :: |n| <= maxDepth
  }

  /** Above the floor, a node is found at depth `d` exactly when `d` is at most `ce`. */
  ghost predicate BoundaryAt(nodes: set<Name>, n: Name, floor: nat, ceiling: nat, ce: nat) {
    forall d | floor < d <= ceiling :: TrimTo(n, d) in nodes <==> d <= ce
  }

  /** The bisection itself, over a window known to exist at its floor and not above its ceiling. */
  method Bisect(nodes: set<Name>, n: Name, floor: nat, ceiling: nat, ghost ce: nat)
    returns (low: nat, ghost probes: nat)
    requires floor <= ce <= ceiling <= floor + 127 && BoundaryAt(nodes, n, floor, ceiling, ce)
    ensures low == ce && probes <= 7
  {
    low := floor;
    var high := ceiling;
    probes := 0;
    assert Pow2(7) == 128;
    while low < high
      invariant floor <= low <= ce <= high <= ceiling
      invariant probes <= 7 && high - low < Pow2(7 - probes)
    {
      var mid := low + (high - low + 1) / 2;
      probes := probes + 1;
      if TrimTo(n, mid) in nodes { low := mid; } else { high := mid - 1; }
    }
  }

  /** The closest encloser's depth; the origin's own for a name that is not strictly below the origin. */
  ghost predicate IsEncloserDepth(origin: Name, nodes: set<Name>, n: Name, d: nat) {
    if InZone(origin, n) && n != origin then Encloser(origin, nodes, n) == Some(TrimTo(n, d)) else d == |origin|
  }

  /** Finds the depth of the closest encloser in at most eight probes; the origin's depth when there is none. */
  method BisectEncloser(origin: Name, nodes: set<Name>, maxDepth: nat, n: Name) returns (low: nat, ghost probes: nat)
    requires Closed(origin, nodes) && origin in nodes && DepthBounds(nodes, maxDepth)
    ensures IsEncloserDepth(origin, nodes, n, low)
    ensures probes <= 8
  {
    LabelCeiling(n);
    var floor := |origin|;
    var ceiling := if |n| == 0 then 0 else |n| - 1;
    if maxDepth < ceiling { ceiling := maxDepth; }
    ghost var ce := BoundaryExists(origin, nodes, n, ceiling);
    if ceiling <= floor {
      return floor, 0;
    }
    if TrimTo(n, ceiling) in nodes {
      return ceiling, 1;
    }
    low, probes := Bisect(nodes, n, floor, ceiling - 1, ce);
    probes := probes + 1;
  }

  lemma BoundaryExists(origin: Name, nodes: set<Name>, n: Name, ceiling: nat) returns (ce: nat)
    requires Closed(origin, nodes) && origin in nodes
    requires ceiling <= (if |n| == 0 then 0 else |n| - 1)
    requires forall m | m in nodes && |m| < |n| :: |m| <= ceiling
    ensures IsEncloserDepth(origin, nodes, n, ce)
    ensures ce == |origin| || |origin| <= ce <= ceiling
    ensures BoundaryAt(nodes, n, |origin|, ceiling, ce)
  {
    ce := |origin|;
    if InZone(origin, n) && n != origin {
      EncloserIsTheBoundary(origin, nodes, n, |origin|);
      ce := |Encloser(origin, nodes, n).value|;
      forall d | |origin| < d <= ceiling ensures TrimTo(n, d) in nodes <==> d <= ce {
        EncloserIsTheBoundary(origin, nodes, n, d);
      }
    } else if !InZone(origin, n) {
      forall d | |origin| < d <= ceiling ensures TrimTo(n, d) !in nodes {
        OutsiderHasNoAncestorNode(origin, nodes, n, d);
      }
    }
  }
}
