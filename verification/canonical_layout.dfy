/** The one pass over the sorted keys that finds, for every node, the zone cut at or above it. */
module CanonicalLayout {
  import opened Names
  import opened CanonicalKeys

  type Key = seq<Octet>

  datatype Cut = NoCut | CutAt(rank: nat)

  /** Sorted, and no two nodes share a key. */
  ghost predicate Sorted(keys: seq<Key>) {
    forall i, j | 0 <= i < j < |keys| :: Lex(keys[i], keys[j])
  }

  predicate IsStrictPrefix(parent: Key, child: Key) {
    parent < child
  }

  /** The NS targets a node declares, if it holds an NS RRset. */
  datatype Targets = NoNs | Servers(names: seq<Name>)

  /** Rank 0 is the apex and is never a cut, whatever NS records it owns. */
  predicate IsCut(ns: seq<Targets>, rank: nat)
    requires rank < |ns|
  {
    rank > 0 && ns[rank].Servers?
  }

  /** The servers of each cut below `n`. */
  function Delegations(ns: seq<Targets>, n: nat): map<nat, seq<Name>>
    requires n <= |ns|
  {
    map r: nat | r < n && IsCut(ns, r) :: ns[r].names
  }

  /** `c` is the deepest cut at or above the node, or there is none. */
  ghost predicate IsNearestCut(keys: seq<Key>, ns: seq<Targets>, rank: nat, c: Cut)
    requires rank < |keys| == |ns|
  {
    match c
    case NoCut => forall r | 0 <= r < |keys| && IsCut(ns, r) :: !(keys[r] <= keys[rank])
    case CutAt(at) =>
      && at < |keys| && IsCut(ns, at) && keys[at] <= keys[rank]
      && forall r | 0 <= r < |keys| && IsCut(ns, r) && keys[r] <= keys[rank] :: keys[r] <= keys[at]
  }

  // ----------------------------------------------------------- about prefixes

  lemma PrefixesNest(a: Key, b: Key, c: Key)
    requires a <= c && b <= c && |a| <= |b|
    ensures a <= b
  {
    assert a == c[..|a|] && b == c[..|b|];
  }

  /** Of the sorted keys, only earlier ones are strict prefixes. */
  lemma PrefixIsEarlier(keys: seq<Key>, i: nat, j: nat)
    requires Sorted(keys) && i < |keys| && j < |keys| && keys[i] <= keys[j]
    ensures i <= j
  {
    if j < i { PrefixIsNotAfter(keys[i], keys[j]); }
  }

  /** The keys that are prefixes of `keys[rank]` among the first `rank`. */
  ghost predicate OnPath(keys: seq<Key>, rank: nat, r: nat)
    requires rank < |keys|
  {
    r < rank && keys[r] <= keys[rank]
  }

  /** Whatever is not a prefix of the last key, nor that key itself, is no prefix of the next. */
  lemma LeavesThePath(keys: seq<Key>, rank: nat, r: nat)
    requires Sorted(keys) && r < rank && rank + 1 < |keys| && keys[r] <= keys[rank + 1]
    ensures keys[r] <= keys[rank]
  {
    PrefixIsConvex(keys[r], keys[r], keys[rank], keys[rank + 1]);
  }

  // ---------------------------------------------------------------- the pass

  predicate Increasing(stack: seq<nat>, bound: nat) {
    && (forall i, j | 0 <= i < j < |stack| :: stack[i] < stack[j])
    && (forall i | 0 <= i < |stack| :: stack[i] < bound)
  }

  /** The stack holds exactly the strict ancestors of the node, in order. */
  ghost predicate IsAncestry(keys: seq<Key>, stack: seq<nat>, rank: nat)
    requires rank < |keys|
  {
    && Increasing(stack, rank)
    && (forall r: nat :: r in stack <==> OnPath(keys, rank, r))
  }

  /** The stack holds, in order, the ranks whose keys are prefixes of the last one pushed, itself included. */
  ghost predicate Path(keys: seq<Key>, stack: seq<nat>, rank: nat)
    requires rank <= |keys|
  {
    && Increasing(stack, rank)
    && (rank > 0 ==> forall r: nat | r < rank :: r in stack <==> keys[r] <= keys[rank - 1])
  }

  /** Between pops: every strict prefix of the new key is still there, and the rest are prefixes of the last. */
  ghost predicate Popping(keys: seq<Key>, stack: seq<nat>, rank: nat)
    requires 0 < rank < |keys|
  {
    && Increasing(stack, rank)
    && (forall i | 0 <= i < |stack| :: keys[stack[i]] <= keys[rank - 1])
    && (forall r: nat | OnPath(keys, rank, r) :: r in stack)
  }

  lemma Pop(keys: seq<Key>, stack: seq<nat>, rank: nat)
    requires Sorted(keys) && 0 < rank < |keys| && Popping(keys, stack, rank) && stack != []
    requires !IsStrictPrefix(keys[stack[|stack| - 1]], keys[rank])
    ensures Popping(keys, stack[..|stack| - 1], rank)
  {
    var top, rest := stack[|stack| - 1], stack[..|stack| - 1];
    assert stack == rest + [top];
    forall r: nat | OnPath(keys, rank, r) ensures r in rest {
      assert Lex(keys[r], keys[rank]);
      LexTrichotomy(keys[r], keys[rank]);
      assert IsStrictPrefix(keys[r], keys[rank]);
    }
  }

  /** When the top is a strict prefix of the new key, so is all that is left. */
  lemma PoppedEnough(keys: seq<Key>, stack: seq<nat>, rank: nat)
    requires Sorted(keys) && 0 < rank < |keys| && Popping(keys, stack, rank)
    requires stack == [] || IsStrictPrefix(keys[stack[|stack| - 1]], keys[rank])
    ensures IsAncestry(keys, stack, rank)
  {
    forall r: nat | r in stack ensures OnPath(keys, rank, r) {
      var top := stack[|stack| - 1];
      if r != top {
        assert r < top;
        assert keys[r] <= keys[rank - 1] && keys[top] <= keys[rank - 1];
        if |keys[top]| < |keys[r]| {
          PrefixesNest(keys[top], keys[r], keys[rank - 1]);
          PrefixIsEarlier(keys, top, r);
        }
        PrefixesNest(keys[r], keys[top], keys[rank - 1]);
      }
    }
  }

  lemma StartPopping(keys: seq<Key>, stack: seq<nat>, rank: nat)
    requires Sorted(keys) && 0 < rank < |keys| && Path(keys, stack, rank)
    ensures Popping(keys, stack, rank)
  {
    forall r: nat | OnPath(keys, rank, r) ensures r in stack {
      if r < rank - 1 { LeavesThePath(keys, rank - 1, r); }
    }
  }

  /** The inner loop: leaves the strict ancestors of the new node, nearest on top. */
  method PopToParent(keys: seq<Key>, stack: seq<nat>, rank: nat) returns (ancestry: seq<nat>)
    requires Sorted(keys) && 0 < rank < |keys| && Path(keys, stack, rank)
    ensures IsAncestry(keys, ancestry, rank)
  {
    ancestry := stack;
    StartPopping(keys, stack, rank);
    while ancestry != [] && !IsStrictPrefix(keys[ancestry[|ancestry| - 1]], keys[rank])
      invariant Popping(keys, ancestry, rank)
      decreases |ancestry|
    {
      Pop(keys, ancestry, rank);
      ancestry := ancestry[..|ancestry| - 1];
    }
    PoppedEnough(keys, ancestry, rank);
  }

  lemma Pushed(keys: seq<Key>, ancestry: seq<nat>, rank: nat)
    requires rank < |keys| && IsAncestry(keys, ancestry, rank)
    ensures Path(keys, ancestry + [rank], rank + 1)
  {
    forall r: nat | r < rank + 1 ensures r in ancestry + [rank] <==> keys[r] <= keys[rank] {
      if r < rank { assert r in ancestry <==> OnPath(keys, rank, r); }
    }
  }

  /** A node that is no cut shares its parent's, which is the nearest at or above it. */
  lemma InheritsFromParent(keys: seq<Key>, ns: seq<Targets>, ancestry: seq<nat>, rank: nat, parentCut: Cut)
    requires Sorted(keys) && rank < |keys| == |ns| && !IsCut(ns, rank)
    requires IsAncestry(keys, ancestry, rank)
    requires if ancestry == [] then parentCut == NoCut else IsNearestCut(keys, ns, ancestry[|ancestry| - 1], parentCut)
    ensures IsNearestCut(keys, ns, rank, parentCut)
  {
    forall r | 0 <= r < |keys| && IsCut(ns, r) && keys[r] <= keys[rank]
      ensures ancestry != [] && keys[r] <= keys[ancestry[|ancestry| - 1]]
    {
      PrefixIsEarlier(keys, r, rank);
      ghost var at: nat := r;
      assert OnPath(keys, rank, at);
      var top := ancestry[|ancestry| - 1];
      assert OnPath(keys, rank, top);
      if |keys[top]| < |keys[r]| {
        PrefixesNest(keys[top], keys[r], keys[rank]);
        PrefixIsEarlier(keys, top, r);
      }
      PrefixesNest(keys[r], keys[top], keys[rank]);
    }
    if ancestry != [] { assert OnPath(keys, rank, ancestry[|ancestry| - 1]); }
  }

  lemma DelegationsNext(ns: seq<Targets>, rank: nat)
    requires rank < |ns|
    ensures Delegations(ns, rank + 1)
         == if IsCut(ns, rank) then Delegations(ns, rank)[rank := ns[rank].names] else Delegations(ns, rank)
  {
  }

  /** The parent's cut, which a node that is none shares; `NoCut` at the apex. */
  method Inherited(keys: seq<Key>, ns: seq<Targets>, ancestry: seq<nat>, rank: nat, cutOf: seq<Cut>) returns (cut: Cut)
    requires Sorted(keys) && rank < |keys| == |ns| && |cutOf| == rank && IsAncestry(keys, ancestry, rank)
    requires forall r | 0 <= r < rank :: IsNearestCut(keys, ns, r, cutOf[r])
    ensures !IsCut(ns, rank) ==> IsNearestCut(keys, ns, rank, cut)
  {
    cut := NoCut;
    if ancestry != [] {
      assert OnPath(keys, rank, ancestry[|ancestry| - 1]);
      cut := cutOf[ancestry[|ancestry| - 1]];
    }
    if !IsCut(ns, rank) { InheritsFromParent(keys, ns, ancestry, rank, cut); }
  }

  lemma CutsItself(keys: seq<Key>, ns: seq<Targets>, rank: nat)
    requires rank < |keys| == |ns| && IsCut(ns, rank)
    ensures IsNearestCut(keys, ns, rank, CutAt(rank))
  {
  }

  /** What a label says: whether a node holds NS at or above this one, the apex aside; and if any does, which is the deepest. */
  lemma LabelSays(keys: seq<Key>, ns: seq<Targets>, rank: nat, c: Cut)
    requires Sorted(keys) && rank < |keys| == |ns| && IsNearestCut(keys, ns, rank, c)
    ensures c == NoCut <==> forall r | 0 < r < |keys| && ns[r].Servers? :: !(keys[r] <= keys[rank])
    ensures c.CutAt? ==> 0 < c.rank < |keys| && ns[c.rank].Servers? && keys[c.rank] <= keys[rank]
    ensures c.CutAt? ==> forall r | 0 < r < |keys| && ns[r].Servers? && keys[r] <= keys[rank] :: keys[r] <= keys[c.rank]
    ensures rank == 0 ==> c == NoCut
  {
    if rank == 0 && c.CutAt? { PrefixIsEarlier(keys, c.rank, 0); }
  }

  /** Every node is labelled with the deepest cut at or above it, in one pass over the sorted order; the apex is none. */
  method CutPass(keys: seq<Key>, ns: seq<Targets>) returns (cutOf: seq<Cut>, delegations: map<nat, seq<Name>>)
    requires Sorted(keys) && |ns| == |keys|
    ensures forall r: nat :: r in delegations <==> 0 < r < |ns| && ns[r].Servers?
    ensures forall r | r in delegations :: delegations[r] == ns[r].names
    ensures |cutOf| == |keys| && forall rank | 0 <= rank < |keys| :: IsNearestCut(keys, ns, rank, cutOf[rank])
    ensures keys != [] ==> cutOf[0] == NoCut
    ensures forall rank | 0 <= rank < |keys| ::
              cutOf[rank] == NoCut <==> forall r | 0 < r < |keys| && ns[r].Servers? :: !(keys[r] <= keys[rank])
  {
    cutOf, delegations := [], map[];
    var stack: seq<nat> := [];
    for rank := 0 to |keys|
      invariant |cutOf| == rank && Path(keys, stack, rank) && delegations == Delegations(ns, rank)
      invariant forall r | 0 <= r < rank :: IsNearestCut(keys, ns, r, cutOf[r])
    {
      var ancestry: seq<nat> := [];
      if rank > 0 { ancestry := PopToParent(keys, stack, rank); }
      assert IsAncestry(keys, ancestry, rank);
      var cut := Inherited(keys, ns, ancestry, rank, cutOf);
      DelegationsNext(ns, rank);
      if rank > 0 && ns[rank].Servers? {
        CutsItself(keys, ns, rank);
        cut := CutAt(rank);
        delegations := delegations[rank := ns[rank].names];
      }
      Pushed(keys, ancestry, rank);
      cutOf := cutOf + [cut];
      stack := ancestry + [rank];
    }
    forall rank: nat | rank < |keys| { LabelSays(keys, ns, rank, cutOf[rank]); }
  }

  /** The name holds NS at its node, and is not the first, which is the apex. */
  predicate Delegated(names: seq<seq<Label>>, ns: seq<Targets>, r: nat)
    requires |names| == |ns|
  {
    0 < r < |names| && ns[r].Servers?
  }

  /** In terms of names: the label is the deepest name below the apex that holds NS at or above the node, if there is one. */
  lemma NearestCutByName(names: seq<seq<Label>>, keys: seq<Key>, ns: seq<Targets>, rank: nat, c: Cut)
    requires |names| == |keys| == |ns| && rank < |keys| && Sorted(keys)
    requires forall i | 0 <= i < |names| :: keys[i] == SortKey(names[i])
    requires IsNearestCut(keys, ns, rank, c)
    ensures c == NoCut <==> forall r: nat | Delegated(names, ns, r) :: !AtOrAbove(names[r], names[rank])
    ensures c.CutAt? ==> Delegated(names, ns, c.rank) && AtOrAbove(names[c.rank], names[rank])
    ensures c.CutAt? ==> forall r: nat | Delegated(names, ns, r) && AtOrAbove(names[r], names[rank]) :: AtOrAbove(names[r], names[c.rank])
    ensures rank == 0 ==> c == NoCut
  {
    LabelSays(keys, ns, rank, c);
    forall r: nat | r < |names| ensures AtOrAbove(names[r], names[rank]) <==> keys[r] <= keys[rank] {
      KeyPrefixIsAncestor(names[r], names[rank]);
    }
    if c.CutAt? {
      forall r: nat | r < |names| ensures AtOrAbove(names[r], names[c.rank]) <==> keys[r] <= keys[c.rank] {
        KeyPrefixIsAncestor(names[r], names[c.rank]);
      }
    }
  }
}
