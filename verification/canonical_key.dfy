/** The canonical name order of RFC 4034 section 6.1, as a byte key that sorts by plain comparison. */
module CanonicalKeys {
  import opened Names

  const LABEL_END: seq<Octet> := [0, 0]
  const ESCAPED_NUL: seq<Octet> := [0, 1]

  function ToLower(o: Octet): Octet {
    if 65 <= o <= 90 then o + 32 else o
  }

  const CAPITALS := "ABCDEFGHIJKLMNOPQRSTUVWXYZ"
  const SMALL_LETTERS := "abcdefghijklmnopqrstuvwxyz"

  lemma LetterAt(i: nat)
    requires i < 26
    ensures CAPITALS[i] as int == 65 + i && SMALL_LETTERS[i] as int == 97 + i
  {
  }

  /** Case is that of the 26 letters of US-ASCII and nothing else (RFC 4034 section 6.2). */
  lemma CaseIsOfTheAlphabet(o: Octet)
    ensures forall i | 0 <= i < 26 && CAPITALS[i] as int == o :: ToLower(o) == SMALL_LETTERS[i] as int
    ensures (forall i | 0 <= i < 26 :: CAPITALS[i] as int != o) ==> ToLower(o) == o
  {
    forall i | 0 <= i < 26 ensures CAPITALS[i] as int == 65 + i && SMALL_LETTERS[i] as int == 97 + i { LetterAt(i); }
    assert 65 <= o <= 90 ==> CAPITALS[o - 65] as int == o;
  }

  function LowerLabel(l: Label): (r: Label)
    ensures |r| == |l|
  {
    if l == [] then [] else [ToLower(l[0])] + LowerLabel(l[1..])
  }

  function Escape(o: Octet): seq<Octet> {
    if o == 0 then ESCAPED_NUL else [o]
  }

  function Content(l: Label): seq<Octet> {
    if l == [] then [] else Escape(ToLower(l[0])) + Content(l[1..])
  }

  function LabelKey(l: Label): seq<Octet> {
    Content(l) + LABEL_END
  }

  /** Labels outwards from the root: rightmost first. */
  function SortKey(labels: seq<Label>): seq<Octet> {
    if labels == [] then [] else LabelKey(labels[|labels| - 1]) + SortKey(labels[..|labels| - 1])
  }

  lemma OneLabelMore(labels: seq<Label>, i: nat, before: seq<Octet>)
    requires i < |labels|
    ensures before + SortKey(labels[..i + 1]) == (before + LabelKey(labels[i])) + SortKey(labels[..i])
  {
    assert labels[..i + 1][..i] == labels[..i];
  }

  // -------------------------------------------------------------- the writer

  /** The buffer a whole build shares. */
  class KeyBuffer {
    var bytes: seq<Octet>

    constructor ()
      ensures bytes == []
    {
      bytes := [];
    }

    method Push(octet: Octet)
      modifies this
      ensures bytes == old(bytes) + [octet]
    {
      bytes := bytes + [octet];
    }

    method ExtendFromSlice(octets: seq<Octet>)
      modifies this
      ensures bytes == old(bytes) + octets
    {
      bytes := bytes + octets;
    }

    /** Appends the key of the name and touches nothing already in the buffer. */
    method WriteCanonicalSortKey(labels: seq<Label>)
      modifies this
      ensures bytes == old(bytes) + SortKey(labels)
    {
      assert labels[..|labels|] == labels;
      for i := |labels| downto 0
        invariant bytes + SortKey(labels[..i]) == old(bytes) + SortKey(labels)
      {
        ghost var before := bytes;
        WriteLabel(labels[i]);
        OneLabelMore(labels, i, before);
      }
    }

    method WriteLabel(l: Label)
      modifies this
      ensures bytes == old(bytes) + LabelKey(l)
    {
      assert l[0..] == l;
      for i := 0 to |l|
        invariant bytes + Content(l[i..]) == old(bytes) + Content(l)
      {
        ghost var before := bytes;
        var octet := ToLower(l[i]);
        if octet == 0 { ExtendFromSlice(ESCAPED_NUL); } else { Push(octet); }
        assert l[i..][1..] == l[i + 1..];
        assert bytes + Content(l[i + 1..]) == before + (Escape(octet) + Content(l[i + 1..]));
      }
      assert l[|l|..] == [] && bytes + [] == bytes;
      ExtendFromSlice(LABEL_END);
      assert (old(bytes) + Content(l)) + LABEL_END == old(bytes) + (Content(l) + LABEL_END);
    }
  }

  // ------------------------------------------------------- the two orderings

  /** Octet strings left-justified: the absence of an octet sorts first. */
  predicate Lex(a: seq<Octet>, b: seq<Octet>) {
    if a == [] then b != []
    else if b == [] then false
    else if a[0] != b[0] then a[0] < b[0]
    else Lex(a[1..], b[1..])
  }

  /** RFC 4034 section 6.1: compare lowercased labels, the rightmost most significant. */
  predicate CanonicalLess(a: seq<Label>, b: seq<Label>) {
    if a == [] then b != []
    else if b == [] then false
    else
      var x, y := LowerLabel(a[|a| - 1]), LowerLabel(b[|b| - 1]);
      if x != y then Lex(x, y) else CanonicalLess(a[..|a| - 1], b[..|b| - 1])
  }

  predicate SameName(a: seq<Label>, b: seq<Label>) {
    |a| == |b| && forall i | 0 <= i < |a| :: LowerLabel(a[i]) == LowerLabel(b[i])
  }

  /** `p` is `n` or an ancestor of it, ignoring case. */
  predicate AtOrAbove(p: seq<Label>, n: seq<Label>) {
    |p| <= |n| && SameName(p, n[|n| - |p|..])
  }

  // ------------------------------------------------------------ one label in

  lemma LexSameHead(h: Octet, a: seq<Octet>, b: seq<Octet>)
    ensures Lex([h] + a, [h] + b) <==> Lex(a, b)
    ensures [h] + a <= [h] + b <==> a <= b
    ensures [h] + a == [h] + b <==> a == b
  {
    assert ([h] + a)[1..] == a && ([h] + b)[1..] == b;
    if [h] + a <= [h] + b { assert a == b[..|a|]; }
    if a <= b { assert [h] + a == ([h] + b)[..|a| + 1]; }
  }

  /** How two keys compare is how the octets that start them compare. */
  lemma LexByEscape(x: Octet, y: Octet, a: seq<Octet>, b: seq<Octet>)
    ensures x != y ==> (Lex(Escape(x) + a, Escape(y) + b) <==> x < y)
    ensures x != y ==> !(Escape(x) + a <= Escape(y) + b)
    ensures x == y ==> (Lex(Escape(x) + a, Escape(y) + b) <==> Lex(a, b))
    ensures x == y ==> (Escape(x) + a <= Escape(y) + b <==> a <= b)
  {
    if x == y {
      if x == 0 {
        assert Escape(0) + a == [0] + ([1] + a) && Escape(0) + b == [0] + ([1] + b);
        LexSameHead(0, [1] + a, [1] + b);
        LexSameHead(1, a, b);
      } else {
        LexSameHead(x, a, b);
      }
    }
  }

  /** The terminator sorts below every octet a label can go on with, NUL included. */
  lemma LexByEnd(y: Octet, a: seq<Octet>, b: seq<Octet>)
    ensures Lex(LABEL_END + a, Escape(y) + b) && !Lex(Escape(y) + b, LABEL_END + a)
    ensures !(LABEL_END + a <= Escape(y) + b) && !(Escape(y) + b <= LABEL_END + a)
  {
    if y == 0 {
      assert LABEL_END + a == [0] + ([0] + a) && Escape(0) + b == [0] + ([1] + b);
      LexSameHead(0, [0] + a, [1] + b);
      LexSameHead(0, [1] + b, [0] + a);
    }
  }

  ghost predicate LabelOrder(x: Label, y: Label, a: seq<Octet>, b: seq<Octet>) {
    var lx, ly := LowerLabel(x), LowerLabel(y);
    && (lx != ly ==> (Lex(LabelKey(x) + a, LabelKey(y) + b) <==> Lex(lx, ly)))
    && (lx != ly ==> !(LabelKey(x) + a <= LabelKey(y) + b))
    && (lx == ly ==> (Lex(LabelKey(x) + a, LabelKey(y) + b) <==> Lex(a, b)))
    && (lx == ly ==> (LabelKey(x) + a <= LabelKey(y) + b <==> a <= b))
  }

  /** A label's key, whatever follows: it decides the comparison unless the labels are one label. */
  lemma {:induction false} LabelKeyOrder(x: Label, y: Label, a: seq<Octet>, b: seq<Octet>)
    ensures LabelOrder(x, y, a, b)
    decreases |x|
  {
    if x == [] && y == [] {
      LabelOrderEnds(a, b);
    } else if x == [] {
      LabelOrderShorter(y, a, b);
    } else if y == [] {
      LabelOrderLonger(x, a, b);
    } else {
      LabelKeyOrder(x[1..], y[1..], a, b);
      LabelOrderCons(x, y, a, b);
    }
  }

  lemma LabelOrderEnds(a: seq<Octet>, b: seq<Octet>)
    ensures LabelOrder([], [], a, b)
  {
    assert LabelKey([]) + a == [0] + ([0] + a) && LabelKey([]) + b == [0] + ([0] + b);
    LexSameHead(0, [0] + a, [0] + b);
    LexSameHead(0, a, b);
  }

  lemma LabelOrderShorter(y: Label, a: seq<Octet>, b: seq<Octet>)
    requires y != []
    ensures LabelOrder([], y, a, b)
  {
    LabelKeyCons(y, b);
    LexByEnd(ToLower(y[0]), a, LabelKey(y[1..]) + b);
  }

  lemma LabelOrderLonger(x: Label, a: seq<Octet>, b: seq<Octet>)
    requires x != []
    ensures LabelOrder(x, [], a, b)
  {
    LabelKeyCons(x, a);
    LexByEnd(ToLower(x[0]), b, LabelKey(x[1..]) + a);
  }

  lemma LabelKeyCons(x: Label, a: seq<Octet>)
    requires x != []
    ensures LabelKey(x) + a == Escape(ToLower(x[0])) + (LabelKey(x[1..]) + a)
    ensures LowerLabel(x) == [ToLower(x[0])] + LowerLabel(x[1..])
  {
  }

  lemma LabelOrderCons(x: Label, y: Label, a: seq<Octet>, b: seq<Octet>)
    requires x != [] && y != [] && LabelOrder(x[1..], y[1..], a, b)
    ensures LabelOrder(x, y, a, b)
  {
    var ox, oy, a', b' := ToLower(x[0]), ToLower(y[0]), LabelKey(x[1..]) + a, LabelKey(y[1..]) + b;
    LabelKeyCons(x, a);
    LabelKeyCons(y, b);
    LexByEscape(ox, oy, a', b');
    if ox == oy {
      LexSameHead(ox, LowerLabel(x[1..]), LowerLabel(y[1..]));
    } else {
      assert LowerLabel(x)[0] != LowerLabel(y)[0];
    }
  }

  // ------------------------------------------------------------ the theorems

  /** Byte order of the keys is canonical order of the names, for every label list over every octet. */
  lemma {:induction false} KeyOrderIsCanonicalOrder(a: seq<Label>, b: seq<Label>)
    ensures Lex(SortKey(a), SortKey(b)) <==> CanonicalLess(a, b)
  {
    if a != [] && b != [] {
      var a', b' := a[..|a| - 1], b[..|b| - 1];
      LabelKeyOrder(a[|a| - 1], b[|b| - 1], SortKey(a'), SortKey(b'));
      KeyOrderIsCanonicalOrder(a', b');
    }
  }

  lemma AtOrAboveStep(p: seq<Label>, n: seq<Label>)
    requires p != [] && n != []
    ensures AtOrAbove(p, n) <==> LowerLabel(p[|p| - 1]) == LowerLabel(n[|n| - 1]) && AtOrAbove(p[..|p| - 1], n[..|n| - 1])
  {
    if |p| <= |n| {
      var t, t' := n[|n| - |p|..], n[..|n| - 1][|n| - |p|..];
      assert t[..|p| - 1] == t' && t[|p| - 1] == n[|n| - 1];
      assert forall i | 0 <= i < |p| - 1 :: p[..|p| - 1][i] == p[i] && t'[i] == t[i];
    }
  }

  /** One key is a prefix of another exactly when its name is the other or an ancestor of it. */
  lemma {:induction false} KeyPrefixIsAncestor(p: seq<Label>, n: seq<Label>)
    ensures SortKey(p) <= SortKey(n) <==> AtOrAbove(p, n)
  {
    if p != [] && n != [] {
      var p', n' := p[..|p| - 1], n[..|n| - 1];
      LabelKeyOrder(p[|p| - 1], n[|n| - 1], SortKey(p'), SortKey(n'));
      KeyPrefixIsAncestor(p', n');
      AtOrAboveStep(p, n);
    }
  }

  /** Two spellings of one name have one key, and no two names share one. */
  lemma KeyEqualIffSameName(a: seq<Label>, b: seq<Label>)
    ensures SortKey(a) == SortKey(b) <==> SameName(a, b)
  {
    KeyPrefixIsAncestor(a, b);
    KeyPrefixIsAncestor(b, a);
    assert b[0..] == b && a[0..] == a;
    if SameName(a, b) {
      assert SameName(b, a);
      assert SortKey(a) <= SortKey(b) && SortKey(b) <= SortKey(a);
    }
  }

  lemma {:induction false} LexTransitive(a: seq<Octet>, b: seq<Octet>, c: seq<Octet>)
    requires Lex(a, b) && Lex(b, c)
    ensures Lex(a, c)
  {
    if a != [] && a[0] == b[0] == c[0] { LexTransitive(a[1..], b[1..], c[1..]); }
  }

  lemma {:induction false} LexTrichotomy(a: seq<Octet>, b: seq<Octet>)
    ensures (Lex(a, b) && a != b && !Lex(b, a)) || (Lex(b, a) && a != b && !Lex(a, b)) || (a == b && !Lex(a, b) && !Lex(b, a))
  {
    if a != [] && b != [] && a[0] == b[0] {
      LexTrichotomy(a[1..], b[1..]);
      assert a == [a[0]] + a[1..] && b == [b[0]] + b[1..];
    }
  }

  /** What starts with a prefix is a contiguous stretch of byte order. */
  lemma {:induction false} PrefixIsConvex(p: seq<Octet>, a: seq<Octet>, b: seq<Octet>, c: seq<Octet>)
    requires p <= a && p <= c && Lex(a, b) && Lex(b, c)
    ensures p <= b
  {
    if p != [] {
      assert p[0] == a[0] == c[0] && b[0] == p[0];
      assert p[1..] <= a[1..] && p[1..] <= c[1..];
      PrefixIsConvex(p[1..], a[1..], b[1..], c[1..]);
    }
  }

  /** Canonical order is a strict total order on names up to case. */
  lemma CanonicalOrderIsTotal(a: seq<Label>, b: seq<Label>, c: seq<Label>)
    ensures CanonicalLess(a, b) && CanonicalLess(b, c) ==> CanonicalLess(a, c)
    ensures !(CanonicalLess(a, b) && CanonicalLess(b, a))
    ensures CanonicalLess(a, b) || CanonicalLess(b, a) <==> !SameName(a, b)
  {
    KeyOrderIsCanonicalOrder(a, b);
    KeyOrderIsCanonicalOrder(b, c);
    KeyOrderIsCanonicalOrder(a, c);
    KeyOrderIsCanonicalOrder(b, a);
    LexTrichotomy(SortKey(a), SortKey(b));
    KeyEqualIffSameName(a, b);
    if Lex(SortKey(a), SortKey(b)) && Lex(SortKey(b), SortKey(c)) {
      LexTransitive(SortKey(a), SortKey(b), SortKey(c));
    }
  }

  /** Every subtree is one run of the sorted order, and starts with its own top. */
  lemma SubtreeIsContiguous(top: seq<Label>, a: seq<Label>, b: seq<Label>, c: seq<Label>)
    requires AtOrAbove(top, a) && AtOrAbove(top, c) && CanonicalLess(a, b) && CanonicalLess(b, c)
    ensures AtOrAbove(top, b) && !CanonicalLess(a, top)
  {
    KeyPrefixIsAncestor(top, a);
    KeyPrefixIsAncestor(top, b);
    KeyPrefixIsAncestor(top, c);
    KeyOrderIsCanonicalOrder(a, b);
    KeyOrderIsCanonicalOrder(b, c);
    KeyOrderIsCanonicalOrder(a, top);
    PrefixIsConvex(SortKey(top), SortKey(a), SortKey(b), SortKey(c));
    PrefixIsNotAfter(SortKey(top), SortKey(a));
  }

  lemma {:induction false} PrefixIsNotAfter(p: seq<Octet>, a: seq<Octet>)
    requires p <= a
    ensures !Lex(a, p)
  {
    if p != [] {
      assert p[1..] <= a[1..];
      PrefixIsNotAfter(p[1..], a[1..]);
    }
  }
}
