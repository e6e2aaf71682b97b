/** Domain names as the lookup sees them: lowercased labels, leftmost first, the root label implied. */
module Names {

  type Octet = x: int | 0 <= x < 256
  type Label = seq<Octet>

  /** The label `*` (RFC 4592 section 2.1.1). */
  const STAR: Label := [42]

  /** RFC 1035 section 2.3.4 caps a name at 255 octets; see `LabelCeiling`. */
  const MAX_LABELS := 127

  /** Octets on the wire, uncompressed: a length octet per label and the root octet. */
  function WireLen(labels: seq<Label>): (n: nat) {
    if labels == [] then 1 else 1 + |labels[0]| + WireLen(labels[1..])
  }

  predicate Representable(labels: seq<Label>) {
    LabelsFit(labels) && WireLen(labels) <= 255
  }

  predicate LabelsFit(labels: seq<Label>) {
    labels == [] || (1 <= |labels[0]| <= 63 && LabelsFit(labels[1..]))
  }

  /** RFC 1035 section 2.3.4: labels of 1 to 63 octets, and 255 octets on the wire in all, a length octet each and the root's. */
  lemma {:induction false} RepresentableIff(labels: seq<Label>)
    ensures LabelsFit(labels) <==> forall i | 0 <= i < |labels| :: 1 <= |labels[i]| <= 63
    ensures Representable(labels) <==> (forall i | 0 <= i < |labels| :: 1 <= |labels[i]| <= 63) && 1 + |labels| + Octets(labels) <= 255
  {
    if labels != [] {
      RepresentableIff(labels[1..]);
      assert forall i | 1 <= i < |labels| :: labels[i] == labels[1..][i - 1];
    }
    WireLenIs(labels);
  }

  function Octets(labels: seq<Label>): nat {
    if labels == [] then 0 else |labels[0]| + Octets(labels[1..])
  }

  lemma {:induction false} WireLenIs(labels: seq<Label>)
    ensures WireLen(labels) == 1 + |labels| + Octets(labels)
  {
    if labels != [] { WireLenIs(labels[1..]); }
  }

  type Name = labels: seq<Label> | Representable(labels) witness []

  /** Dropping `k` labels gives back at least two octets for each of them. */
  lemma {:induction false} WireLenOfSuffix(labels: seq<Label>, k: nat)
    requires k <= |labels|
    requires LabelsFit(labels)
    ensures LabelsFit(labels[k..])
    ensures WireLen(labels[k..]) + 2 * k <= WireLen(labels)
  {
    if k > 0 {
      assert labels[1..][k - 1..] == labels[k..];
      WireLenOfSuffix(labels[1..], k - 1);
    } else {
      assert labels[0..] == labels;
    }
  }

  lemma SuffixRepresentable(n: Name, k: nat)
    requires k <= |n|
    ensures Representable(n[k..])
  {
    WireLenOfSuffix(n, k);
  }

  /** The ceiling the depth bitmap is sized for follows from the octet limit. */
  lemma LabelCeiling(n: Name)
    ensures |n| <= MAX_LABELS
  {
    WireLenOfSuffix(n, |n|);
  }

  /** The `d` rightmost labels of `n`; all of them when there are no more than `d`. */
  function TrimTo(n: Name, d: nat): (r: Name)
    ensures |r| == if d < |n| then d else |n|
  {
    if d < |n| then SuffixRepresentable(n, |n| - d); n[|n| - d..] else n
  }

  /** `origin` is `n` or an ancestor of it. */
  predicate InZone(origin: Name, n: Name) {
    |origin| <= |n| && TrimTo(n, |origin|) == origin
  }

  predicate IsWildcardName(n: Name) {
    n != [] && n[0] == STAR
  }

  /** The name without its leftmost label; the root is its own parent. */
  function BaseName(n: Name): Name {
    if n == [] then n else TrimTo(n, |n| - 1)
  }

  /** `*.<p>` fits in 255 octets. */
  predicate HasStar(p: Name) {
    Representable([STAR] + p)
  }

  function StarOf(p: Name): (n: Name)
    requires HasStar(p)
  {
    [STAR] + p
  }

  lemma StarParts(p: Name)
    requires HasStar(p)
    ensures IsWildcardName(StarOf(p)) && BaseName(StarOf(p)) == p && |StarOf(p)| == |p| + 1
  {
    assert StarOf(p)[1..] == p;
  }

  lemma WildcardIsStarOfBase(n: Name)
    requires IsWildcardName(n)
    ensures HasStar(BaseName(n)) && StarOf(BaseName(n)) == n
  {
    assert [STAR] + n[1..] == n;
  }

  lemma TrimTrim(n: Name, d: nat, e: nat)
    requires e <= d
    ensures TrimTo(TrimTo(n, d), e) == TrimTo(n, e)
  {
    if d < |n| && e < d {
      assert n[|n| - d..][d - e..] == n[|n| - e..];
    }
  }

  lemma TrimInZone(origin: Name, n: Name, d: nat)
    requires InZone(origin, n) && |origin| <= d
    ensures InZone(origin, TrimTo(n, d))
  {
    TrimTrim(n, d, |origin|);
  }

  lemma StarWireLen(p: Name)
    ensures HasStar(p) <==> WireLen(p) <= 253
  {
    assert WireLen([STAR] + p) == 2 + WireLen(p) by { assert ([STAR] + p)[1..] == p; }
    assert |STAR| == 1;
  }

  /** Any wildcard that could cover a representable name has a representable owner. */
  lemma ProperAncestorHasStar(n: Name, d: nat)
    requires d < |n|
    ensures HasStar(TrimTo(n, d))
  {
    WireLenOfSuffix(n, |n| - d);
    StarWireLen(TrimTo(n, d));
  }
}
