/** Indices of BC6H and BC7 texels: where they are stored and how they weigh the endpoints. */
module BptcIndices {
  import opened BptcTables

  /** How many of the texels before `t` have a shortened index. */
  function AnchorsBefore(anchors: seq<nat>, t: nat): nat {
    if anchors == [] then 0
    else (if anchors[0] < t then 1 else 0) + AnchorsBefore(anchors[1..], t)
  }

  lemma {:induction false} AnchorsBeforeBound(anchors: seq<nat>, t: nat)
    ensures AnchorsBefore(anchors, t) <= |anchors|
    ensures AnchorsBefore(anchors, 0) == 0
    ensures (forall s :: 0 <= s < |anchors| ==> anchors[s] < t) ==> AnchorsBefore(anchors, t) == |anchors|
  {
    if anchors != [] { AnchorsBeforeBound(anchors[1..], t); }
  }

  lemma {:induction false} OneMoreAnchor(anchors: seq<nat>, t: nat)
    requires forall i, j :: 0 <= i < j < |anchors| ==> anchors[i] != anchors[j]
    ensures AnchorsBefore(anchors, t + 1) == AnchorsBefore(anchors, t) + (if t in anchors then 1 else 0)
  {
    if anchors != [] {
      OneMoreAnchor(anchors[1..], t);
      assert t in anchors <==> t == anchors[0] || t in anchors[1..];
      if t == anchors[0] { assert t !in anchors[1..]; }
    }
  }

  lemma {:induction false} FewAnchors(anchors: seq<nat>, t: nat)
    requires forall i, j :: 0 <= i < j < |anchors| ==> anchors[i] != anchors[j]
    ensures AnchorsBefore(anchors, t) <= t
  {
    if t == 0 { AnchorsBeforeBound(anchors, 0); }
    else { FewAnchors(anchors, t - 1); OneMoreAnchor(anchors, t - 1); }
  }

  /** A texel is the anchor of its subset exactly when it is an anchor at all. */
  lemma AnchorTest(part: Partitioning, ns: nat, t: nat)
    requires Sound(part, ns) && t < 16
    ensures part.anchors[part.subset[t]] == t <==> t in part.anchors
    ensures forall i, j :: 0 <= i < j < |part.anchors| ==> part.anchors[i] != part.anchors[j]
  {
    if t in part.anchors {
      var s :| 0 <= s < ns && part.anchors[s] == t;
    }
    forall i, j | 0 <= i < j < |part.anchors| ensures part.anchors[i] != part.anchors[j] {
      assert part.subset[part.anchors[i]] == i && part.subset[part.anchors[j]] == j;
    }
  }

  /** Where the index of texel `t` begins, when indices have `bits` bits. */
  function IndexOffset(bits: nat, anchors: seq<nat>, t: nat): int {
    bits * t - AnchorsBefore(anchors, t)
  }

  function IndexWidth(bits: nat, anchors: seq<nat>, t: nat): int {
    bits - (if t in anchors then 1 else 0)
  }

  lemma NextIndex(bits: nat, part: Partitioning, ns: nat, t: nat)
    requires Sound(part, ns) && t < 16 && 1 <= bits
    ensures IndexOffset(bits, part.anchors, 0) == 0
    ensures IndexOffset(bits, part.anchors, t + 1)
      == IndexOffset(bits, part.anchors, t) + IndexWidth(bits, part.anchors, t)
    ensures IndexOffset(bits, part.anchors, t) >= 0 && IndexWidth(bits, part.anchors, t) >= 0
  {
    AnchorTest(part, ns, t);
    hide Sound, AnchorsBefore;
    AnchorsBeforeBound(part.anchors, 0);
    OneMoreAnchor(part.anchors, t);
    FewAnchors(part.anchors, t);
    Times(bits, t);
  }

  lemma Times(bits: nat, t: nat)
    requires 1 <= bits
    ensures bits * (t + 1) == bits * t + bits && bits * 0 == 0 && bits * t >= t
  {
  }

  /** The indices of the 16 texels fill their field: one bit for each subset is left out. */
  lemma IndicesFillTheirField(bits: nat, part: Partitioning, ns: nat)
    requires Sound(part, ns)
    ensures IndexOffset(bits, part.anchors, 16) == 16 * bits - ns
  {
    AnchorsBeforeBound(part.anchors, 16);
  }

  function Weight(bits: nat, index: nat): nat {
    match bits
    case 2 => (match index case 0 => 0 case 1 => 21 case 2 => 43 case _ => 64)
    case 3 =>
      (match index
       case 0 => 0 case 1 => 9 case 2 => 18 case 3 => 27 case 4 => 37 case 5 => 46 case 6 => 55 case _ => 64)
    case _ => (match index
      case 0 => 0 case 1 => 4 case 2 => 9 case 3 => 13 case 4 => 17 case 5 => 21 case 6 => 26 case 7 => 30
      case 8 => 34 case 9 => 38 case 10 => 43 case 11 => 47 case 12 => 51 case 13 => 55 case 14 => 60 case _ => 64)
  }

  lemma WeightedSum(w: nat, lo: nat, hi: nat)
    requires w <= 64 && lo <= hi
    ensures 64 * lo <= (64 - w) * lo + w * hi <= 64 * hi
  {
    assert (64 - w) * lo + w * lo == 64 * lo && (64 - w) * hi + w * hi == 64 * hi;
    MulMono(w, lo, hi);
    MulMono(64 - w, lo, hi);
  }

  lemma MulMono(k: nat, lo: nat, hi: nat)
    requires lo <= hi
    ensures k * lo <= k * hi
  {
  }

  lemma WeightIsAtMost64(bits: nat, index: nat)
    ensures Weight(bits, index) <= 64
  {
  }
}
