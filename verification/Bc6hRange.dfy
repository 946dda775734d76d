/** The halves that a BC6H block decodes to (externals/bc_decoder/bc_decoder.cpp, namespace BC6H): which of
    them are finite, in terms of the block. */
module Bc6hRange {
  import opened Wrappers
  import opened BitMath
  import opened BitPacking
  import opened BptcTables
  import opened BptcIndices
  import opened Bc6hTables
  import opened Bc6hLayout
  import opened Bc6hColor
  import opened Bc6hDecoder

  /** Channel `c` of a texel as it is stored, low byte first. */
  function Channel(texel: seq<nat>, c: nat): nat
    requires |texel| == 8 && c < 3
  {
    texel[2 * c] + 256 * texel[2 * c + 1]
  }

  lemma ChannelOfBytes(r: nat, g: nat, b: nat, c: nat)
    requires c < 3
    ensures Channel(Bytes(r, g, b), c) == if c == 0 then r else if c == 1 then g else b
  {
  }

  lemma OnlyMode15IsWide(i: nat)
    requires i < 14
    ensures Desc(i).endpointBits == 16 <==> Desc(i).number == 15
  {
  }

  // ---------- a channel of a block ----------

  /** The slots, the partition and the indices of a block in mode `i`. */
  ghost function BlockSlots(block: nat, i: nat): (slots: seq<nat>)
    ensures |slots| == 13
  {
    SlotsIn(LayoutOf(i), Shr(block, Desc(i).modeBits))
  }

  ghost function BlockIndices(block: nat, i: nat): nat {
    Shr(Shr(block, Desc(i).modeBits), Total(LayoutOf(i)))
  }

  lemma BlockIsOk(block: nat, i: nat)
    requires i < 14
    ensures DescOk(Desc(i)) && SlotsFit(Desc(i), BlockSlots(block, i))
    ensures Sound(PartitionOf(Desc(i), BlockSlots(block, i)), Desc(i).partitionCount)
  {
    ModesAreOk(i);
    SlotsInFit(Desc(i), LayoutOf(i), Shr(block, Desc(i).modeBits));
    PartitionIsSound(Desc(i), BlockSlots(block, i));
  }

  /** What a channel of a decoded texel is. */
  lemma ChannelIsHalfOf(block: nat, signed: bool, i: nat, t: nat, c: nat)
    requires ModeToIndex(ModeNumber(block)) == Some(i) && i < 14 && t < 16 && c < 3
    ensures DescOk(Desc(i)) && SlotsFit(Desc(i), BlockSlots(block, i))
    ensures Sound(PartitionOf(Desc(i), BlockSlots(block, i)), Desc(i).partitionCount)
    ensures var slots := BlockSlots(block, i);
            Channel(Texels(block, signed)[t], c)
            == HalfOf(Desc(i), signed, slots, PartitionOf(Desc(i), slots), BlockIndices(block, i), t, c)
  {
    BlockIsOk(block, i);
    ModesAreOk(i);
    var d, slots, x := Desc(i), BlockSlots(block, i), BlockIndices(block, i);
    var part := PartitionOf(d, slots);
    hide Desc, LayoutOf, ModeOk, SlotsFit, Sound, HalfOf, DescOk, PartitionOf, SlotsIn;
    TexelIsHalves(d, signed, slots, part, x, t, c);
  }

  lemma TexelIsHalves(d: ModeDesc, signed: bool, slots: seq<nat>, part: Partitioning, x: nat, t: nat, c: nat)
    requires DescOk(d) && SlotsFit(d, slots) && Sound(part, d.partitionCount) && t < 16 && c < 3
    ensures Channel(TexelOf(d, signed, slots, part, x, t), c) == HalfOf(d, signed, slots, part, x, t, c)
  {
    hide HalfOf, SlotsFit, Sound, DescOk;
    HalfOfInRange(d, signed, slots, part, x, t, 0);
    HalfOfInRange(d, signed, slots, part, x, t, 1);
    HalfOfInRange(d, signed, slots, part, x, t, 2);
    ChannelOfBytes(HalfOf(d, signed, slots, part, x, t, 0), HalfOf(d, signed, slots, part, x, t, 1),
                   HalfOf(d, signed, slots, part, x, t, 2), c);
  }

  // ---------- finite halves ----------

  lemma HalfIsFinite(d: ModeDesc, signed: bool, slots: seq<nat>, part: Partitioning, x: nat, t: nat, c: nat)
    requires DescOk(d) && SlotsFit(d, slots) && Sound(part, d.partitionCount) && t < 16 && c < 3
    requires signed ==> d.endpointBits < 16
    ensures var h := HalfOf(d, signed, slots, part, x, t, c);
            IsFiniteHalf(h) && h != 0x8000 && (!signed ==> h <= 0x7bff)
  {
    var w, s := Weight(IndexBits(d), IndexAt(d, part, x, t)), part.subset[t];
    WeightIsAtMost64(IndexBits(d), IndexAt(d, part, x, t));
    PatternIsResolved(d, signed, slots, 6 * s + c);
    PatternIsResolved(d, signed, slots, 6 * s + 3 + c);
    hide Pattern, Half, Blend, Weight, IndexAt, SlotsFit, Endpoint, IsFiniteHalf, Resolved, Extended;
    DecodedHalfIsFinite(d.endpointBits, signed, Pattern(d, slots, 6 * s + c), Pattern(d, slots, 6 * s + 3 + c), w);
  }

  /** Every channel of every texel of every block is a finite half and not minus zero, except in signed
      blocks of mode 15. */
  lemma TexelsAreFinite(block: nat, signed: bool, t: nat, c: nat)
    requires t < 16 && c < 3 && (signed ==> ModeNumber(block) != 15)
    ensures var h := Channel(Texels(block, signed)[t], c);
            IsFiniteHalf(h) && h != 0x8000 && (!signed ==> h <= 0x7bff)
  {
    var index := ModeToIndex(ModeNumber(block));
    if index.Some? {
      var i := index.value;
      ModeIsItsOwn(block);
      OnlyMode15IsWide(i);
      BlockIsOk(block, i);
      var d, slots := Desc(i), BlockSlots(block, i);
      assert d.endpointBits <= 16;
      hide Desc, LayoutOf, SlotsFit, Sound, HalfOf, PartitionOf, BlockSlots, BlockIndices, Texels, IsFiniteHalf, DescOk;
      ChannelIsHalfOf(block, signed, i, t, c);
      HalfIsFinite(d, signed, slots, PartitionOf(d, slots), BlockIndices(block, i), t, c);
    }
  }

  /** The weighted endpoints of channel `c` of texel `t` are above the lowest number. */
  ghost predicate ChannelAboveLowest(d: ModeDesc, slots: seq<nat>, part: Partitioning, x: nat, t: nat, c: nat)
    requires DescOk(d) && SlotsFit(d, slots) && Sound(part, d.partitionCount) && t < 16 && c < 3
  {
    var s := part.subset[t];
    AboveLowest(EndpointOf(d, true, slots, 6 * s + c), EndpointOf(d, true, slots, 6 * s + 3 + c),
                Weight(IndexBits(d), IndexAt(d, part, x, t)))
  }

  /** A channel of a signed block is finite if and only if its weighted endpoints are above the lowest number;
      otherwise it is minus infinity. */
  lemma SignedHalfOf(d: ModeDesc, slots: seq<nat>, part: Partitioning, x: nat, t: nat, c: nat)
    requires DescOk(d) && SlotsFit(d, slots) && Sound(part, d.partitionCount) && t < 16 && c < 3
    ensures var h := HalfOf(d, true, slots, part, x, t, c);
            && h != 0x8000 && (!IsFiniteHalf(h) ==> h == 0xfc00)
            && (IsFiniteHalf(h) <==> ChannelAboveLowest(d, slots, part, x, t, c))
  {
    var w, s := Weight(IndexBits(d), IndexAt(d, part, x, t)), part.subset[t];
    WeightIsAtMost64(IndexBits(d), IndexAt(d, part, x, t));
    EndpointsInRange(d, true, slots, 6 * s + c);
    EndpointsInRange(d, true, slots, 6 * s + 3 + c);
    hide Half, Blend, Weight, IndexAt, SlotsFit, EndpointOf, IsFiniteHalf, AboveLowest;
    WideSignedHalfIsFinite(EndpointOf(d, true, slots, 6 * s + c), EndpointOf(d, true, slots, 6 * s + 3 + c), w);
  }

  /** The same of the bytes of a decoded texel: for signed blocks of mode 15 this is all that can be said. */
  lemma SignedTexelIsFinite(block: nat, i: nat, t: nat, c: nat)
    requires ModeToIndex(ModeNumber(block)) == Some(i) && i < 14 && t < 16 && c < 3
    ensures DescOk(Desc(i)) && SlotsFit(Desc(i), BlockSlots(block, i))
    ensures Sound(PartitionOf(Desc(i), BlockSlots(block, i)), Desc(i).partitionCount)
    ensures var h, slots := Channel(Texels(block, true)[t], c), BlockSlots(block, i);
            && h != 0x8000 && (!IsFiniteHalf(h) ==> h == 0xfc00)
            && (IsFiniteHalf(h)
                <==> ChannelAboveLowest(Desc(i), slots, PartitionOf(Desc(i), slots), BlockIndices(block, i), t, c))
  {
    hide Desc, LayoutOf, SlotsFit, Sound, HalfOf, PartitionOf, BlockSlots, BlockIndices, Texels, IsFiniteHalf, DescOk,
      ChannelAboveLowest, ModeToIndex, ModeNumber;
    ChannelIsHalfOf(block, true, i, t, c);
    var slots := BlockSlots(block, i);
    SignedHalfOf(Desc(i), slots, PartitionOf(Desc(i), slots), BlockIndices(block, i), t, c);
  }

  // ---------- a block that is not finite ----------

  /** All three channels of the first endpoint are 0x8000, and all deltas are -1. */
  const LOWEST: seq<nat> := [0x8000, 0x8000, 0x8000, 15, 15, 15, 0, 0, 0, 0, 0, 0, 0]

  /** The block of mode 15 that stores the slots, with all indices 0. */
  ghost function WideBlock(i: nat, slots: seq<nat>): nat
    requires |slots| == 13
  {
    15 + Shl(Header(LayoutOf(i), slots), 5)
  }

  lemma LowestFits(s: nat)
    requires s < 13
    ensures LOWEST[s] < Pow2(Size(Desc(9), s))
  {
    Pow2Values();
    assert Pow2(4) == 16 && Pow2(0) == 1;
  }

  lemma NumberIs15(h: nat)
    ensures ModeNumber(15 + Shl(h, 5)) == 15 && Shr(15 + Shl(h, 5), 5) == h
  {
    Pow2Values();
    ShrOfJoin(15, h, 5);
    BitOfJoin(15, h, 5, 1);
    assert Bit(15, 1) by { assert Bit(7, 0); }
    hide Low, Shl, Shr;
  }

  /** A header gives back all slots that it stores. */
  lemma SlotsOfHeader(l: Layout, d: ModeDesc, slots: seq<nat>)
    requires Exact(l, d) && (d.partitionCount == 1 || d.partitionCount == 2) && SlotsFit(d, slots)
    ensures SlotsIn(l, Header(l, slots)) == slots
  {
    hide Exact, Header, SlotValue, Pow2, Size;
    var found := SlotsIn(l, Header(l, slots));
    forall s | 0 <= s < 13
      ensures found[s] == slots[s]
    {
      WriteThenRead(l, d, slots, s);
    }
  }

  lemma ShiftedOut(h: nat, n: nat)
    requires h < Pow2(n)
    ensures Shr(h, n) == 0
  {
    ShrBound(h, n, n);
  }

  lemma WideParts(i: nat, slots: seq<nat>)
    requires |slots| == 13 && i < 14 && Desc(i).modeBits == 5 && SlotsFit(Desc(i), slots)
    ensures ModeNumber(WideBlock(i, slots)) == 15
    ensures BlockSlots(WideBlock(i, slots), i) == slots && BlockIndices(WideBlock(i, slots), i) == 0
  {
    hide LayoutOf, Header, Shl, Shr, ModeNumber, SlotsIn, Desc, Exact, SlotsFit;
    DescsAreOk(i);
    LayoutsAreExact(i);
    var h := Header(LayoutOf(i), slots);
    NumberIs15(h);
    SlotsOfHeader(LayoutOf(i), Desc(i), slots);
    ShiftedOut(h, Total(LayoutOf(i)));
  }

  lemma LowestSlotsFit()
    ensures SlotsFit(Desc(9), LOWEST) && Desc(9).modeBits == 5 && DescOk(Desc(9)) && ModeToIndex(15) == Some(9)
  {
    forall s | 0 <= s < 13
      ensures LOWEST[s] < Pow2(Size(Desc(9), s))
    {
      LowestFits(s);
    }
  }

  /** Its endpoints are the lowest number and the highest. */
  lemma LowestEndpoints(c: nat)
    requires c < 3 && DescOk(Desc(9)) && SlotsFit(Desc(9), LOWEST)
    ensures EndpointOf(Desc(9), true, LOWEST, c) == -32768 && EndpointOf(Desc(9), true, LOWEST, 3 + c) == 32767
  {
    Pow2Values();
    assert Pow2(3) == 8 && Pow2(4) == 16;
    assert Pattern(Desc(9), LOWEST, c) == 0x8000;
    assert Pattern(Desc(9), LOWEST, 3 + c) == 0x7fff;
  }

  /** A signed block whose texels are all minus infinity, although only one of the endpoints is at the lowest
      number. */
  lemma InfiniteBlock(t: nat, c: nat)
    requires t < 16 && c < 3
    ensures var block := WideBlock(9, LOWEST); ModeNumber(block) == 15 && Channel(Texels(block, true)[t], c) == 0xfc00
  {
    LowestSlotsFit();
    LowestEndpoints(c);
    WideParts(9, LOWEST);
    assert Desc(9).partitionCount == 1;
    hide WideBlock, BlockSlots, BlockIndices, Texels, EndpointOf, SlotsFit, DescOk, ModeNumber;
    InfiniteChannel(WideBlock(9, LOWEST), 9, t, c);
  }

  lemma InfiniteChannel(block: nat, i: nat, t: nat, c: nat)
    requires ModeToIndex(ModeNumber(block)) == Some(i) && i < 14 && t < 16 && c < 3
    requires DescOk(Desc(i)) && Desc(i).partitionCount == 1 && SlotsFit(Desc(i), BlockSlots(block, i))
    requires EndpointOf(Desc(i), true, BlockSlots(block, i), c) == -32768 && BlockIndices(block, i) == 0
    ensures Channel(Texels(block, true)[t], c) == 0xfc00
  {
    hide Desc, LayoutOf, SlotsFit, BlockSlots, BlockIndices, Texels, EndpointOf, HalfOf, DescOk, ModeToIndex,
      PartitionOf;
    ChannelIsHalfOf(block, true, i, t, c);
    LowestHalf(Desc(i), BlockSlots(block, i), PartitionOf(Desc(i), BlockSlots(block, i)), t, c);
  }

  lemma LowestHalf(d: ModeDesc, slots: seq<nat>, part: Partitioning, t: nat, c: nat)
    requires DescOk(d) && d.partitionCount == 1 && SlotsFit(d, slots) && Sound(part, 1) && t < 16 && c < 3
    requires EndpointOf(d, true, slots, c) == -32768
    ensures HalfOf(d, true, slots, part, 0, t, c) == 0xfc00
  {
    assert part.subset[t] == 0;
    ZeroIndex(d, part, t);
    SignedHalfOf(d, slots, part, 0, t, c);
    hide HalfOf, EndpointOf, IsFiniteHalf, SlotsFit, IndexAt, Weight;
    assert !ChannelAboveLowest(d, slots, part, 0, t, c);
  }

  lemma ZeroIndex(d: ModeDesc, part: Partitioning, t: nat)
    requires DescOk(d) && Sound(part, d.partitionCount) && t < 16
    ensures Weight(IndexBits(d), IndexAt(d, part, 0, t)) == 0
  {
    var n := IndexOffset(IndexBits(d), part.anchors, t);
    NextIndex(IndexBits(d), part, d.partitionCount, t);
    ZeroSlice(n, IndexWidth(IndexBits(d), part.anchors, t));
  }

  lemma ZeroSlice(n: nat, w: nat)
    ensures Slice(0, n, w) == 0
  {
    ShrOfZero(n);
    LowOfZero(w);
  }

  lemma {:induction false} ShrOfZero(n: nat)
    ensures Shr(0, n) == 0
  {
    if n > 0 { ShrOfZero(n - 1); }
  }
}
