/** Decoding a BC6H block (externals/bc_decoder/bc_decoder.cpp, namespace BC6H).  The reference looks every
    index up where it is stored; the decoder takes the block apart from the low end, bit by bit, and
    writes the texels that are visible. */
module Bc6hDecoder {
  import opened Wrappers
  import opened BitMath
  import opened BptcTables
  import opened BptcIndices
  import opened Bc6hTables
  import opened Bc6hLayout
  import opened Bc6hColor
  import opened TexelGrid

  // ---------- modes ----------

  function ModeNumber(block: nat): nat {
    if Bit(block, 1) then Low(block, 5) else Low(block, 2)
  }

  lemma ModeNumberParts(block: nat)
    ensures var m := ModeNumber(block);
            if Bit(block, 1) then m < 32 && m / 2 % 2 == 1 else m < 2
  {
    Pow2Values();
    assert Bit(block, 1) <==> Bit(block / 2, 0);
    assert Low(block, 2) == 2 * (block / 2 % 2) + block % 2;
    if Bit(block, 1) {
      var m := Low(block, 5);
      BitOfLow(block, 5, 1);
      assert Bit(m, 1) <==> Bit(m / 2, 0);
    }
  }

  lemma ModeNumbers(i: nat)
    requires i < 14
    ensures Desc(i).number == (if i < 4 then i else if i >= 11 then 4 * i - 22
                               else if i % 2 == 0 then 2 * i - 2 else 2 * i - 3)
    ensures Desc(i).modeBits == (if i < 2 then 2 else 5)
  {
  }

  lemma NumberIsMode(m: nat)
    requires ModeToIndex(m).Some? && (m < 2 || (m < 32 && m / 2 % 2 == 1))
    ensures ModeToIndex(m).value < 14
    ensures Desc(ModeToIndex(m).value).number == m
    ensures Desc(ModeToIndex(m).value).modeBits == (if m < 2 then 2 else 5)
  {
    ModeNumbers(ModeToIndex(m).value);
    hide Desc;
  }

  /** Modes are told apart by their own bits: the description found for a mode is that mode's, and reading
      its mode bits again gives the same number. */
  lemma ModeIsItsOwn(block: nat)
    ensures var m := ModeNumber(block); var i := ModeToIndex(m);
            i.Some? ==>
              i.value < 14 && Desc(i.value).number == m && Desc(i.value).modeBits == (if Bit(block, 1) then 5 else 2)
  {
    ModeNumberParts(block);
    var m := ModeNumber(block);
    if ModeToIndex(m).Some? { NumberIsMode(m); }
    hide Desc, ModeToIndex, ModeNumber;
  }

  /** Mode bits, header fields and shortened indices make up 128 bits in every mode. */
  lemma BlockIsUsedUp(i: nat, part: Partitioning)
    requires i < 14 && Sound(part, Desc(i).partitionCount)
    ensures Desc(i).modeBits + Total(LayoutOf(i)) + IndexOffset(IndexBits(Desc(i)), part.anchors, 16) == 128
  {
    LayoutsAreExact(i);
    IndicesFillTheirField(IndexBits(Desc(i)), part, Desc(i).partitionCount);
    HeaderAndIndices(i);
  }

  lemma HeaderAndIndices(i: nat)
    requires i < 14
    ensures Desc(i).modeBits + HeaderBits(Desc(i)) + 16 * IndexBits(Desc(i)) - Desc(i).partitionCount == 128
  {
  }

  function IndexBits(d: ModeDesc): nat {
    if d.partitionCount == 1 then 4 else 3
  }

  // ---------- the reference ----------

  /** A mode description with a layout that fits it. */
  ghost predicate ModeOk(d: ModeDesc, layout: Layout) {
    DescOk(d) && Exact(layout, d) && NarrowFields(layout)
  }

  lemma ModesAreOk(i: nat)
    requires i < 14
    ensures ModeOk(Desc(i), LayoutOf(i))
  {
    LayoutsAreExact(i);
    DescsAreOk(i);
    DeltasAreNarrow(i);
    hide LayoutOf, Desc, NarrowFields, Exact;
    NarrowIfExact(LayoutOf(i), Desc(i));
  }

  lemma NarrowIfExact(layout: Layout, d: ModeDesc)
    requires Exact(layout, d) && DescOk(d) && d.deltaR <= 16 && d.deltaG <= 16 && d.deltaB <= 16
    ensures NarrowFields(layout)
  {
    FieldsAreNarrow(layout, d);
  }

  lemma DeltasAreNarrow(i: nat)
    requires i < 14
    ensures Desc(i).deltaR <= 16 && Desc(i).deltaG <= 16 && Desc(i).deltaB <= 16
  {
  }

  /** The slots of a block whose header begins at the low end of `y`. */
  ghost function SlotsIn(layout: Layout, y: nat): (slots: seq<nat>)
    ensures |slots| == 13
  {
    seq(13, (s: nat) => SlotValue(layout, y, s))
  }

  lemma SlotsInFit(d: ModeDesc, layout: Layout, y: nat)
    requires ModeOk(d, layout)
    ensures SlotsFit(d, SlotsIn(layout, y))
  {
    forall k | 0 <= k < 13 ensures SlotsIn(layout, y)[k] < Pow2(Size(d, k)) {
      SlotFits(layout, d, y, k);
    }
  }

  function PartitionOf(d: ModeDesc, slots: seq<nat>): Partitioning
    requires |slots| == 13
  {
    PartitioningOf(d.partitionCount, slots[12])
  }

  lemma PartitionIsSound(d: ModeDesc, slots: seq<nat>)
    requires DescOk(d) && SlotsFit(d, slots)
    ensures Sound(PartitionOf(d, slots), d.partitionCount)
  {
    Pow2Values();
    assert slots[12] < Pow2(Size(d, 12)) && Pow2(0) == 1;
    TablesAreSound(d.partitionCount, slots[12]);
  }

  /** The value of endpoint channel `k`. */
  function EndpointOf(d: ModeDesc, signed: bool, slots: seq<nat>, k: nat): int
    requires DescOk(d) && SlotsFit(d, slots) && k < 6 * d.partitionCount
  {
    PatternIsResolved(d, signed, slots, k);
    Endpoint(d.endpointBits, signed, Pattern(d, slots, k))
  }

  /** The index of texel `t`, where `x` is the block above its header. */
  function IndexAt(d: ModeDesc, part: Partitioning, x: nat, t: nat): nat
    requires DescOk(d) && Sound(part, d.partitionCount) && t < 16
  {
    NextIndex(IndexBits(d), part, d.partitionCount, t);
    Slice(x, IndexOffset(IndexBits(d), part.anchors, t), IndexWidth(IndexBits(d), part.anchors, t))
  }

  function HalfOf(d: ModeDesc, signed: bool, slots: seq<nat>, part: Partitioning, x: nat, t: nat, c: nat): int
    requires DescOk(d) && SlotsFit(d, slots) && Sound(part, d.partitionCount) && t < 16 && c < 3
  {
    var s := part.subset[t];
    Half(Blend(EndpointOf(d, signed, slots, 6 * s + c), EndpointOf(d, signed, slots, 6 * s + 3 + c),
               Weight(IndexBits(d), IndexAt(d, part, x, t))), signed)
  }

  lemma EndpointsInRange(d: ModeDesc, signed: bool, slots: seq<nat>, k: nat)
    requires DescOk(d) && SlotsFit(d, slots) && k < 6 * d.partitionCount
    ensures var e := EndpointOf(d, signed, slots, k);
            if signed then -32768 <= e <= 32767 else 0 <= e <= 65535
  {
    PatternIsResolved(d, signed, slots, k);
    EndpointRange(d.endpointBits, signed, Pattern(d, slots, k));
  }

  lemma HalfInRange(v: int, signed: bool)
    requires if signed then -32768 <= v <= 32767 else 0 <= v <= 65535
    ensures 0 <= Half(v, signed) < 65536
  {
  }

  /** One channel of one texel: the decoder's words give the reference's half. */
  lemma ChannelIsHalf(d: ModeDesc, signed: bool, slots: seq<nat>, j: nat, k: nat, w: nat)
    requires DescOk(d) && SlotsFit(d, slots) && j < 6 * d.partitionCount && k < 6 * d.partitionCount && w <= 64
    ensures var e0, e1 := EndpointOf(d, signed, slots, j), EndpointOf(d, signed, slots, k);
            && InterpolateWord(ToU16(e0), ToU16(e1), w, signed) == Half(Blend(e0, e1, w), signed)
            && 0 <= Half(Blend(e0, e1, w), signed) < 65536
  {
    EndpointsInRange(d, signed, slots, j);
    EndpointsInRange(d, signed, slots, k);
    var e0, e1 := EndpointOf(d, signed, slots, j), EndpointOf(d, signed, slots, k);
    hide EndpointOf, InterpolateWord, Half, Blend, ToU16, DescOk, SlotsFit;
    InterpolateWordIsHalf(e0, e1, w, signed);
    if signed { BlendIsBetween(e0, e1, w, -32768, 32767); } else { BlendIsBetween(e0, e1, w, 0, 65535); }
    HalfInRange(Blend(e0, e1, w), signed);
  }

  lemma HalfOfInRange(d: ModeDesc, signed: bool, slots: seq<nat>, part: Partitioning, x: nat, t: nat, c: nat)
    requires DescOk(d) && SlotsFit(d, slots) && Sound(part, d.partitionCount) && t < 16 && c < 3
    ensures 0 <= HalfOf(d, signed, slots, part, x, t, c) < 65536
  {
    var w := Weight(IndexBits(d), IndexAt(d, part, x, t));
    WeightIsAtMost64(IndexBits(d), IndexAt(d, part, x, t));
    var s := part.subset[t];
    hide EndpointOf, Half, Blend, Weight, IndexAt, SlotsFit;
    ChannelIsHalf(d, signed, slots, 6 * s + c, 6 * s + 3 + c, w);
  }

  /** Three halves and a full alpha as stored, low byte first. */
  function Bytes(r: int, g: int, b: int): (bytes: seq<nat>)
    requires r >= 0 && g >= 0 && b >= 0
    ensures |bytes| == 8
  {
    [r % 256, r / 256, g % 256, g / 256, b % 256, b / 256, 0x00, 0x3c]
  }

  const Black: seq<nat> := Bytes(0, 0, 0)

  ghost function TexelOf(d: ModeDesc, signed: bool, slots: seq<nat>, part: Partitioning, x: nat,
      t: nat): (bytes: seq<nat>)
    requires DescOk(d) && SlotsFit(d, slots) && Sound(part, d.partitionCount) && t < 16
    ensures |bytes| == 8
  {
    HalfOfInRange(d, signed, slots, part, x, t, 0);
    HalfOfInRange(d, signed, slots, part, x, t, 1);
    HalfOfInRange(d, signed, slots, part, x, t, 2);
    Bytes(HalfOf(d, signed, slots, part, x, t, 0), HalfOf(d, signed, slots, part, x, t, 1),
      HalfOf(d, signed, slots, part, x, t, 2))
  }

  ghost function TexelsIn(d: ModeDesc, signed: bool, slots: seq<nat>, part: Partitioning, x: nat): (r: seq<seq<nat>>)
    requires DescOk(d) && SlotsFit(d, slots) && Sound(part, d.partitionCount)
    ensures |r| == 16 && forall t :: 0 <= t < 16 ==> |r[t]| == 8
  {
    seq(16, t requires 0 <= t < 16 => TexelOf(d, signed, slots, part, x, t))
  }

  ghost function TexelsInMode(d: ModeDesc, layout: Layout, signed: bool, y: nat): (r: seq<seq<nat>>)
    requires ModeOk(d, layout)
    ensures |r| == 16 && forall t :: 0 <= t < 16 ==> |r[t]| == 8
  {
    SlotsInFit(d, layout, y);
    PartitionIsSound(d, SlotsIn(layout, y));
    TexelsIn(d, signed, SlotsIn(layout, y), PartitionOf(d, SlotsIn(layout, y)), Shr(y, Total(layout)))
  }

  /** The 16 texels of a block; a block of a reserved mode is black. */
  ghost function Texels(block: nat, signed: bool): (r: seq<seq<nat>>)
    ensures |r| == 16 && forall t :: 0 <= t < 16 ==> |r[t]| == 8
  {
    match ModeToIndex(ModeNumber(block))
    case None => seq(16, _ => Black)
    case Some(i) =>
      ModeIsItsOwn(block);
      ModesAreOk(i);
      TexelsInMode(Desc(i), LayoutOf(i), signed, Shr(block, Desc(i).modeBits))
  }

  // ---------- the decoder ----------

  /** The endpoint words that were decoded are those of the reference. */
  ghost predicate WordsOk(d: ModeDesc, signed: bool, slots: seq<nat>, e: seq<nat>)
    requires DescOk(d) && SlotsFit(d, slots)
  {
    |e| == 12 && forall k :: 0 <= k < 6 * d.partitionCount ==> e[k] == ToU16(EndpointOf(d, signed, slots, k))
  }

  function OutputBytes(e: seq<nat>, first: nat, w: nat, signed: bool): (bytes: seq<nat>)
    requires |e| == 12 && first + 6 <= 12
    ensures |bytes| == 8
  {
    Bytes(InterpolateWord(e[first], e[first + 3], w, signed), InterpolateWord(e[first + 1], e[first + 4], w, signed),
          InterpolateWord(e[first + 2], e[first + 5], w, signed))
  }

  lemma SubsetIsBelow(part: Partitioning, ns: nat, t: nat)
    requires Sound(part, ns) && t < 16
    ensures |part.subset| == 16 && part.subset[t] < ns
  {
  }

  lemma WordsAreTwelve(d: ModeDesc, signed: bool, slots: seq<nat>, e: seq<nat>)
    requires DescOk(d) && SlotsFit(d, slots) && WordsOk(d, signed, slots, e)
    ensures |e| == 12 && d.partitionCount <= 2
  {
  }

  lemma WordIsEndpoint(d: ModeDesc, signed: bool, slots: seq<nat>, e: seq<nat>, k: nat)
    requires DescOk(d) && SlotsFit(d, slots) && WordsOk(d, signed, slots, e) && k < 6 * d.partitionCount
    ensures k < |e| && e[k] == ToU16(EndpointOf(d, signed, slots, k))
  {
  }

  lemma WordsBlend(d: ModeDesc, signed: bool, slots: seq<nat>, e: seq<nat>, j: nat, k: nat, w: nat)
    requires DescOk(d) && SlotsFit(d, slots) && WordsOk(d, signed, slots, e)
    requires j < 6 * d.partitionCount && k < 6 * d.partitionCount && w <= 64
    ensures j < |e| && k < |e|
    ensures InterpolateWord(e[j], e[k], w, signed)
         == Half(Blend(EndpointOf(d, signed, slots, j), EndpointOf(d, signed, slots, k), w), signed)
  {
    hide EndpointOf, Half, Blend, InterpolateWord, SlotsFit, ToU16, DescOk, WordsOk;
    WordIsEndpoint(d, signed, slots, e, j);
    WordIsEndpoint(d, signed, slots, e, k);
    ChannelIsHalf(d, signed, slots, j, k, w);
  }

  lemma ChannelIsOutput(d: ModeDesc, signed: bool, slots: seq<nat>, part: Partitioning, x: nat, t: nat, e: seq<nat>,
                        c: nat)
    requires DescOk(d) && SlotsFit(d, slots) && Sound(part, d.partitionCount) && t < 16 && c < 3
    requires WordsOk(d, signed, slots, e)
    ensures |part.subset| == 16 && part.subset[t] < d.partitionCount && |e| == 12
    ensures var w, first := Weight(IndexBits(d), IndexAt(d, part, x, t)), 6 * part.subset[t];
            InterpolateWord(e[first + c], e[first + 3 + c], w, signed) == HalfOf(d, signed, slots, part, x, t, c)
  {
    var w, s := Weight(IndexBits(d), IndexAt(d, part, x, t)), part.subset[t];
    hide EndpointOf, Half, Blend, Weight, IndexAt, InterpolateWord, SlotsFit, DescOk, Sound, WordsOk;
    SubsetIsBelow(part, d.partitionCount, t);
    WordsAreTwelve(d, signed, slots, e);
    WeightIsAtMost64(IndexBits(d), IndexAt(d, part, x, t));
    WordsBlend(d, signed, slots, e, 6 * s + c, 6 * s + 3 + c, w);
  }

  lemma OutputIsTexel(d: ModeDesc, signed: bool, slots: seq<nat>, part: Partitioning, x: nat, t: nat, e: seq<nat>)
    requires DescOk(d) && SlotsFit(d, slots) && Sound(part, d.partitionCount) && t < 16
    requires WordsOk(d, signed, slots, e)
    ensures |part.subset| == 16 && part.subset[t] < d.partitionCount
    ensures OutputBytes(e, 6 * part.subset[t], Weight(IndexBits(d), IndexAt(d, part, x, t)), signed)
            == TexelOf(d, signed, slots, part, x, t)
  {
    hide InterpolateWord, Weight, IndexAt, SlotsFit, DescOk, Sound, WordsOk, HalfOf, Bytes;
    SubsetIsBelow(part, d.partitionCount, t);
    WordsAreTwelve(d, signed, slots, e);
    ChannelIsOutput(d, signed, slots, part, x, t, e, 0);
    ChannelIsOutput(d, signed, slots, part, x, t, e, 1);
    ChannelIsOutput(d, signed, slots, part, x, t, e, 2);
  }

  /** The two words hold what is left of the indices `x` when `t` of them have been read. */
  ghost predicate AtTexel(d: ModeDesc, part: Partitioning, x: nat, t: nat, low: nat, high: nat)
    requires DescOk(d) && Sound(part, d.partitionCount) && t <= 16
  {
    && IsWord(low) && IsWord(high)
    && IndexOffset(IndexBits(d), part.anchors, t) >= 0
    && Value(low, high) == Shr(x, IndexOffset(IndexBits(d), part.anchors, t))
  }

  lemma LowPiece(v: nat, n: nat)
    requires n >= 1
    ensures Piece(Field(0, n - 1, 0, End), v) == Low(v, n) && Field(0, n - 1, 0, End).Width() == n
  {
  }

  method TakeBits(low: nat, high: nat, n: nat) returns (bits: nat, low': nat, high': nat)
    requires IsWord(low) && IsWord(high) && 1 <= n <= 31
    ensures bits == Low(Value(low, high), n)
    ensures IsWord(low') && IsWord(high') && Value(low', high') == Shr(Value(low, high), n)
  {
    LowPiece(Value(low, high), n);
    hide Piece, Low, Shr, Value, IsWord;
    bits, low', high' := Consume(low, high, n - 1, 0);
  }

  /** Takes the index of texel `t` off the block. */
  method ReadIndex(low: nat, high: nat, d: ModeDesc, part: Partitioning, ghost x: nat, t: nat)
    returns (index: nat, low': nat, high': nat)
    requires DescOk(d) && Sound(part, d.partitionCount) && t < 16
    requires AtTexel(d, part, x, t, low, high)
    ensures index == IndexAt(d, part, x, t)
    ensures AtTexel(d, part, x, t + 1, low', high')
  {
    NextIndex(IndexBits(d), part, d.partitionCount, t);
    var isAnchor := t in part.anchors;
    var numBits := if d.partitionCount == 1 then 4 else 3;
    var n := numBits - (if isAnchor then 1 else 0);
    ShrShr(x, IndexOffset(IndexBits(d), part.anchors, t), n);
    hide Low, Shr, Value, IsWord, IndexOffset, Sound;
    index, low', high' := TakeBits(low, high, n);
  }

  method NextTexel(low: nat, high: nat, d: ModeDesc, signed: bool, ghost slots: seq<nat>, e: seq<nat>,
      part: Partitioning, ghost x: nat, t: nat)
    returns (bytes: seq<nat>, low': nat, high': nat)
    requires DescOk(d) && SlotsFit(d, slots) && Sound(part, d.partitionCount) && t < 16
    requires WordsOk(d, signed, slots, e) && AtTexel(d, part, x, t, low, high)
    ensures bytes == TexelOf(d, signed, slots, part, x, t)
    ensures AtTexel(d, part, x, t + 1, low', high')
  {
    OutputIsTexel(d, signed, slots, part, x, t, e);
    var length := |e|;
    hide DescOk, SlotsFit, Sound, WordsOk, AtTexel, TexelOf, IndexAt, Weight, OutputBytes;
    var index;
    index, low', high' := ReadIndex(low, high, d, part, x, t);
    bytes := OutputBytes(e, 6 * part.subset[t], Weight(IndexBits(d), index), signed);
  }

  /** The texel loop: every index is taken off the block, whether its texel is visible or not. */
  method DecodeTexels(low0: nat, high0: nat, d: ModeDesc, signed: bool, ghost slots: seq<nat>, e: seq<nat>,
                      part: Partitioning, dst: array<nat>, g: Grid)
    requires DescOk(d) && SlotsFit(d, slots) && Sound(part, d.partitionCount) && WordsOk(d, signed, slots, e)
    requires IsWord(low0) && IsWord(high0) && g.bpp == 8 && Room(g, dst.Length)
    modifies dst
    ensures dst[..] == Painted(old(dst[..]), g, TexelsIn(d, signed, slots, part, Value(low0, high0)), 16)
  {
    ghost var x := Value(low0, high0);
    ghost var image, texels := dst[..], TexelsIn(d, signed, slots, part, x);
    var low, high := low0, high0;
    AnchorsBeforeBound(part.anchors, 0);
    assert AtTexel(d, part, x, 0, low, high);
    hide DescOk, SlotsFit, Sound, WordsOk, AtTexel, TexelOf, Room, InBounds, IsWord, Value;
    for t := 0 to 16
      invariant AtTexel(d, part, x, t, low, high)
      invariant dst[..] == Painted(image, g, texels, t)
    {
      var bytes;
      bytes, low, high := NextTexel(low, high, d, signed, slots, e, part, x, t);
      if InBounds(g, t) {
        Write(dst, g, image, texels, t, bytes);
      } else {
        HiddenTexel(image, g, texels, t);
      }
    }
  }

  method ClearTexels(dst: array<nat>, g: Grid)
    requires g.bpp == 8 && Room(g, dst.Length)
    modifies dst
    ensures dst[..] == Painted(old(dst[..]), g, seq(16, _ => Black), 16)
  {
    ghost var image, texels := dst[..], seq(16, _ => Black);
    for t := 0 to 16
      invariant dst[..] == Painted(image, g, texels, t)
    {
      if InBounds(g, t) {
        Write(dst, g, image, texels, t, Black);
      } else {
        HiddenTexel(image, g, texels, t);
      }
    }
  }

  lemma SecondBit(low: nat, high: nat)
    requires IsWord(low)
    ensures Bit(low, 1) <==> Bit(Value(low, high), 1)
  {
    BitOfJoin(low, high, 64, 1);
  }

  /** Reads the mode, which is two or five bits long. */
  method ReadMode(low0: nat, high0: nat) returns (mode: nat, low: nat, high: nat)
    requires IsWord(low0) && IsWord(high0)
    ensures mode == ModeNumber(Value(low0, high0)) && IsWord(low) && IsWord(high)
    ensures Value(low, high) == Shr(Value(low0, high0), if Bit(Value(low0, high0), 1) then 5 else 2)
  {
    SecondBit(low0, high0);
    hide Bit, Low, Shr, Value, IsWord;
    var n := if Bit(low0, 1) then 5 else 2;
    mode, low, high := TakeBits(low0, high0, n);
  }

  method DecodeInMode(low0: nat, high0: nat, d: ModeDesc, layout: Layout, signed: bool, dst: array<nat>, g: Grid)
    requires ModeOk(d, layout) && IsWord(low0) && IsWord(high0) && g.bpp == 8 && Room(g, dst.Length)
    modifies dst
    ensures dst[..] == Painted(old(dst[..]), g, TexelsInMode(d, layout, signed, Value(low0, high0)), 16)
  {
    ghost var y := Value(low0, high0);
    SlotsInFit(d, layout, y);
    PartitionIsSound(d, SlotsIn(layout, y));
    hide DescOk, SlotsFit, Sound, Room, TexelsIn, IsWord, Value, Shr, PartitionOf, SlotValue, Exact, NarrowFields,
      WordsOk;
    var slots, low, high := ReadHeader(low0, high0, layout);
    assert slots == SlotsIn(layout, y);
    var e := DecodeEndpoints(d, signed, slots);
    WordsAreRight(d, signed, slots, e);
    DecodeTexels(low, high, d, signed, slots, e, PartitionOf(d, slots), dst, g);
  }

  lemma WordsAreRight(d: ModeDesc, signed: bool, slots: seq<nat>, e: seq<nat>)
    requires DescOk(d) && SlotsFit(d, slots) && |e| == 12
    requires forall k :: 0 <= k < 6 * d.partitionCount ==>
      Size(d, k) >= 1 && Pattern(d, slots, k) >= 0 && e[k] == Target(d, signed, slots, k)
    ensures WordsOk(d, signed, slots, e)
  {
  }

  /** Decodes a block into an image: the visible texels are those of the reference, and nothing else
      changes (`TexelGrid.PaintedExactly`). */
  method Decode(low0: nat, high0: nat, signed: bool, dst: array<nat>, g: Grid)
    requires IsWord(low0) && IsWord(high0) && g.bpp == 8 && Room(g, dst.Length)
    modifies dst
    ensures dst[..] == Painted(old(dst[..]), g, Texels(Value(low0, high0), signed), 16)
  {
    ghost var block := Value(low0, high0);
    var mode, low, high := ReadMode(low0, high0);
    var index := ModeToIndex(mode);
    if index.None? {
      ClearTexels(dst, g);
    } else {
      var i := index.value;
      ModeIsItsOwn(block);
      ModesAreOk(i);
      hide Desc, LayoutOf, ModeOk, Room, TexelsInMode, IsWord, Value, Shr, Bit, ModeToIndex, ModeNumber, Painted;
      DecodeInMode(low, high, Desc(i), LayoutOf(i), signed, dst, g);
    }
  }
}
