/** Decoding a BC7 block (externals/bc_decoder/bc_decoder.cpp, namespace BC7).  The reference says what
    each texel is by looking its index up where it is stored; the decoder walks through the indices
    with running bit offsets and writes the texels that are visible. */
module Bc7Decoder {
  import opened Wrappers
  import opened BitMath
  import opened BitPacking
  import opened BptcTables
  import opened BptcIndices
  import opened Bc7Layout
  import opened TexelGrid

  datatype Color = Color(r: nat, g: nat, b: nat, a: nat)

  /** What the decoder needs to know about a mode. */
  ghost predicate ModeOk(m: Mode) {
    && 1 <= m.ns <= 3 && m.pb <= 6 && m.rb <= 2
    && m.spb <= 1 && m.epb <= 1 && (m.spb > 0 ==> m.ns == 2 && m.ab == 0 && m.epb == 0)
    && 4 <= m.cb + m.spb + m.epb <= 8
    && (m.ab > 0 ==> 4 <= m.ab + m.spb + m.epb <= 8)
    && 2 <= m.ib <= 4 && m.ibc == 16 * m.ib - m.ns
    && (m.ib2 > 0 ==> 2 <= m.ib2 <= 3 && m.ns == 1)
    && m.isb <= 1 && (m.isb > 0 ==> m.ib2 > 0)
  }

  lemma ModesAreOk(i: nat)
    requires i < 8
    ensures ModeOk(Modes(i))
  {
  }

  // ---------- endpoints ----------

  /** An `n`-bit channel widened to 8 bits by repeating its high bits. */
  function Replicated(v: nat, n: nat): nat
    requires 4 <= n <= 8
  {
    Shl(v, 8 - n) + Shr(v, 2 * n - 8)
  }

  function Field8(block: nat, bf: Bitfield): nat {
    Slice(block, bf.offset, bf.count)
  }

  /** Where the extra low bit of endpoint `e` is stored, if the mode has one. */
  function PBitField(m: Mode, e: nat): Bitfield
    requires m.ns > 0
  {
    if m.spb > 0 then (if e < 2 then m.SharedPBit0() else m.SharedPBit1()) else m.EndpointPBit(e)
  }

  /** `v` with the extra low bit of endpoint `e`, if the mode has one. */
  function WithPBit(m: Mode, block: nat, e: nat, v: nat): nat
    requires m.ns > 0
  {
    if m.spb + m.epb > 0 then 2 * v + Field8(block, PBitField(m, e)) else v
  }

  /** A channel of endpoint `e`: its field, the extra bit below it, widened to a byte. */
  ghost function Channel(m: Mode, block: nat, e: nat, bf: Bitfield): nat
    requires m.ns > 0 && 4 <= bf.count + m.spb + m.epb <= 8
  {
    Replicated(WithPBit(m, block, e, Field8(block, bf)), bf.count + m.spb + m.epb)
  }

  lemma FieldWidths(m: Mode, e: nat)
    requires m.ns > 0
    ensures m.Red(e).count == m.Green(e).count == m.Blue(e).count == m.cb && m.Alpha(e).count == m.ab
    ensures PBitField(m, e).count == (if m.spb > 0 then m.spb else m.epb)
  {
  }

  ghost function EndpointOf(m: Mode, block: nat, e: nat): Color
    requires ModeOk(m)
  {
    FieldWidths(m, e);
    Color(Channel(m, block, e, m.Red(e)), Channel(m, block, e, m.Green(e)), Channel(m, block, e, m.Blue(e)),
          if m.ab == 0 then 255 else Channel(m, block, e, m.Alpha(e)))
  }

  /** The shift-and-or of the decoder, in 8-bit arithmetic. */
  function Widen(v: nat, n: nat): nat
    requires n <= 8
  {
    var x := Low(Shl(v, 8 - n), 8);
    Low(Or(x, Shr(x, n)), 8)
  }

  function AppendBit(v: nat, bit: nat): nat {
    Low(Or(Low(Shl(v, 1), 8), bit), 8)
  }

  lemma {:induction false} ShrOfShl(v: nat, k: nat, n: nat)
    requires k <= n
    ensures Shr(Shl(v, k), n) == Shr(v, n - k)
  {
    if k > 0 {
      assert Shl(v, k) / 2 == Shl(v, k - 1);
      ShrOfShl(v, k - 1, n - 1);
    }
  }

  lemma LowByte(x: nat)
    requires x < 256
    ensures Low(x, 8) == x
  {
    assert Pow2(8) == 256;
    LowOfSmall(x, 8);
  }

  /** The two copies of the value do not overlap and fill a byte. */
  lemma CopiesFit(v: nat, n: nat)
    requires 4 <= n <= 8 && v < Pow2(n)
    ensures Shr(v, 2 * n - 8) < Pow2(8 - n)
    ensures Shl(v, 8 - n) + Shr(v, 2 * n - 8) < 256
  {
    ShrBound(v, 2 * n - 8, n);
    ShlBound(v, 8 - n, n);
    assert Pow2(8) == 256;
  }

  /** Widening repeats the high bits below the value, which stays in the top bits. */
  lemma WidenIsReplicated(v: nat, n: nat)
    requires 4 <= n <= 8 && v < Pow2(n)
    ensures Widen(v, n) == Replicated(v, n) < 256
    ensures Shr(Replicated(v, n), 8 - n) == v
  {
    hide Low, Or, Shl, Shr, Pow2;
    var x, low := Shl(v, 8 - n), Shr(v, 2 * n - 8);
    CopiesFit(v, n);
    ShrOfShl(v, 8 - n, n);
    OrCommutes(x, low);
    OrIsSum(low, v, 8 - n);
    LowByte(x);
    LowByte(x + low);
    ShrOfJoin(low, v, 8 - n);
  }

  lemma DoubleFits(v: nat, bit: nat, n: nat)
    requires n < 8 && v < Pow2(n) && bit < 2
    ensures Shl(v, 1) == 2 * v && 2 * v + bit < Pow2(n + 1) && 2 * v + bit < 256
  {
    Pow2Mono(n + 1, 8);
    assert Pow2(8) == 256;
  }

  lemma AppendIsDouble(v: nat, bit: nat, n: nat)
    requires n < 8 && v < Pow2(n) && bit < 2
    ensures AppendBit(v, bit) == 2 * v + bit < Pow2(n + 1)
  {
    hide Low, Or, Shl, Pow2;
    DoubleFits(v, bit, n);
    LowByte(2 * v);
    OrBit(v, bit);
    LowByte(2 * v + bit);
  }

  // ---------- reading the endpoints ----------

  function ReadRaw(low: nat, high: nat, m: Mode, e: nat): Color
    requires m.ns > 0
  {
    Color(Get(low, high, m.Red(e)), Get(low, high, m.Green(e)), Get(low, high, m.Blue(e)),
          if m.ab > 0 then Get(low, high, m.Alpha(e)) else 255)
  }

  /** The shared bit goes to the colour channels only, the endpoint's own bit to alpha as well. */
  function ReadPBits(low: nat, high: nat, m: Mode, e: nat, c: Color): Color
    requires m.ns > 0
  {
    var c1 := if m.spb == 0 then c else
      var bit := Get(low, high, if e < 2 then m.SharedPBit0() else m.SharedPBit1());
      Color(AppendBit(c.r, bit), AppendBit(c.g, bit), AppendBit(c.b, bit), c.a);
    if m.epb == 0 then c1 else
      var bit := Get(low, high, m.EndpointPBit(e));
      Color(AppendBit(c1.r, bit), AppendBit(c1.g, bit), AppendBit(c1.b, bit),
            if m.ab > 0 then AppendBit(c1.a, bit) else c1.a)
  }

  function WidenAll(m: Mode, c: Color): Color
    requires m.cb + m.spb + m.epb <= 8 && (m.ab > 0 ==> m.ab + m.spb + m.epb <= 8)
  {
    var n := m.cb + m.spb + m.epb;
    Color(Widen(c.r, n), Widen(c.g, n), Widen(c.b, n), if m.ab > 0 then Widen(c.a, m.ab + m.spb + m.epb) else c.a)
  }

  /** One channel of an endpoint without and with an extra low bit. */
  lemma ReadChannel(low: nat, high: nat, bf: Bitfield)
    requires IsWord(low) && 4 <= bf.count <= 8
    ensures Widen(Get(low, high, bf), bf.count) == Replicated(Field8(Value(low, high), bf), bf.count)
  {
    GetIsSlice(low, high, bf);
    WidenIsReplicated(Get(low, high, bf), bf.count);
  }

  lemma ReadChannelWithBit(low: nat, high: nat, bf: Bitfield, pf: Bitfield)
    requires IsWord(low) && 3 <= bf.count < 8 && pf.count == 1
    ensures Widen(AppendBit(Get(low, high, bf), Get(low, high, pf)), bf.count + 1)
            == Replicated(2 * Field8(Value(low, high), bf) + Field8(Value(low, high), pf), bf.count + 1)
  {
    hide Get, Widen, Replicated, AppendBit, Shr;
    GetIsSlice(low, high, bf);
    GetIsSlice(low, high, pf);
    assert Pow2(1) == 2;
    AppendIsDouble(Get(low, high, bf), Get(low, high, pf), bf.count);
    WidenIsReplicated(AppendBit(Get(low, high, bf), Get(low, high, pf)), bf.count + 1);
  }

  /** What the decoder makes of a field, and what it should be. */
  function ReadWide(low: nat, high: nat, m: Mode, e: nat, bf: Bitfield): nat
    requires m.ns > 0 && bf.count + m.spb + m.epb <= 8
  {
    var v := Get(low, high, bf);
    Widen(if m.spb + m.epb > 0 then AppendBit(v, Get(low, high, PBitField(m, e))) else v, bf.count + m.spb + m.epb)
  }

  lemma ReadWideIsRight(low: nat, high: nat, m: Mode, e: nat, bf: Bitfield)
    requires IsWord(low) && ModeOk(m) && 4 <= bf.count + m.spb + m.epb <= 8
    ensures ReadWide(low, high, m, e, bf)
            == Channel(m, Value(low, high), e, bf)
  {
    hide Get, Slice, Widen, Replicated, AppendBit, Pow2;
    if m.spb + m.epb == 0 {
      ReadChannel(low, high, bf);
    } else {
      ReadChannelWithBit(low, high, bf, PBitField(m, e));
    }
  }

  lemma StagesCompose(low: nat, high: nat, m: Mode, e: nat)
    requires ModeOk(m)
    ensures m.Red(e).count == m.Green(e).count == m.Blue(e).count == m.cb && m.Alpha(e).count == m.ab
    ensures WidenAll(m, ReadPBits(low, high, m, e, ReadRaw(low, high, m, e)))
            == Color(ReadWide(low, high, m, e, m.Red(e)), ReadWide(low, high, m, e, m.Green(e)),
                     ReadWide(low, high, m, e, m.Blue(e)),
                     if m.ab > 0 then ReadWide(low, high, m, e, m.Alpha(e)) else 255)
  {
    FieldWidths(m, e);
    hide Get, Widen, AppendBit, Mode.Red, Mode.Green, Mode.Blue, Mode.Alpha;
    hide Mode.SharedPBit0, Mode.SharedPBit1, Mode.EndpointPBit;
  }

  lemma EndpointIsRead(low: nat, high: nat, m: Mode, e: nat)
    requires IsWord(low) && ModeOk(m)
    ensures WidenAll(m, ReadPBits(low, high, m, e, ReadRaw(low, high, m, e))) == EndpointOf(m, Value(low, high), e)
  {
    StagesCompose(low, high, m, e);
    hide Channel, ReadWide, WidenAll, ReadPBits, ReadRaw, IsWord, Value;
    hide Mode.Red, Mode.Green, Mode.Blue, Mode.Alpha;
    ReadWideIsRight(low, high, m, e, m.Red(e));
    ReadWideIsRight(low, high, m, e, m.Green(e));
    ReadWideIsRight(low, high, m, e, m.Blue(e));
    if m.ab > 0 { ReadWideIsRight(low, high, m, e, m.Alpha(e)); }
  }

  method ReadRawEndpoints(low: nat, high: nat, m: Mode) returns (ends: seq<Color>)
    requires m.ns > 0
    ensures |ends| == m.NumColors() && forall e :: 0 <= e < |ends| ==> ends[e] == ReadRaw(low, high, m, e)
  {
    ends := [];
    for e := 0 to m.NumColors()
      invariant |ends| == e && forall k :: 0 <= k < e ==> ends[k] == ReadRaw(low, high, m, k)
    {
      ends := ends + [ReadRaw(low, high, m, e)];
    }
  }

  method AddPBits(low: nat, high: nat, m: Mode, raw: seq<Color>) returns (ends: seq<Color>)
    requires m.ns > 0 && |raw| == m.NumColors()
    ensures |ends| == |raw| && forall e :: 0 <= e < |ends| ==> ends[e] == ReadPBits(low, high, m, e, raw[e])
  {
    ends := raw;
    for e := 0 to m.NumColors()
      invariant |ends| == |raw|
      invariant forall k :: 0 <= k < e ==> ends[k] == ReadPBits(low, high, m, k, raw[k])
      invariant forall k :: e <= k < |ends| ==> ends[k] == raw[k]
    {
      ends := ends[e := ReadPBits(low, high, m, e, raw[e])];
    }
  }

  method ReadEndpoints(low: nat, high: nat, m: Mode) returns (ends: seq<Color>)
    requires IsWord(low) && ModeOk(m)
    ensures EndsOk(m, Value(low, high), ends)
  {
    hide Get, Slice, Widen, Replicated, AppendBit, ReadPBits, ReadRaw, EndpointOf;
    var raw := ReadRawEndpoints(low, high, m);
    var narrow := AddPBits(low, high, m, raw);
    ends := narrow;
    for e := 0 to m.NumColors()
      invariant |ends| == |narrow|
      invariant forall k :: 0 <= k < e ==> ends[k] == EndpointOf(m, Value(low, high), k)
      invariant forall k :: e <= k < |ends| ==> ends[k] == narrow[k]
    {
      EndpointIsRead(low, high, m, e);
      assert narrow[e] == ReadPBits(low, high, m, e, raw[e]);
      ends := ends[e := WidenAll(m, narrow[e])];
    }
  }

  // ---------- indices ----------

  datatype Index = Index(value: nat, bits: nat)

  function ColorIsSecondary(m: Mode, block: nat): bool {
    Field8(block, m.IndexSelection()) == 1
  }

  function AlphaIsSecondary(m: Mode, block: nat): bool {
    m.ib2 != 0 && Field8(block, m.IndexSelection()) == 0
  }

  lemma SelectionBit(m: Mode, block: nat)
    requires ModeOk(m)
    ensures Field8(block, m.IndexSelection()) <= 1 && (ColorIsSecondary(m, block) ==> m.ib2 > 0)
  {
    assert Pow2(0) == 1 && Pow2(1) == 2;
  }

  function IndexField(m: Mode, secondary: bool, offset: nat, count: nat): Bitfield
    requires m.ns > 0
  {
    if secondary then m.SecondaryIndex(offset, count) else m.PrimaryIndex(offset, count)
  }

  function IndexBits(m: Mode, secondary: bool): nat {
    if secondary then m.ib2 else m.ib
  }

  /** The index of texel `t`, read where it is stored. */
  ghost function IndexAt(m: Mode, block: nat, part: Partitioning, secondary: bool, t: nat): Index
    requires m.ns > 0
    requires IndexOffset(IndexBits(m, secondary), part.anchors, t) >= 0
      && IndexWidth(IndexBits(m, secondary), part.anchors, t) >= 0
  {
    var bits := IndexBits(m, secondary);
    var bf := IndexField(m, secondary, IndexOffset(bits, part.anchors, t), IndexWidth(bits, part.anchors, t));
    Index(Field8(block, bf), bits)
  }

  // ---------- texels ----------

  function Interpolate(e0: nat, e1: nat, index: Index): nat {
    var w := Weight(index.bits, index.value);
    ((64 - w) * e0 + w * e1 + 32) / 64
  }

  /** Interpolation stays between its endpoints, so 8-bit endpoints give an 8-bit channel. */
  lemma InterpolationIsBetween(e0: nat, e1: nat, index: Index)
    ensures e0 <= e1 ==> e0 <= Interpolate(e0, e1, index) <= e1
    ensures e1 <= e0 ==> e1 <= Interpolate(e0, e1, index) <= e0
  {
    var w := Weight(index.bits, index.value);
    assert w <= 64;
    hide Weight;
    if e0 <= e1 { WeightedSum(w, e0, e1); }
    if e1 <= e0 { WeightedSum(64 - w, e1, e0); }
  }

  /** Swaps alpha with the channel the rotation field names. */
  function Rotated(c: Color, rotation: nat): Color {
    match rotation
    case 1 => Color(c.a, c.g, c.b, c.r)
    case 2 => Color(c.r, c.a, c.b, c.g)
    case 3 => Color(c.r, c.g, c.a, c.b)
    case _ => c
  }

  function Blend(e0: Color, e1: Color, color: Index, alpha: Index): Color {
    Color(Interpolate(e0.r, e1.r, color), Interpolate(e0.g, e1.g, color), Interpolate(e0.b, e1.b, color),
          Interpolate(e0.a, e1.a, alpha))
  }

  ghost function ColorIndexOf(m: Mode, block: nat, part: Partitioning, t: nat): Index
    requires ModeOk(m) && Sound(part, m.ns) && t < 16
  {
    SelectionBit(m, block);
    NextIndex(IndexBits(m, ColorIsSecondary(m, block)), part, m.ns, t);
    IndexAt(m, block, part, ColorIsSecondary(m, block), t)
  }

  ghost function AlphaIndexOf(m: Mode, block: nat, part: Partitioning, t: nat): Index
    requires ModeOk(m) && Sound(part, m.ns) && t < 16
  {
    NextIndex(IndexBits(m, AlphaIsSecondary(m, block)), part, m.ns, t);
    IndexAt(m, block, part, AlphaIsSecondary(m, block), t)
  }

  ghost function TexelOf(m: Mode, block: nat, part: Partitioning, t: nat): Color
    requires ModeOk(m) && Sound(part, m.ns) && t < 16
  {
    var s := part.subset[t];
    Rotated(Blend(EndpointOf(m, block, 2 * s), EndpointOf(m, block, 2 * s + 1),
                  ColorIndexOf(m, block, part, t), AlphaIndexOf(m, block, part, t)),
            Field8(block, m.Rotation()))
  }

  /** Memory order of the output: red, green, blue, alpha. */
  function Bytes(c: Color): (r: seq<nat>)
    ensures |r| == 4
  {
    [c.r, c.g, c.b, c.a]
  }

  const Black: seq<nat> := [0, 0, 0, 0]

  lemma PartitionInRange(m: Mode, block: nat)
    requires ModeOk(m)
    ensures Field8(block, m.Partition()) < 64
    ensures Sound(PartitioningOf(m.ns, Field8(block, m.Partition())), m.ns)
  {
    Pow2Mono(m.pb, 6);
    assert Pow2(6) == 64;
    TablesAreSound(m.ns, Field8(block, m.Partition()));
  }

  /** The 16 texels of a block; a block without a mode is transparent black. */
  ghost function Texels(block: nat): (r: seq<seq<nat>>)
    ensures |r| == 16 && forall t :: 0 <= t < 16 ==> |r[t]| == 4
  {
    match ModeOf(block)
    case None => seq(16, _ => Black)
    case Some(i) =>
      ModesAreOk(i);
      PartitionInRange(Modes(i), block);
      TexelsIn(Modes(i), block, PartitioningOf(Modes(i).ns, Field8(block, Modes(i).Partition())))
  }

  ghost function TexelsIn(m: Mode, block: nat, part: Partitioning): (r: seq<seq<nat>>)
    requires ModeOk(m) && Sound(part, m.ns)
    ensures |r| == 16 && forall t :: 0 <= t < 16 ==> |r[t]| == 4
  {
    seq(16, t requires 0 <= t < 16 => Bytes(TexelOf(m, block, part, t)))
  }

  // ---------- the decoder ----------

  lemma IndexFieldWidth(m: Mode, secondary: bool, offset: nat, count: nat)
    requires m.ns > 0
    ensures IndexField(m, secondary, offset, count).count == count
  {
  }

  /** `colorIndex` and `alphaIndex`: reads an index at the running offset and moves past it. */
  method ReadIndex(low: nat, high: nat, m: Mode, secondary: bool, isAnchor: bool, offset: nat)
    returns (index: Index, offset': nat)
    requires IsWord(low) && ModeOk(m) && (secondary ==> m.ib2 > 0)
    ensures var count := IndexBits(m, secondary) - (if isAnchor then 1 else 0);
            && count >= 0 && offset' == offset + count
            && index == Index(Field8(Value(low, high), IndexField(m, secondary, offset, count)),
               IndexBits(m, secondary))
  {
    hide Get, Slice, Mode.SecondaryIndex, Mode.PrimaryIndex;
    IndexFieldWidth(m, secondary, offset, IndexBits(m, secondary) - (if isAnchor then 1 else 0));
    var bits := if secondary then m.ib2 else m.ib;
    var count := bits - (if isAnchor then 1 else 0);
    var bf := if secondary then m.SecondaryIndex(offset, count) else m.PrimaryIndex(offset, count);
    GetIsSlice(low, high, bf);
    index, offset' := Index(Get(low, high, bf), bits), offset + count;
  }

  /** The colour of one texel from the endpoints and indices that were read. */
  method Output(low: nat, high: nat, m: Mode, e0: Color, e1: Color, color: Index, alpha: Index) returns (c: Color)
    requires IsWord(low) && ModeOk(m)
    ensures c == Rotated(Blend(e0, e1, color, alpha), Field8(Value(low, high), m.Rotation()))
  {
    GetIsSlice(low, high, m.Rotation());
    c := Color(Interpolate(e0.r, e1.r, color), Interpolate(e0.g, e1.g, color), Interpolate(e0.b, e1.b, color),
               Interpolate(e0.a, e1.a, alpha));
    match Get(low, high, m.Rotation()) {
      case 1 => c := Color(c.a, c.g, c.b, c.r);
      case 2 => c := Color(c.r, c.a, c.b, c.g);
      case 3 => c := Color(c.r, c.g, c.a, c.b);
      case _ =>
    }
  }

  /** The running offsets are where the indices of texel `t` begin. */
  ghost predicate OffsetsAt(m: Mode, block: nat, part: Partitioning, t: nat, color: nat, alpha: nat) {
    && color == IndexOffset(IndexBits(m, ColorIsSecondary(m, block)), part.anchors, t)
    && alpha == IndexOffset(IndexBits(m, AlphaIsSecondary(m, block)), part.anchors, t)
  }

  ghost predicate EndsOk(m: Mode, block: nat, ends: seq<Color>)
    requires ModeOk(m)
  {
    |ends| == m.NumColors() && forall e :: 0 <= e < |ends| ==> ends[e] == EndpointOf(m, block, e)
  }

  lemma IndexBitsPositive(m: Mode, secondary: bool)
    requires ModeOk(m) && (secondary ==> m.ib2 > 0)
    ensures IndexBits(m, secondary) >= 1
  {
  }

  /** Reads the index of texel `t` and moves on to that of the next one. */
  method TakeIndex(low: nat, high: nat, m: Mode, part: Partitioning, secondary: bool, t: nat, isAnchor: bool,
      offset: nat)
    returns (index: Index, offset': nat)
    requires IsWord(low) && ModeOk(m) && Sound(part, m.ns) && t < 16 && (secondary ==> m.ib2 > 0)
    requires isAnchor <==> t in part.anchors
    requires offset == IndexOffset(IndexBits(m, secondary), part.anchors, t)
    ensures IndexOffset(IndexBits(m, secondary), part.anchors, t) >= 0
      && IndexWidth(IndexBits(m, secondary), part.anchors, t) >= 0
    ensures index == IndexAt(m, Value(low, high), part, secondary, t)
    ensures offset' == IndexOffset(IndexBits(m, secondary), part.anchors, t + 1)
  {
    hide ModeOk, Sound, Slice, IsWord, Value, IndexOffset, IndexField, IndexBits;
    IndexBitsPositive(m, secondary);
    NextIndex(IndexBits(m, secondary), part, m.ns, t);
    index, offset' := ReadIndex(low, high, m, secondary, isAnchor, offset);
  }

  method TakeIndices(low: nat, high: nat, m: Mode, part: Partitioning, t: nat, isAnchor: bool, colorOffset: nat,
      alphaOffset: nat)
    returns (color: Index, alpha: Index, colorOffset': nat, alphaOffset': nat)
    requires IsWord(low) && ModeOk(m) && Sound(part, m.ns) && t < 16
    requires isAnchor <==> t in part.anchors
    requires OffsetsAt(m, Value(low, high), part, t, colorOffset, alphaOffset)
    ensures color == ColorIndexOf(m, Value(low, high), part, t) && alpha == AlphaIndexOf(m, Value(low, high), part, t)
    ensures OffsetsAt(m, Value(low, high), part, t + 1, colorOffset', alphaOffset')
  {
    GetIsSlice(low, high, m.IndexSelection());
    SelectionBit(m, Value(low, high));
    var idx := Get(low, high, m.IndexSelection());
    hide ModeOk, Sound, Get, Slice, IsWord, Value, IndexOffset, IndexWidth, IndexAt, IndexBits, Mode.IndexSelection;
    color, colorOffset' := TakeIndex(low, high, m, part, idx == 1, t, isAnchor, colorOffset);
    alpha, alphaOffset' := TakeIndex(low, high, m, part, m.ib2 != 0 && idx == 0, t, isAnchor, alphaOffset);
  }

  lemma SubsetInRange(part: Partitioning, m: Mode, t: nat)
    requires ModeOk(m) && Sound(part, m.ns) && t < 16
    ensures |part.subset| == 16 && |part.anchors| == m.ns && part.subset[t] < m.ns
  {
  }

  lemma TexelFrom(m: Mode, block: nat, part: Partitioning, ends: seq<Color>, t: nat)
    requires ModeOk(m) && Sound(part, m.ns) && t < 16 && EndsOk(m, block, ends)
    ensures |ends| == 2 * m.ns && part.subset[t] < m.ns
    ensures TexelOf(m, block, part, t)
            == Rotated(Blend(ends[2 * part.subset[t]], ends[2 * part.subset[t] + 1],
                             ColorIndexOf(m, block, part, t), AlphaIndexOf(m, block, part, t)),
                       Field8(block, m.Rotation()))
  {
    hide EndpointOf, ColorIndexOf, AlphaIndexOf, Blend, Rotated, Slice, Mode.Rotation;
  }

  /** One round of the texel loop: the colour of texel `t`, and the offsets for the next one. */
  method NextTexel(low: nat, high: nat, m: Mode, part: Partitioning, ends: seq<Color>, t: nat,
                   colorOffset: nat, alphaOffset: nat) returns (c: Color, colorOffset': nat, alphaOffset': nat)
    requires IsWord(low) && ModeOk(m) && Sound(part, m.ns) && t < 16
    requires EndsOk(m, Value(low, high), ends)
    requires OffsetsAt(m, Value(low, high), part, t, colorOffset, alphaOffset)
    ensures c == TexelOf(m, Value(low, high), part, t)
    ensures OffsetsAt(m, Value(low, high), part, t + 1, colorOffset', alphaOffset')
  {
    SubsetInRange(part, m, t);
    AnchorTest(part, m.ns, t);
    hide ModeOk, Sound, Value, IsWord, OffsetsAt, ColorIndexOf, AlphaIndexOf, EndsOk, TexelOf, Blend, Rotated, Slice,
      Field8, Mode.Rotation;
    var color, alpha;
    color, alpha, colorOffset', alphaOffset' :=
      TakeIndices(low, high, m, part, t, part.anchors[part.subset[t]] == t, colorOffset, alphaOffset);
    TexelFrom(m, Value(low, high), part, ends, t);
    c := Output(low, high, m, ends[2 * part.subset[t]], ends[2 * part.subset[t] + 1], color, alpha);
  }

  /** The texel loop: every index is read, whether its texel is visible or not. */
  method DecodeTexels(low: nat, high: nat, m: Mode, part: Partitioning, dst: array<nat>, g: Grid)
    requires IsWord(low) && ModeOk(m) && Sound(part, m.ns) && g.bpp == 4 && Room(g, dst.Length)
    modifies dst
    ensures dst[..] == Painted(old(dst[..]), g, TexelsIn(m, Value(low, high), part), 16)
  {
    ghost var image, texels, block := dst[..], TexelsIn(m, Value(low, high), part), Value(low, high);
    var ends := ReadEndpoints(low, high, m);
    var colorOffset, alphaOffset := 0, 0;
    OffsetsStartAtZero(m, block, part);
    hide ModeOk, Sound, IsWord, Value, OffsetsAt, Room, TexelOf, Bytes, InBounds, EndsOk, EndpointOf;
    for t := 0 to 16
      invariant OffsetsAt(m, block, part, t, colorOffset, alphaOffset)
      invariant dst[..] == Painted(image, g, texels, t)
    {
      var c;
      c, colorOffset, alphaOffset := NextTexel(low, high, m, part, ends, t, colorOffset, alphaOffset);
      if InBounds(g, t) {
        Write(dst, g, image, texels, t, Bytes(c));
      } else {
        HiddenTexel(image, g, texels, t);
      }
    }
  }

  lemma OffsetsStartAtZero(m: Mode, block: nat, part: Partitioning)
    requires ModeOk(m) && Sound(part, m.ns)
    ensures OffsetsAt(m, block, part, 0, 0, 0)
  {
    AnchorsBeforeBound(part.anchors, 0);
  }

  lemma ModeIsInTheLowHalf(low: nat, high: nat)
    requires IsWord(low)
    ensures ModeOf(low) == ModeOf(Value(low, high))
  {
    forall k: nat | k < 8 ensures Bit(low, k) <==> Bit(Value(low, high), k) {
      BitOfJoin(low, high, 64, k);
    }
  }

  method ClearTexels(dst: array<nat>, g: Grid)
    requires g.bpp == 4 && Room(g, dst.Length)
    modifies dst
    ensures dst[..] == Painted(old(dst[..]), g, seq(16, _ => Black), 16)
  {
    ghost var image, texels := dst[..], seq(16, _ => Black);
    for t := 0 to 16
      invariant dst[..] == Painted(image, g, texels, t)
    {
      if InBounds(g, t) {
        Write(dst, g, image, texels, t, Black);
      } else {
        HiddenTexel(image, g, texels, t);
      }
    }
  }

  /** Decodes a block into an image: the visible texels are those of the reference, and nothing else
      changes (`TexelGrid.PaintedExactly`). */
  method Decode(low: nat, high: nat, dst: array<nat>, g: Grid)
    requires IsWord(low) && g.bpp == 4 && Room(g, dst.Length)
    modifies dst
    ensures dst[..] == Painted(old(dst[..]), g, Texels(Value(low, high)), 16)
  {
    ghost var block := Value(low, high);
    ModeIsInTheLowHalf(low, high);
    var i := ModeOf(low);
    if i.None? {
      ClearTexels(dst, g);
    } else {
      var m := Modes(i.value);
      ModesAreOk(i.value);
      PartitionInRange(m, block);
      GetIsSlice(low, high, m.Partition());
      hide ModeOk, Sound, TexelsIn, Painted, Get, Slice, Room, IsWord, Value, ModeOf, Modes, PartitioningOf;
      DecodeTexels(low, high, m, PartitioningOf(m.ns, Get(low, high, m.Partition())), dst, g);
    }
  }

  // ---------- what the decoder may rely on ----------

  /** The running offsets end exactly at the end of the index field they run through. */
  lemma IndexFieldsAreUsedUp(i: nat, part: Partitioning, secondary: bool)
    requires i < 8 && Sound(part, Modes(i).ns) && (secondary ==> Modes(i).ib2 > 0)
    ensures IndexOffset(IndexBits(Modes(i), secondary), part.anchors, 16)
            == (if secondary then SecondaryBits(Modes(i)) else Modes(i).ibc)
  {
    ModesAreOk(i);
    IndicesFillTheirField(IndexBits(Modes(i), secondary), part, Modes(i).ns);
  }

  /** Every index is inside the table of weights. */
  lemma IndexIsInTheTable(m: Mode, block: nat, part: Partitioning, secondary: bool, t: nat)
    requires ModeOk(m) && Sound(part, m.ns) && t < 16 && (secondary ==> m.ib2 > 0)
    ensures IndexOffset(IndexBits(m, secondary), part.anchors, t) >= 0
      && IndexWidth(IndexBits(m, secondary), part.anchors, t) >= 0
    ensures IndexAt(m, block, part, secondary, t).value < Pow2(IndexBits(m, secondary))
  {
    var bits := IndexBits(m, secondary);
    NextIndex(bits, part, m.ns, t);
    Pow2Mono(IndexWidth(bits, part.anchors, t), bits);
    IndexFieldWidth(m, secondary, IndexOffset(bits, part.anchors, t), IndexWidth(bits, part.anchors, t));
  }

  predicate IsByteColor(c: Color) {
    c.r < 256 && c.g < 256 && c.b < 256 && c.a < 256
  }

  lemma WithPBitFits(m: Mode, block: nat, e: nat, v: nat, n: nat)
    requires ModeOk(m) && v < Pow2(n)
    ensures WithPBit(m, block, e, v) < Pow2(n + m.spb + m.epb)
  {
    FieldWidths(m, e);
    hide Mode.SharedPBit0, Mode.SharedPBit1, Mode.EndpointPBit;
    if m.spb + m.epb > 0 {
      assert Field8(block, PBitField(m, e)) < Pow2(1) == 2;
      assert Pow2(n + 1) == 2 * Pow2(n);
    }
  }

  lemma ReplicatedIsByte(v: nat, n: nat)
    requires 4 <= n <= 8 && v < Pow2(n)
    ensures Replicated(v, n) < 256
  {
    hide Replicated, Pow2;
    WidenIsReplicated(v, n);
  }

  lemma FieldFits(block: nat, bf: Bitfield)
    ensures Field8(block, bf) < Pow2(bf.count)
  {
  }

  lemma ChannelIsByte(m: Mode, block: nat, e: nat, bf: Bitfield)
    requires ModeOk(m) && m.ns > 0 && 4 <= bf.count + m.spb + m.epb <= 8
    ensures Channel(m, block, e, bf) < 256
  {
    hide WithPBit, Replicated, Pow2, Field8, ModeOk;
    FieldFits(block, bf);
    WithPBitFits(m, block, e, Field8(block, bf), bf.count);
    ReplicatedIsByte(WithPBit(m, block, e, Field8(block, bf)), bf.count + m.spb + m.epb);
  }

  lemma EndpointIsBytes(m: Mode, block: nat, e: nat)
    requires ModeOk(m)
    ensures IsByteColor(EndpointOf(m, block, e))
  {
    FieldWidths(m, e);
    hide Channel, Mode.Red, Mode.Green, Mode.Blue, Mode.Alpha;
    ChannelIsByte(m, block, e, m.Red(e));
    ChannelIsByte(m, block, e, m.Green(e));
    ChannelIsByte(m, block, e, m.Blue(e));
    if m.ab > 0 { ChannelIsByte(m, block, e, m.Alpha(e)); }
  }

  lemma BlendIsBytes(e0: Color, e1: Color, color: Index, alpha: Index, rotation: nat)
    requires IsByteColor(e0) && IsByteColor(e1)
    ensures IsByteColor(Rotated(Blend(e0, e1, color, alpha), rotation))
  {
    hide Interpolate;
    InterpolationIsBetween(e0.r, e1.r, color);
    InterpolationIsBetween(e0.g, e1.g, color);
    InterpolationIsBetween(e0.b, e1.b, color);
    InterpolationIsBetween(e0.a, e1.a, alpha);
  }

  lemma TexelIsBytes(m: Mode, block: nat, part: Partitioning, t: nat)
    requires ModeOk(m) && Sound(part, m.ns) && t < 16
    ensures IsByteColor(TexelOf(m, block, part, t))
  {
    hide ModeOk, EndpointOf, Blend, Rotated, Field8, Mode.Rotation, ColorIndexOf, AlphaIndexOf, IsByteColor;
    var s := part.subset[t];
    EndpointIsBytes(m, block, 2 * s);
    EndpointIsBytes(m, block, 2 * s + 1);
    BlendIsBytes(EndpointOf(m, block, 2 * s), EndpointOf(m, block, 2 * s + 1), ColorIndexOf(m, block, part, t),
                 AlphaIndexOf(m, block, part, t), Field8(block, m.Rotation()));
  }

  lemma TexelsInAreBytes(m: Mode, block: nat, part: Partitioning, t: nat, k: nat)
    requires ModeOk(m) && Sound(part, m.ns) && t < 16 && k < 4
    ensures TexelsIn(m, block, part)[t][k] < 256
  {
    hide ModeOk, Sound, TexelOf;
    TexelIsBytes(m, block, part, t);
  }

  /** All four channels of every texel of every block are bytes: nothing is cut off when they are stored. */
  lemma TexelsAreBytes(block: nat, t: nat, k: nat)
    requires t < 16 && k < 4
    ensures Texels(block)[t][k] < 256
  {
    hide Modes, ModeOk, Sound, TexelsIn, Field8, PartitioningOf, Mode.Partition, ModeOf;
    var mode := ModeOf(block);
    if mode.Some? {
      var m := Modes(mode.value);
      ModesAreOk(mode.value);
      PartitionInRange(m, block);
      TexelsInAreBytes(m, block, PartitioningOf(m.ns, Field8(block, m.Partition())), t, k);
    }
  }
}
