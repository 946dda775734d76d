/** How a 128-bit BC7 block is cut into fields (externals/bc_decoder/bc_decoder.cpp, namespace BC7),
    after the mode tables of ARB_texture_compression_bptc. */
module Bc7Layout {
  import opened Wrappers
  import opened BitMath
  import opened BitPacking

  datatype Bitfield = Bitfield(offset: nat, count: nat) {
    function End(): nat { offset + count }

    function Next(bits: nat): Bitfield { Bitfield(offset + count, bits) }

    predicate Has(bit: nat) { offset <= bit < offset + count }
  }

  datatype Mode = Mode(idx: nat, ns: nat, pb: nat, rb: nat, isb: nat, cb: nat, ab: nat, epb: nat, spb: nat,
                       ib: nat, ibc: nat, ib2: nat)
  {
    function NumColors(): nat { ns * 2 }

    function Partition(): Bitfield { Bitfield(idx + 1, pb) }

    function Rotation(): Bitfield { Partition().Next(rb) }

    function IndexSelection(): Bitfield { Rotation().Next(isb) }

    function Red(i: nat): Bitfield { IndexSelection().Next(cb * i).Next(cb) }

    function Green(i: nat): Bitfield
      requires ns > 0
    { Red(NumColors() - 1).Next(cb * i).Next(cb) }

    function Blue(i: nat): Bitfield
      requires ns > 0
    { Green(NumColors() - 1).Next(cb * i).Next(cb) }

    function Alpha(i: nat): Bitfield
      requires ns > 0
    { Blue(NumColors() - 1).Next(ab * i).Next(ab) }

    function EndpointPBit(i: nat): Bitfield
      requires ns > 0
    { Alpha(NumColors() - 1).Next(epb * i).Next(epb) }

    function SharedPBit0(): Bitfield
      requires ns > 0
    { EndpointPBit(NumColors() - 1).Next(spb) }

    function SharedPBit1(): Bitfield
      requires ns > 0
    { SharedPBit0().Next(spb) }

    function PrimaryIndex(offset: nat, count: nat): Bitfield
      requires ns > 0
    { SharedPBit1().Next(offset).Next(count) }

    function SecondaryIndex(offset: nat, count: nat): Bitfield
      requires ns > 0
    { SharedPBit1().Next(ibc + offset).Next(count) }
  }

  function Modes(i: nat): (m: Mode)
    requires i < 8
    ensures m.ns > 0 && m.idx == i
  {
    match i
    case 0 => Mode(0, 3, 4, 0, 0, 4, 0, 1, 0, 3, 0x2d, 0)
    case 1 => Mode(1, 2, 6, 0, 0, 6, 0, 0, 1, 3, 0x2e, 0)
    case 2 => Mode(2, 3, 6, 0, 0, 5, 0, 0, 0, 2, 0x1d, 0)
    case 3 => Mode(3, 2, 6, 0, 0, 7, 0, 1, 0, 2, 0x1e, 0)
    case 4 => Mode(4, 1, 0, 2, 1, 5, 6, 0, 0, 2, 0x1f, 3)
    case 5 => Mode(5, 1, 0, 2, 0, 7, 8, 0, 0, 2, 0x1f, 2)
    case 6 => Mode(6, 1, 0, 0, 0, 7, 7, 1, 0, 4, 0x3f, 0)
    case 7 => Mode(7, 2, 6, 0, 0, 5, 5, 1, 0, 2, 0x1e, 0)
  }

  /** The mode is the number of zeros below the lowest one among the first eight bits. */
  function ModeOf(block: nat): (r: Option<nat>)
    ensures r.Some? ==> r.value < 8
  {
    if Bit(block, 0) then Some(0) else if Bit(block, 1) then Some(1)
    else if Bit(block, 2) then Some(2) else if Bit(block, 3) then Some(3)
    else if Bit(block, 4) then Some(4) else if Bit(block, 5) then Some(5)
    else if Bit(block, 6) then Some(6) else if Bit(block, 7) then Some(7)
    else None
  }

  // ---------- reading a field from two 64-bit halves ----------

  /** The 64-bit word whose low bits are the field. */
  function Word(low: nat, high: nat, bf: Bitfield): nat {
    if bf.offset + bf.count <= 64 then Shr(low, bf.offset)
    else if bf.offset >= 64 then Shr(high, bf.offset - 64)
    else Or(Shr(low, bf.offset), Low(Shl(high, 64 - bf.offset), 64))
  }

  function Get(low: nat, high: nat, bf: Bitfield): nat {
    And(Word(low, high, bf), Pow2(bf.count) - 1)
  }

  lemma BitOfValue(low: nat, high: nat, k: nat)
    requires IsWord(low)
    ensures Bit(Value(low, high), k) <==> if k < 64 then Bit(low, k) else Bit(high, k - 64)
  {
    BitOfJoin(low, high, 64, k);
  }

  lemma NoBitsAbove(low: nat, k: nat)
    requires IsWord(low) && k >= 64
    ensures !Bit(low, k)
  {
    NoHighBits(low, 64, k);
  }

  lemma WordBit(low: nat, high: nat, bf: Bitfield, i: nat)
    requires IsWord(low) && i < bf.count <= 64
    ensures Bit(Word(low, high, bf), i) <==> Bit(Value(low, high), i + bf.offset)
  {
    hide Bit, Shl, Shr, Or, Low, Value, IsWord;
    BitOfValue(low, high, i + bf.offset);
    BitOfShr(low, bf.offset, i);
    if bf.offset >= 64 {
      BitOfShr(high, bf.offset - 64, i);
    } else {
      var up := Shl(high, 64 - bf.offset);
      BitOfOr(Shr(low, bf.offset), Low(up, 64), i);
      BitOfLow(up, 64, i);
      BitOfShl(high, 64 - bf.offset, i);
      if i + bf.offset >= 64 {
        NoBitsAbove(low, i + bf.offset);
      }
    }
  }

  /** A field is the slice of the whole block, also where it straddles the two halves. */
  lemma GetIsSlice(low: nat, high: nat, bf: Bitfield)
    requires IsWord(low) && bf.count <= 64
    ensures Get(low, high, bf) == Slice(Value(low, high), bf.offset, bf.count)
  {
    var v, w := Low(Word(low, high, bf), bf.count), Slice(Value(low, high), bf.offset, bf.count);
    MaskIsLow(Word(low, high, bf), bf.count);
    forall i | 0 <= i < bf.count ensures Bit(v, i) <==> Bit(w, i) {
      BitOfLow(Word(low, high, bf), bf.count, i);
      WordBit(low, high, bf, i);
      BitOfSlice(Value(low, high), bf.offset, bf.count, i);
    }
    SameBits(v, w, bf.count);
  }

  // ---------- the fields tile the block ----------

  /** Total bits of the secondary indices: one for each texel, one bit less for the anchor. */
  function SecondaryBits(m: Mode): nat {
    if m.ib2 == 0 then 0 else 16 * m.ib2 - 1
  }

  function FieldCount(m: Mode): nat {
    8 + 5 * m.NumColors()
  }

  /** The fields of a block in the order in which they are stored; the first is the unary mode. */
  function Field(m: Mode, k: nat): Bitfield
    requires m.ns > 0 && k < FieldCount(m)
  {
    var n := m.NumColors();
    if k == 0 then Bitfield(0, m.idx + 1)
    else if k == 1 then m.Partition()
    else if k == 2 then m.Rotation()
    else if k == 3 then m.IndexSelection()
    else if k < 4 + n then m.Red(k - 4)
    else if k < 4 + 2 * n then m.Green(k - 4 - n)
    else if k < 4 + 3 * n then m.Blue(k - 4 - 2 * n)
    else if k < 4 + 4 * n then m.Alpha(k - 4 - 3 * n)
    else if k < 4 + 5 * n then m.EndpointPBit(k - 4 - 4 * n)
    else if k == 4 + 5 * n then m.SharedPBit0()
    else if k == 5 + 5 * n then m.SharedPBit1()
    else if k == 6 + 5 * n then m.PrimaryIndex(0, m.ibc)
    else m.SecondaryIndex(0, SecondaryBits(m))
  }

  lemma StepOfProduct(c: nat, i: nat)
    ensures c * (i + 1) == c * i + c
  {
  }

  lemma ColoursAreAdjacent(m: Mode, k: nat)
    requires m.ns > 0 && k + 1 < 4 + 3 * m.NumColors()
    ensures Field(m, k + 1).offset == Field(m, k).End()
  {
    var n := m.NumColors();
    if 4 <= k < 4 + n { StepOfProduct(m.cb, k - 4); }
    else if 4 + n <= k < 4 + 2 * n { StepOfProduct(m.cb, k - 4 - n); }
    else if 4 + 2 * n <= k { StepOfProduct(m.cb, k - 4 - 2 * n); }
    assert m.cb * 0 == 0;
  }

  lemma OthersAreAdjacent(m: Mode, k: nat)
    requires m.ns > 0 && 4 + 3 * m.NumColors() <= k + 1 < FieldCount(m)
    ensures Field(m, k + 1).offset == Field(m, k).End()
  {
    var n := m.NumColors();
    if k == 3 + 3 * n { StepOfProduct(m.cb, n - 1); }
    else if k < 4 + 4 * n { StepOfProduct(m.ab, k - 4 - 3 * n); }
    else if k < 4 + 5 * n { StepOfProduct(m.epb, k - 4 - 4 * n); }
    assert m.ab * 0 == 0 && m.epb * 0 == 0;
  }

  /** Each field begins where the one before it ends. */
  lemma FieldsAreAdjacent(m: Mode, k: nat)
    requires m.ns > 0 && k + 1 < FieldCount(m)
    ensures Field(m, k + 1).offset == Field(m, k).End()
  {
    hide Field;
    if k + 1 < 4 + 3 * m.NumColors() {
      ColoursAreAdjacent(m, k);
    } else {
      OthersAreAdjacent(m, k);
    }
  }

  lemma LastFieldEnds(m: Mode)
    requires m.ns > 0
    ensures Field(m, FieldCount(m) - 1).End()
            == m.idx + 1 + m.pb + m.rb + m.isb
               + 3 * (m.cb * m.NumColors()) + m.ab * m.NumColors() + m.epb * m.NumColors()
               + 2 * m.spb + m.ibc + SecondaryBits(m)
  {
    var n := m.NumColors();
    StepOfProduct(m.cb, n - 1);
    StepOfProduct(m.ab, n - 1);
    StepOfProduct(m.epb, n - 1);
    assert m.SharedPBit1().End() == m.idx + 1 + m.pb + m.rb + m.isb + 3 * (m.cb * n) + m.ab * n + m.epb * n + 2 * m.spb;
  }

  lemma FieldsFillTheBlock(i: nat)
    requires i < 8
    ensures Field(Modes(i), 0).offset == 0
    ensures Field(Modes(i), FieldCount(Modes(i)) - 1).End() == 128
  {
    LastFieldEnds(Modes(i));
  }

  lemma {:induction false} FieldsAreOrdered(m: Mode, j: nat, k: nat)
    requires m.ns > 0 && j < k < FieldCount(m)
    ensures Field(m, j).End() <= Field(m, k).offset
  {
    FieldsAreAdjacent(m, k - 1);
    if j < k - 1 { FieldsAreOrdered(m, j, k - 1); }
  }

  lemma {:induction false} BitIsInSomeField(m: Mode, bit: nat, k: nat) returns (f: nat)
    requires m.ns > 0 && k < FieldCount(m) && Field(m, 0).offset == 0 && bit < Field(m, k).End()
    ensures f <= k && Field(m, f).Has(bit)
  {
    if Field(m, k).offset <= bit {
      f := k;
    } else {
      FieldsAreAdjacent(m, k - 1);
      f := BitIsInSomeField(m, bit, k - 1);
    }
  }

  /** Every bit of a block of a valid mode belongs to exactly one field. */
  lemma FieldsTile(i: nat, bit: nat)
    requires i < 8 && bit < 128
    ensures exists k :: 0 <= k < FieldCount(Modes(i)) && Field(Modes(i), k).Has(bit)
    ensures forall j, k :: 0 <= j < k < FieldCount(Modes(i)) ==>
      !(Field(Modes(i), j).Has(bit) && Field(Modes(i), k).Has(bit))
  {
    var m := Modes(i);
    FieldsFillTheBlock(i);
    var f := BitIsInSomeField(m, bit, FieldCount(m) - 1);
    forall j, k | 0 <= j < k < FieldCount(m) ensures !(Field(m, j).Has(bit) && Field(m, k).Has(bit)) {
      FieldsAreOrdered(m, j, k);
    }
  }

  // ---------- packing a block ----------

  ghost function Widths(m: Mode): seq<nat>
    requires m.ns > 0
  {
    seq(FieldCount(m), k requires 0 <= k < FieldCount(m) => Field(m, k).count)
  }

  lemma {:induction false} OffsetsAgree(m: Mode, k: nat)
    requires m.ns > 0 && k < FieldCount(m)
    ensures Sum(Widths(m)[..k]) == Field(m, k).offset
    ensures Sum(Widths(m)[..k + 1]) == Field(m, k).End()
  {
    SumTo(Widths(m), k);
    if k > 0 {
      OffsetsAgree(m, k - 1);
      FieldsAreAdjacent(m, k - 1);
    }
  }

  /** Reading a packed block gives back every field. */
  lemma PackedFields(m: Mode, values: seq<nat>, k: nat)
    requires m.ns > 0 && Fits(Widths(m), values) && k < FieldCount(m)
    ensures Slice(Pack(Widths(m), values), Field(m, k).offset, Field(m, k).count) == values[k]
  {
    OffsetsAgree(m, k);
    PackThenUnpack(Widths(m), values);
    UnpackedIsSlice(Widths(m), Pack(Widths(m), values), k);
  }

  lemma WidthsAddUp(m: Mode)
    requires m.ns > 0
    ensures Sum(Widths(m)) == Field(m, FieldCount(m) - 1).End()
  {
    OffsetsAgree(m, FieldCount(m) - 1);
    assert Widths(m)[..FieldCount(m)] == Widths(m);
  }

  /** The fields of a block, packed again, are the block: nothing is lost or left over. */
  lemma UnpackedFields(i: nat, block: nat)
    requires i < 8 && block < Pow2(128)
    ensures Pack(Widths(Modes(i)), Unpack(Widths(Modes(i)), block)) == block
  {
    FieldsFillTheBlock(i);
    WidthsAddUp(Modes(i));
    UnpackThenPack(Widths(Modes(i)), block);
  }

  lemma {:induction false} UnaryBits(n: nat, j: nat)
    ensures Bit(Pow2(n), j) <==> j == n
    decreases j
  {
    if n == 0 {
      if j > 0 { BitOfZero(j - 1); }
    } else if j > 0 {
      UnaryBits(n - 1, j - 1);
    }
  }

  lemma UnaryMode(block: nat, i: nat)
    requires i < 8 && Slice(block, 0, i + 1) == Pow2(i)
    ensures ModeOf(block) == Some(i)
  {
    forall j | 0 <= j <= i ensures Bit(block, j) <==> j == i {
      BitOfSlice(block, 0, i + 1, j);
      UnaryBits(i, j);
    }
  }

  /** A packed block whose first field is the unary numeral of its mode is read in that mode. */
  lemma PackedMode(m: Mode, values: seq<nat>)
    requires m.ns > 0 && m.idx < 8 && Fits(Widths(m), values) && values[0] == Pow2(m.idx)
    ensures ModeOf(Pack(Widths(m), values)) == Some(m.idx)
  {
    PackedFields(m, values, 0);
    UnaryMode(Pack(Widths(m), values), m.idx);
  }
}
