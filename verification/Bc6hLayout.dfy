/** Cutting up the header of a BC6H block (externals/bc_decoder/bc_decoder.cpp, namespace BC6H). */
module Bc6hLayout {
  import opened BitMath
  import opened Bc6hTables

  // ---------- the layouts are exact ----------

  lemma {:induction false} AppendChecks(a: Layout, b: Layout, d: ModeDesc)
    ensures Total(Append(a, b)) == Total(a) + Total(b)
    ensures InRange(a, d) && InRange(b, d) ==> InRange(Append(a, b), d)
    ensures Disjoint(a) && Disjoint(b) && Separate(a, b) ==> Disjoint(Append(a, b))
  {
    if a.Field? {
      AppendChecks(a.rest, b, d);
      if Separate(a, b) && Disjoint(a) { ApartAppend(a.rest, b, a.slot, a.msb, a.lsb); }
    }
  }

  lemma {:induction false} ApartAppend(a: Layout, b: Layout, slot: nat, p: nat, q: nat)
    ensures Apart(Append(a, b), slot, p, q) <==> Apart(a, slot, p, q) && Apart(b, slot, p, q)
  {
    if a.Field? { ApartAppend(a.rest, b, slot, p, q); }
  }

  lemma {:induction false} SeparateAppend(l: Layout, a: Layout, b: Layout)
    requires Separate(l, a) && Separate(l, b)
    ensures Separate(l, Append(a, b))
  {
    if l.Field? {
      SeparateAppend(l.rest, a, b);
      ApartAppend(a, b, l.slot, l.msb, l.lsb);
    }
  }

  /** A layout that sends its bits to different places inside the slots and fills them. */
  predicate Exact(l: Layout, d: ModeDesc) {
    InRange(l, d) && Disjoint(l) && Total(l) == HeaderBits(d)
  }

  lemma ExactFromRows(s: Spec)
    requires RowsAreExact(s)
    ensures Exact(Append(s.a, Append(s.b, Append(s.c, s.d))), s.desc)
  {
    var cd := Append(s.c, s.d);
    var bcd := Append(s.b, cd);
    AppendChecks(s.c, s.d, s.desc);
    SeparateAppend(s.b, s.c, s.d);
    AppendChecks(s.b, cd, s.desc);
    SeparateAppend(s.a, s.c, s.d);
    SeparateAppend(s.a, s.b, cd);
    AppendChecks(s.a, bcd, s.desc);
  }

  lemma LayoutsAreExact(i: nat)
    requires i < 14
    ensures Exact(LayoutOf(i), Desc(i))
  {
    RowsOfAllModes(i);
    hide RowsAreExact, Exact, SpecOf;
    ExactFromRows(SpecOf(i));
  }

  // ---------- where each header bit goes ----------

  /** The slot and the position that header bit `j` goes to. */
  function Place(l: Layout, j: nat): (nat, nat)
    requires j < Total(l)
  {
    if j >= l.Width() then Place(l.rest, j - l.Width())
    else (l.slot, if l.msb < l.lsb then l.Hi() - j else l.Lo() + j)
  }

  lemma {:induction false} PlaceApart(l: Layout, slot: nat, p: nat, q: nat, j: nat)
    requires Apart(l, slot, p, q) && j < Total(l)
    ensures var (s, r) := Place(l, j); s != slot || (r < p && r < q) || (p < r && q < r)
  {
    if j >= l.Width() { PlaceApart(l.rest, slot, p, q, j - l.Width()); }
  }

  /** Different header bits go to different places. */
  lemma {:induction false} PlacesDiffer(l: Layout, j: nat, k: nat)
    requires Disjoint(l) && j < k < Total(l)
    ensures Place(l, j) != Place(l, k)
  {
    if j >= l.Width() {
      PlacesDiffer(l.rest, j - l.Width(), k - l.Width());
    } else if k >= l.Width() {
      PlaceApart(l.rest, l.slot, l.msb, l.lsb, k - l.Width());
    }
  }

  lemma {:induction false} PlaceInRange(l: Layout, d: ModeDesc, j: nat)
    requires InRange(l, d) && j < Total(l)
    ensures Place(l, j).0 <= 12 && Place(l, j).1 < Size(d, Place(l, j).0)
  {
    if j >= l.Width() { PlaceInRange(l.rest, d, j - l.Width()); }
  }

  /** The places of the first `n` header bits. */
  ghost function Places(l: Layout, n: nat): set<(nat, nat)>
    requires n <= Total(l)
  {
    if n == 0 then {} else Places(l, n - 1) + {Place(l, n - 1)}
  }

  lemma {:induction false} FindPlace(l: Layout, n: nat, x: (nat, nat)) returns (j: nat)
    requires n <= Total(l) && x in Places(l, n)
    ensures j < n && Place(l, j) == x
  {
    if x == Place(l, n - 1) { j := n - 1; } else { j := FindPlace(l, n - 1, x); }
  }

  lemma {:induction false} CountPlaces(l: Layout, n: nat)
    requires Disjoint(l) && n <= Total(l)
    ensures |Places(l, n)| == n
  {
    if n > 0 {
      CountPlaces(l, n - 1);
      if Place(l, n - 1) in Places(l, n - 1) {
        var j := FindPlace(l, n - 1, Place(l, n - 1));
        PlacesDiffer(l, j, n - 1);
      }
    }
  }

  ghost function Positions(slot: nat, size: nat): set<(nat, nat)> {
    if size == 0 then {} else Positions(slot, size - 1) + {(slot, size - 1)}
  }

  lemma {:induction false} CountPositions(slot: nat, size: nat)
    ensures |Positions(slot, size)| == size
    ensures forall s: nat, p: nat :: (s, p) in Positions(slot, size) <==> s == slot && p < size
  {
    if size > 0 { CountPositions(slot, size - 1); }
  }

  /** All positions of the first `n` slots of a mode. */
  ghost function AllPositions(d: ModeDesc, n: nat): set<(nat, nat)> {
    if n == 0 then {} else AllPositions(d, n - 1) + Positions(n - 1, Size(d, n - 1))
  }

  lemma {:induction false} CountAllPositions(d: ModeDesc, n: nat)
    ensures |AllPositions(d, n)| == SizeUpTo(d, n)
    ensures forall s: nat, p: nat :: (s, p) in AllPositions(d, n) <==> s < n && p < Size(d, s)
  {
    if n > 0 {
      CountAllPositions(d, n - 1);
      CountPositions(n - 1, Size(d, n - 1));
      var a, b := AllPositions(d, n - 1), Positions(n - 1, Size(d, n - 1));
      forall x | x in a ensures x !in b { assert (x.0, x.1) in a; }
      assert a !! b;
    }
  }

  lemma ThreeSlots(d: ModeDesc, n: nat)
    ensures SizeUpTo(d, n + 3) == SizeUpTo(d, n) + Size(d, n) + Size(d, n + 1) + Size(d, n + 2)
  {
    assert SizeUpTo(d, n + 1) == SizeUpTo(d, n) + Size(d, n);
    assert SizeUpTo(d, n + 2) == SizeUpTo(d, n + 1) + Size(d, n + 1);
  }

  lemma SizesAddUp(d: ModeDesc)
    requires d.partitionCount == 1 || d.partitionCount == 2
    ensures SizeUpTo(d, 13) == HeaderBits(d)
  {
    ThreeSlots(d, 0);
    ThreeSlots(d, 3);
    ThreeSlots(d, 6);
    ThreeSlots(d, 9);
    assert SizeUpTo(d, 13) == SizeUpTo(d, 12) + Size(d, 12);
  }

  lemma SubsetOfSameSize<T>(a: set<T>, b: set<T>)
    requires a <= b && |a| == |b|
    ensures a == b
  {
    assert b == a + (b - a);
    assert |b| == |a| + |b - a|;
  }

  /** Every position of every slot receives some header bit. */
  lemma PlaceExists(l: Layout, d: ModeDesc, s: nat, p: nat) returns (j: nat)
    requires Exact(l, d) && (d.partitionCount == 1 || d.partitionCount == 2)
    requires s <= 12 && p < Size(d, s)
    ensures j < Total(l) && Place(l, j) == (s, p)
  {
    var a, b := Places(l, Total(l)), AllPositions(d, 13);
    CountPlaces(l, Total(l));
    CountAllPositions(d, 13);
    SizesAddUp(d);
    forall x | x in a ensures x in b {
      var k := FindPlace(l, Total(l), x);
      PlaceInRange(l, d, k);
      assert (x.0, x.1) in b;
    }
    SubsetOfSameSize(a, b);
    assert (s, p) in b;
    j := FindPlace(l, Total(l), (s, p));
  }

  // ---------- reading and writing a header ----------

  /** The low `n` bits of `x` in reverse order. */
  function Reversed(x: nat, n: nat): (r: nat)
    ensures r < Pow2(n)
  {
    if n == 0 then 0 else (ShlBound(x % 2, n - 1, 1); Shl(x % 2, n - 1) + Reversed(x / 2, n - 1))
  }

  lemma {:induction false} BitOfReversed(x: nat, n: nat, i: nat)
    ensures Bit(Reversed(x, n), i) <==> i < n && Bit(x, n - 1 - i)
  {
    if n == 0 {
      BitOfZero(i);
    } else {
      BitOfReversed(x / 2, n - 1, i);
      BitOfJoin(Reversed(x / 2, n - 1), x % 2, n - 1, i);
      if i >= n { BitOfZero(i - n); }
    }
  }

  /** What the first field of `l` contributes to its slot. */
  function Piece(l: Layout, x: nat): nat
    requires l.Field?
  {
    Shl(if l.msb < l.lsb then Reversed(x, l.Width()) else Low(x, l.Width()), l.Lo())
  }

  /** The value that a header `x` leaves in a slot. */
  function SlotValue(l: Layout, x: nat, slot: nat): nat {
    match l
    case End => 0
    case Field(s, _, _, rest) => Or(if s == slot then Piece(l, x) else 0, SlotValue(rest, Shr(x, l.Width()), slot))
  }

  lemma BitOfPiece(l: Layout, x: nat, p: nat)
    requires l.Field?
    ensures Bit(Piece(l, x), p) <==> l.Lo() <= p <= l.Hi() && Bit(x, if l.msb < l.lsb then l.Hi() - p else p - l.Lo())
  {
    var v := if l.msb < l.lsb then Reversed(x, l.Width()) else Low(x, l.Width());
    BitOfShl(v, l.Lo(), p);
    if p >= l.Lo() {
      BitOfReversed(x, l.Width(), p - l.Lo());
      BitOfLow(x, l.Width(), p - l.Lo());
    }
  }

  /** Header bit `j` is the bit of the slot it was sent to. */
  lemma {:induction false} BitArrives(l: Layout, x: nat, j: nat)
    requires j < Total(l) && Disjoint(l)
    ensures Bit(SlotValue(l, x, Place(l, j).0), Place(l, j).1) <==> Bit(x, j)
  {
    var (s, p) := Place(l, j);
    var w := l.Width();
    var here := if l.slot == s then Piece(l, x) else 0;
    BitOfOr(here, SlotValue(l.rest, Shr(x, w), s), p);
    BitOfPiece(l, x, p);
    if j >= w {
      BitArrives(l.rest, Shr(x, w), j - w);
      BitOfShr(x, w, j - w);
      PlaceApart(l.rest, l.slot, l.msb, l.lsb, j - w);
      BitOfZero(p);
    } else {
      ApartAt(l.rest, s, l.msb, l.lsb, p);
      NoOtherBit(l.rest, Shr(x, w), s, p);
    }
  }

  lemma {:induction false} ApartAt(l: Layout, slot: nat, p: nat, q: nat, r: nat)
    requires Apart(l, slot, p, q) && (p <= r <= q || q <= r <= p)
    ensures Apart(l, slot, r, r)
  {
    if l.Field? { ApartAt(l.rest, slot, p, q, r); }
  }

  /** Nothing else writes to a position that is set apart. */
  lemma {:induction false} NoOtherBit(l: Layout, x: nat, slot: nat, p: nat)
    requires Apart(l, slot, p, p)
    ensures !Bit(SlotValue(l, x, slot), p)
  {
    if l.End? {
      BitOfZero(p);
    } else {
      var here := if l.slot == slot then Piece(l, x) else 0;
      BitOfOr(here, SlotValue(l.rest, Shr(x, l.Width()), slot), p);
      BitOfPiece(l, x, p);
      BitOfZero(p);
      NoOtherBit(l.rest, Shr(x, l.Width()), slot, p);
    }
  }

  lemma {:induction false} SlotFits(l: Layout, d: ModeDesc, x: nat, slot: nat)
    requires InRange(l, d)
    ensures SlotValue(l, x, slot) < Pow2(Size(d, slot))
  {
    if l.Field? {
      var n := Size(d, slot);
      SlotFits(l.rest, d, Shr(x, l.Width()), slot);
      if l.slot == slot { PieceFits(l, x, n); }
      OrBound(if l.slot == slot then Piece(l, x) else 0, SlotValue(l.rest, Shr(x, l.Width()), slot), n);
    }
  }

  lemma PieceFits(l: Layout, x: nat, n: nat)
    requires l.Field? && l.msb < n && l.lsb < n
    ensures Piece(l, x) < Pow2(n)
  {
    var v := if l.msb < l.lsb then Reversed(x, l.Width()) else Low(x, l.Width());
    ShlBound(v, l.Lo(), l.Width());
    Pow2Mono(l.Width() + l.Lo(), n);
  }

  /** The stored form of the first field of `l`. */
  function Stored(l: Layout, v: nat): (r: nat)
    requires l.Field?
    ensures r < Pow2(l.Width())
  {
    if l.msb < l.lsb then Reversed(Slice(v, l.Lo(), l.Width()), l.Width()) else Slice(v, l.Lo(), l.Width())
  }

  /** The header that stores the given slots. */
  function Header(l: Layout, slots: seq<nat>): (r: nat)
    requires |slots| == 13
    ensures r < Pow2(Total(l))
  {
    match l
    case End => 0
    case Field(s, _, _, rest) =>
      var v := if s < 13 then slots[s] else 0;
      HeaderFits(Stored(l, v), Header(rest, slots), l.Width(), Total(rest));
      Stored(l, v) + Shl(Header(rest, slots), l.Width())
  }

  lemma HeaderFits(a: nat, b: nat, m: nat, n: nat)
    requires a < Pow2(m) && b < Pow2(n)
    ensures a + Shl(b, m) < Pow2(m + n)
  {
    ShlBound(b, m, n);
  }

  lemma {:induction false} BitOfHeader(l: Layout, d: ModeDesc, slots: seq<nat>, j: nat)
    requires InRange(l, d) && |slots| == 13 && j < Total(l)
    ensures Place(l, j).0 < 13 && (Bit(Header(l, slots), j) <==> Bit(slots[Place(l, j).0], Place(l, j).1))
  {
    var w, v := l.Width(), slots[l.slot];
    BitOfJoin(Stored(l, v), Header(l.rest, slots), w, j);
    if j >= w {
      BitOfHeader(l.rest, d, slots, j - w);
    } else {
      var k := if l.msb < l.lsb then w - 1 - j else j;
      BitOfReversed(Slice(v, l.Lo(), w), w, j);
      BitOfSlice(v, l.Lo(), w, k);
    }
  }

  /** Writing back what was read gives the header again: no bit is dropped. */
  lemma ReadThenWrite(l: Layout, d: ModeDesc, x: nat, slots: seq<nat>)
    requires Exact(l, d) && x < Pow2(Total(l)) && |slots| == 13
    requires forall s :: 0 <= s < 13 ==> slots[s] == SlotValue(l, x, s)
    ensures Header(l, slots) == x
  {
    forall j | 0 <= j < Total(l) ensures Bit(Header(l, slots), j) <==> Bit(x, j) {
      BitOfHeader(l, d, slots, j);
      BitArrives(l, x, j);
    }
    SameBits(Header(l, slots), x, Total(l));
  }

  /** Every choice of values that fit their slots is read back from the header that stores it. */
  lemma WriteThenRead(l: Layout, d: ModeDesc, slots: seq<nat>, s: nat)
    requires Exact(l, d) && (d.partitionCount == 1 || d.partitionCount == 2)
    requires |slots| == 13 && s < 13 && slots[s] < Pow2(Size(d, s))
    ensures SlotValue(l, Header(l, slots), s) == slots[s]
  {
    var x := Header(l, slots);
    SlotFits(l, d, x, s);
    forall p | 0 <= p < Size(d, s) ensures Bit(SlotValue(l, x, s), p) <==> Bit(slots[s], p) {
      var j := PlaceExists(l, d, s, p);
      BitOfHeader(l, d, slots, j);
      BitArrives(l, x, j);
    }
    SameBits(SlotValue(l, x, s), slots[s], Size(d, s));
  }

  // ---------- the bit stream ----------

  lemma WordsShift(low: nat, high: nat, n: nat)
    requires IsWord(low) && IsWord(high) && 1 <= n < 64
    ensures var low' := Or(Shr(low, n), Shl(Low(high, n), 64 - n));
            IsWord(low') && IsWord(Shr(high, n)) && Value(low', Shr(high, n)) == Shr(Value(low, high), n)
  {
    var low', high' := Or(Shr(low, n), Shl(Low(high, n), 64 - n)), Shr(high, n);
    ShrBound(low, n, 64);
    ShrBound(high, n, 64);
    ShlBound(Low(high, n), 64 - n, n);
    OrIsSum(Shr(low, n), Low(high, n), 64 - n);
    assert low' == Shr(low, n) + Shl(Low(high, n), 64 - n);
    Pow2Mono(64 - n, 64);
    SplitsAt(high, n);
    SplitsAt(low, n);
    ShiftSum(low, high, n);
  }

  /** Shifting the pair of words is shifting the number they stand for. */
  lemma ShiftSum(low: nat, high: nat, n: nat)
    requires IsWord(low) && n < 64
    ensures Shr(Value(low, high), n) == Shr(low, n) + Shl(Low(high, n), 64 - n) + Shl(Shr(high, n), 64)
  {
    ShrOfSum(low, high, 64, n);
    SplitsAt(high, n);
    ShlOfSum(Low(high, n), Shl(Shr(high, n), n), 64 - n);
    ShlShl(Shr(high, n), n, 64 - n);
  }

  lemma {:induction false} ShrOfSum(a: nat, b: nat, k: nat, n: nat)
    requires n <= k
    ensures Shr(a + Shl(b, k), n) == Shr(a, n) + Shl(b, k - n)
  {
    if n > 0 {
      assert (a + Shl(b, k)) / 2 == a / 2 + Shl(b, k - 1);
      ShrOfSum(a / 2, b, k - 1, n - 1);
    }
  }

  lemma {:induction false} ShlOfSum(a: nat, b: nat, n: nat)
    ensures Shl(a + b, n) == Shl(a, n) + Shl(b, n)
  {
    if n > 0 { ShlOfSum(a, b, n - 1); }
  }

  lemma {:induction false} ReversedStep(x: nat, k: nat)
    ensures Reversed(x, k + 1) == 2 * Reversed(x, k) + Shr(x, k) % 2
  {
    if k > 0 { ReversedStep(x / 2, k - 1); }
  }

  method ReverseBits(bits: nat, n: nat) returns (r: nat)
    ensures r == Reversed(bits, n)
  {
    r := 0;
    var rest := bits;
    for k := 0 to n
      invariant rest == Shr(bits, k)
      invariant r == Reversed(bits, k)
    {
      ReversedStep(bits, k);
      ShrShr(bits, k, 1);
      LastBit(r, rest);
      r := Or(Shl(r, 1), And(rest, 1));
      rest := Shr(rest, 1);
    }
  }

  lemma LastBit(r: nat, rest: nat)
    ensures Or(Shl(r, 1), And(rest, 1)) == 2 * r + rest % 2
  {
    MaskIsLow(rest, 1);
    assert Low(rest, 1) == rest % 2;
    OrBit(r, rest % 2);
  }

  lemma {:induction false} LowOfSum(a: nat, b: nat, k: nat, n: nat)
    requires n <= k
    ensures Low(a + Shl(b, k), n) == Low(a, n)
  {
    if n > 0 {
      assert (a + Shl(b, k)) / 2 == a / 2 + Shl(b, k - 1);
      LowOfSum(a / 2, b, k - 1, n - 1);
    }
  }

  lemma {:induction false} ReversedOfLow(x: nat, n: nat)
    ensures Reversed(Low(x, n), n) == Reversed(x, n)
  {
    if n > 0 {
      ReversedOfLow(x / 2, n - 1);
      LowHalves(x, n);
      hide Low, Shl, Pow2;
    }
  }

  lemma LowHalves(x: nat, n: nat)
    requires n > 0
    ensures Low(x, n) % 2 == x % 2 && Low(x, n) / 2 == Low(x / 2, n - 1)
  {
  }

  lemma LowOfWords(low: nat, high: nat, n: nat)
    requires n <= 64
    ensures Low(Value(low, high), n) == Low(low, n)
  {
    LowOfSum(low, high, 64, n);
  }

  /** `consumeBits`: takes the lowest bits off a block. */
  method Consume(low: nat, high: nat, msb: nat, lsb: nat) returns (bits: nat, low': nat, high': nat)
    requires IsWord(low) && IsWord(high)
    requires msb - lsb < 31 && lsb - msb < 31
    ensures IsWord(low') && IsWord(high')
    ensures var f := Field(0, msb, lsb, End);
            bits == Piece(f, Value(low, high)) && Value(low', high') == Shr(Value(low, high), f.Width())
  {
    var reversed := msb < lsb;
    var lo, hi := if reversed then msb else lsb, if reversed then lsb else msb;
    var n := hi - lo + 1;
    var mask := Pow2(n) - 1;
    hide Low, Or, And, Shl, Shr, Pow2, Value, IsWord, Reversed;
    MaskIsLow(low, n);
    MaskIsLow(high, n);
    LowOfWords(low, high, n);
    ReversedOfLow(Value(low, high), n);
    WordsShift(low, high, n);
    bits := And(low, mask);
    low' := Or(Shr(low, n), Shl(And(high, mask), 64 - n));
    high' := Shr(high, n);
    if reversed {
      bits := ReverseBits(bits, n);
    }
    bits := Shl(bits, lo);
  }

  predicate NarrowFields(l: Layout) {
    l.End? || (l.slot < 13 && l.Width() < 32 && NarrowFields(l.rest))
  }

  lemma {:induction false} FieldsAreNarrow(l: Layout, d: ModeDesc)
    requires InRange(l, d) && d.endpointBits <= 16 && d.deltaR <= 16 && d.deltaG <= 16 && d.deltaB <= 16
    ensures NarrowFields(l)
  {
    if l.Field? { FieldsAreNarrow(l.rest, d); }
  }

  /** What is in the slots already and what is still in the block make up the slots of the header. */
  ghost predicate Collected(slots: seq<nat>, l: Layout, y: nat, layout: Layout, x: nat) {
    |slots| == 13 && forall s :: 0 <= s < 13 ==> Or(slots[s], SlotValue(l, y, s)) == SlotValue(layout, x, s)
  }

  lemma NothingCollected(layout: Layout, x: nat)
    ensures Collected(seq(13, _ => 0), layout, x, layout, x)
  {
    forall s | 0 <= s < 13 ensures Or(0, SlotValue(layout, x, s)) == SlotValue(layout, x, s) {
      OrZero(SlotValue(layout, x, s));
    }
  }

  lemma CollectOne(slots: seq<nat>, l: Layout, y: nat, layout: Layout, x: nat)
    requires Collected(slots, l, y, layout, x) && l.Field? && l.slot < 13
    ensures Collected(slots[l.slot := Or(slots[l.slot], Piece(l, y))], l.rest, Shr(y, l.Width()), layout, x)
  {
    var slots', y' := slots[l.slot := Or(slots[l.slot], Piece(l, y))], Shr(y, l.Width());
    hide Piece, Or, Shr;
    forall s | 0 <= s < 13 ensures Or(slots'[s], SlotValue(l.rest, y', s)) == SlotValue(layout, x, s) {
      assert Or(slots[s], SlotValue(l, y, s)) == SlotValue(layout, x, s);
      OrAssociates(slots[s], Piece(l, y), SlotValue(l.rest, y', s));
      OrZero(SlotValue(l.rest, y', s));
    }
  }

  lemma AllCollected(slots: seq<nat>, y: nat, layout: Layout, x: nat)
    requires Collected(slots, End, y, layout, x)
    ensures forall s :: 0 <= s < 13 ==> slots[s] == SlotValue(layout, x, s)
  {
    forall s | 0 <= s < 13 ensures slots[s] == SlotValue(layout, x, s) {
      OrCommutes(slots[s], 0);
      OrZero(slots[s]);
      assert Or(slots[s], SlotValue(End, y, s)) == SlotValue(layout, x, s);
    }
  }

  /** The loop over the field descriptions: every field is taken off the block and or-ed into its slot. */
  method ReadHeader(low0: nat, high0: nat, layout: Layout) returns (slots: seq<nat>, low: nat, high: nat)
    requires IsWord(low0) && IsWord(high0) && NarrowFields(layout)
    ensures |slots| == 13 && forall s :: 0 <= s < 13 ==> slots[s] == SlotValue(layout, Value(low0, high0), s)
    ensures IsWord(low) && IsWord(high) && Value(low, high) == Shr(Value(low0, high0), Total(layout))
  {
    low, high := low0, high0;
    slots := seq(13, _ => 0);
    var l := layout;
    ghost var x := Value(low0, high0);
    NothingCollected(layout, x);
    hide Value, IsWord, SlotValue, Piece, Or, Collected;
    while l.Field?
      invariant IsWord(low) && IsWord(high) && NarrowFields(l) && |slots| == 13
      invariant Total(l) <= Total(layout) && Value(low, high) == Shr(x, Total(layout) - Total(l))
      invariant Collected(slots, l, Value(low, high), layout, x)
      decreases l
    {
      CollectOne(slots, l, Value(low, high), layout, x);
      ShrShr(x, Total(layout) - Total(l), l.Width());
      var bits;
      SamePiece(l, Value(low, high));
      bits, low, high := Consume(low, high, l.msb, l.lsb);
      slots := slots[l.slot := Or(slots[l.slot], bits)];
      l := l.rest;
    }
    AllCollected(slots, Value(low, high), layout, x);
  }

  lemma SamePiece(l: Layout, x: nat)
    requires l.Field?
    ensures Piece(Field(0, l.msb, l.lsb, End), x) == Piece(l, x) && Field(0, l.msb, l.lsb, End).Width() == l.Width()
  {
  }
}
