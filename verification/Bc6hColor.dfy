/** From the stored endpoints of a BC6H block to half-precision colours
    (externals/bc_decoder/bc_decoder.cpp, namespace BC6H).  Each step of the decoder works on 16-bit and
    32-bit machine words; each is proved against what it computes on plain integers. */
module Bc6hColor {
  import opened BitMath
  import opened Bc6hTables

  /** An integer stored in a 16-bit word. */
  function ToU16(x: int): (r: nat)
    ensures r < 65536
  {
    x % 65536
  }

  // ---------- sign extension ----------

  /** The integer that an n-bit pattern stands for in two's complement. */
  function Signed(v: nat, n: nat): int
    requires n >= 1
  {
    if v >= Pow2(n - 1) then v - Pow2(n) else v
  }

  /** The flip-and-subtract of `extendSign`. */
  function ExtendSign(v: nat, n: nat): int
    requires n >= 1
  {
    Xor(v, Pow2(n - 1)) - Pow2(n - 1)
  }

  lemma ExtendSignIsSigned(v: nat, n: nat)
    requires n >= 1 && v < Pow2(n)
    ensures ExtendSign(v, n) == Signed(v, n)
    ensures 0 <= Signed(v, n) + Pow2(n - 1) < Pow2(n)
  {
    XorTopBit(v, n - 1);
  }

  // ---------- stored endpoints ----------

  /** What the decoder relies on in a mode description. */
  predicate DescOk(d: ModeDesc) {
    && 1 <= d.endpointBits <= 16 && (d.partitionCount == 1 || d.partitionCount == 2)
    && (d.hasDelta ==>
          1 <= d.deltaR <= d.endpointBits && 1 <= d.deltaG <= d.endpointBits && 1 <= d.deltaB <= d.endpointBits)
  }

  lemma DescsAreOk(i: nat)
    requires i < 14
    ensures DescOk(Desc(i))
  {
  }

  ghost predicate SlotsFit(d: ModeDesc, slots: seq<nat>) {
    |slots| == 13 && forall k :: 0 <= k < 13 ==> slots[k] < Pow2(Size(d, k))
  }

  lemma ChannelSize(d: ModeDesc, k: nat)
    requires DescOk(d) && k < 6 * d.partitionCount
    ensures 1 <= Size(d, k) <= d.endpointBits
    ensures k < 3 || !d.hasDelta ==> Size(d, k) == d.endpointBits
  {
  }

  /** `x` brought back into n bits after one addition. */
  function Wrap(x: int, n: nat): int {
    if x < 0 then x + Pow2(n) else if x >= Pow2(n) then x - Pow2(n) else x
  }

  /** The pattern of channel `k` (three channels to an endpoint): stored as it is, or as a delta from
      the first endpoint. */
  function Pattern(d: ModeDesc, slots: seq<nat>, k: nat): int
    requires |slots| == 13 && k < 12 && Size(d, k) >= 1
  {
    if d.hasDelta && k >= 3 then Wrap(slots[k % 3] + Signed(slots[k], Size(d, k)), d.endpointBits) else slots[k]
  }

  function Endpoint(n: nat, signed: bool, pattern: int): int
    requires n >= 1 && pattern >= 0
  {
    if signed then UnquantizedSigned(n, Signed(pattern, n)) else UnquantizedUnsigned(n, pattern)
  }

  /** Scales an n-bit number up to 16 bits, rounding in the middle. */
  function UnquantizedUnsigned(n: nat, q: nat): nat {
    if n >= 15 || q == 0 then q
    else if q == Pow2(n) - 1 then 0xffff
    else Shr(Shl(q, 16) + 0x8000, n)
  }

  function Magnitude(n: nat, q: nat): nat
    requires n >= 1
  {
    if q >= Pow2(n - 1) - 1 then 0x7fff else Shr(Shl(q, 15) + 0x4000, n - 1)
  }

  function UnquantizedSigned(n: nat, q: int): int
    requires n >= 1
  {
    if n >= 16 || q == 0 then q
    else if q < 0 then 0 - (Magnitude(n, -q) as int)
    else Magnitude(n, q)
  }

  lemma ScaledFits(q: nat, half: nat, k: nat, n: nat)
    requires q < Pow2(n) && half < Pow2(k)
    ensures Shr(Shl(q, k) + half, n) < Pow2(k)
  {
    ShlBound(q, k, n);
    ShrBound(Shl(q, k) + half, n, n + k);
  }

  /** An unsigned endpoint is a 16-bit number. */
  lemma UnsignedEndpointFits(n: nat, q: nat)
    requires n <= 16 && q < Pow2(n)
    ensures UnquantizedUnsigned(n, q) < 65536
  {
    Pow2Values();
    Pow2Mono(n, 16);
    ScaledFits(q, 0x8000, 16, n);
    hide Shr, Shl, Pow2;
  }

  lemma MagnitudeFits(n: nat, q: nat)
    requires n >= 1
    ensures Magnitude(n, q) <= 0x7fff
  {
    Pow2Values();
    if q < Pow2(n - 1) - 1 { ScaledFits(q, 0x4000, 15, n - 1); }
  }

  /** A signed endpoint of less than 16 bits is never the most negative 16-bit number. */
  lemma SignedEndpointFits(n: nat, q: int)
    requires 1 <= n <= 16 && 0 <= q + Pow2(n - 1) < Pow2(n)
    ensures -32768 <= UnquantizedSigned(n, q) <= 32767
    ensures n < 16 ==> -32767 <= UnquantizedSigned(n, q)
  {
    Pow2Values();
    if n < 16 && q != 0 {
      MagnitudeFits(n, if q < 0 then -q else q);
    } else {
      Pow2Mono(n - 1, 15);
    }
  }

  // ---------- the same steps on 16-bit words ----------

  /** `unquantizeUnsigned` for one channel. */
  function UnquantizeWordUnsigned(n: nat, v: nat): nat {
    if n >= 15 || v == 0 then v
    else if v == Pow2(n) - 1 then 0xffff
    else ToU16(Shr(Shl(v, 16) + 0x8000, n))
  }

  /** `unquantizeSigned` for one channel: the word is read as a signed number and its magnitude scaled. */
  function UnquantizeWordSigned(n: nat, v: nat): nat
    requires n >= 1
  {
    if n >= 16 || v == 0 then v
    else
      var value: int := if v >= 0x8000 then v - 0x10000 else v;
      var magnitude: nat := if value < 0 then -value else value;
      var result: int := if magnitude >= Pow2(n - 1) - 1 then 0x7fff else Shr(Shl(magnitude, 15) + 0x4000, n - 1);
      ToU16(if value < 0 then -result else result)
  }

  lemma UnsignedWordIsRight(n: nat, v: nat)
    requires n <= 16 && v < Pow2(n)
    ensures UnquantizeWordUnsigned(n, v) == UnquantizedUnsigned(n, v)
  {
    UnsignedEndpointFits(n, v);
  }

  lemma SignedWordIsRight(n: nat, q: int)
    requires 1 <= n <= 16 && 0 <= q + Pow2(n - 1) < Pow2(n)
    ensures UnquantizeWordSigned(n, ToU16(q)) == ToU16(UnquantizedSigned(n, q))
  {
    Pow2Values();
    Pow2Mono(n - 1, 15);
    assert -32768 <= q < 32768;
    assert ToU16(q) == if q < 0 then q + 65536 else q;
    hide Shr, Shl, Pow2;
  }

  lemma SignRoundTrip(v: int)
    requires -32768 <= v < 32768
    ensures ExtendSign(ToU16(v), 16) == v
  {
    Pow2Values();
    ExtendSignIsSigned(ToU16(v), 16);
  }

  // ---------- resolving a delta ----------

  lemma {:induction false} ShlOfPow2(m: nat, n: nat)
    ensures Shl(Pow2(m), n) == Pow2(m + n)
  {
    if n > 0 { ShlOfPow2(m, n - 1); }
  }

  lemma {:induction false} LowOfMultiple(w: nat, j: nat, n: nat)
    requires w < Pow2(n)
    ensures Low(w + Shl(j, n), n) == w
  {
    if n > 0 {
      assert (w + Shl(j, n)) / 2 == w / 2 + Shl(j, n - 1);
      LowOfMultiple(w / 2, j, n - 1);
    }
  }

  /** A 16-bit word holds a whole number of n-bit turns. */
  lemma TurnsOf65536(n: nat) returns (q: nat)
    requires 1 <= n <= 16
    ensures q >= 1 && q * Pow2(n) == 65536 && Pow2(n) <= 65536
  {
    Pow2Values();
    q := Pow2(16 - n);
    ShlOfPow2(16 - n, n);
    ShlIsProduct(q, n);
    Pow2Mono(n, 16);
  }

  lemma WholeTurns(x: nat, w: nat, j: nat, n: nat)
    requires w < Pow2(n) && x == w + j * Pow2(n)
    ensures Low(x, n) == w
  {
    ShlIsProduct(j, n);
    LowOfMultiple(w, j, n);
  }

  lemma SignedWord(n: nat, b: nat)
    requires 1 <= n <= 16 && b < Pow2(n)
    ensures ToU16(Signed(b, n)) == (if b >= Pow2(n - 1) then b - Pow2(n) + 65536 else b)
  {
    Pow2Values();
    Pow2Mono(n, 16);
    assert Pow2(n) == 2 * Pow2(n - 1);
  }

  /** Adding the 16-bit words and keeping the low bits is adding the numbers and wrapping once. */
  lemma ResolveIsWrap(n: nat, b: nat, delta: int, signed: bool)
    requires 1 <= n <= 16 && b < Pow2(n) && 0 <= delta + Pow2(n) <= 2 * Pow2(n) && -32768 <= delta < 32768
    ensures 0 <= Wrap(b + delta, n) < Pow2(n)
    ensures Low((if signed then ToU16(Signed(b, n)) else b) + ToU16(delta), n) == Wrap(b + delta, n)
  {
    var p := Pow2(n);
    var q := TurnsOf65536(n);
    SignedWord(n, b);
    hide Low, Pow2, Signed;
    var w := Wrap(b + delta, n);
    var negative := signed && b >= Pow2(n - 1);
    var k: int := if b + delta < 0 then -1 else if b + delta >= p then 1 else 0;
    var turns: int := (if negative then q - 1 else 0) + (if delta < 0 then q else 0) + k;
    assert ToU16(delta) == delta + (if delta < 0 then 65536 else 0);
    TurnsTimes(q, p, turns, negative, delta < 0, k);
    WholeTurns((if signed then ToU16(Signed(b, n)) else b) + ToU16(delta), w, turns, n);
  }

  lemma TurnsTimes(q: int, p: int, turns: int, negative: bool, below: bool, k: int)
    requires turns == (if negative then q - 1 else 0) + (if below then q else 0) + k
    ensures turns * p == (if negative then q * p - p else 0) + (if below then q * p else 0) + k * p
  {
    assert (q - 1) * p == q * p - p;
  }

  // ---------- the three passes over the endpoints ----------

  function Extended(d: ModeDesc, signed: bool, slots: seq<nat>, k: nat): nat
    requires |slots| == 13 && k < 12 && Size(d, k) >= 1
  {
    if signed || (d.hasDelta && k >= 3) then ToU16(ExtendSign(slots[k], Size(d, k))) else slots[k]
  }

  function Resolved(d: ModeDesc, signed: bool, base: nat, k: nat, v: nat): nat
    requires d.endpointBits >= 1
  {
    if d.hasDelta && k >= 3 then
      var sum := And(base + v, Pow2(d.endpointBits) - 1);
      if signed then ToU16(ExtendSign(sum, d.endpointBits)) else sum
    else v
  }

  function UnquantizeWord(n: nat, signed: bool, v: nat): nat
    requires n >= 1
  {
    if signed then UnquantizeWordSigned(n, v) else UnquantizeWordUnsigned(n, v)
  }

  /** A delta of `size` bits, added to an n-bit base in 16-bit words. */
  lemma DeltaIsResolved(n: nat, size: nat, b: nat, v: nat, signed: bool)
    requires 1 <= size <= n <= 16 && b < Pow2(n) && v < Pow2(size)
    ensures var p := Wrap(b + Signed(v, size), n);
            var base := if signed then ToU16(ExtendSign(b, n)) else b;
            var sum := And(base + ToU16(ExtendSign(v, size)), Pow2(n) - 1);
            && 0 <= p < Pow2(n) && sum == p
            && (signed ==> ToU16(ExtendSign(sum, n)) == ToU16(Signed(p, n)))
  {
    hide Low, And, Pow2, ExtendSign, Signed, Wrap, ToU16;
    DeltaRange(n, size, v);
    ExtendSignIsSigned(v, size);
    ExtendSignIsSigned(b, n);
    var delta := Signed(v, size);
    ResolveIsWrap(n, b, delta, signed);
    MaskIsLow((if signed then ToU16(Signed(b, n)) else b) + ToU16(delta), n);
    ExtendSignIsSigned(Wrap(b + delta, n), n);
  }

  lemma DeltaRange(n: nat, size: nat, v: nat)
    requires 1 <= size <= n <= 16 && v < Pow2(size)
    ensures 0 <= Signed(v, size) + Pow2(n) <= 2 * Pow2(n) && -32768 <= Signed(v, size) < 32768
  {
    Pow2Values();
    Pow2Mono(size - 1, 15);
    Pow2Mono(size, n);
    assert Pow2(size) == 2 * Pow2(size - 1);
  }

  lemma SlotIsBelow(d: ModeDesc, slots: seq<nat>, k: nat)
    requires DescOk(d) && SlotsFit(d, slots) && k < 6 * d.partitionCount
    ensures |slots| == 13 && k < 12 && 1 <= d.endpointBits <= 16 && 1 <= Size(d, k) <= d.endpointBits
    ensures 1 <= Size(d, k % 3) == d.endpointBits
    ensures k < 3 || !d.hasDelta ==> Size(d, k) == d.endpointBits
    ensures slots[k] < Pow2(Size(d, k))
  {
    ChannelSize(d, k);
    ChannelSize(d, k % 3);
    hide Size, Pow2;
  }

  lemma DeltaPattern(d: ModeDesc, signed: bool, slots: seq<nat>, k: nat)
    requires |slots| == 13 && 3 <= k < 12 && d.hasDelta && 1 <= Size(d, k) <= d.endpointBits <= 16
    requires Size(d, k % 3) == d.endpointBits && slots[k] < Pow2(Size(d, k)) && slots[k % 3] < Pow2(d.endpointBits)
    ensures var n, p := d.endpointBits, Pattern(d, slots, k);
            && 0 <= p < Pow2(n)
            && Resolved(d, signed, Extended(d, signed, slots, k % 3), k, Extended(d, signed, slots, k))
               == if signed then ToU16(Signed(p, n)) else p
  {
    hide Size, Signed, Wrap, Pow2, ExtendSign, And, ToU16;
    DeltaIsResolved(d.endpointBits, Size(d, k), slots[k % 3], slots[k], signed);
  }

  lemma PlainPattern(d: ModeDesc, signed: bool, slots: seq<nat>, k: nat)
    requires |slots| == 13 && k < 12 && !(d.hasDelta && k >= 3) && 1 <= Size(d, k) == d.endpointBits
    requires 1 <= Size(d, k % 3) && slots[k] < Pow2(Size(d, k))
    ensures var n, p := d.endpointBits, Pattern(d, slots, k);
            && 0 <= p < Pow2(n)
            && Resolved(d, signed, Extended(d, signed, slots, k % 3), k, Extended(d, signed, slots, k))
               == if signed then ToU16(Signed(p, n)) else p
  {
    hide Size, Signed, Pow2, ExtendSign, ToU16;
    ExtendSignIsSigned(slots[k], d.endpointBits);
  }

  /** The pattern is in range and, sign-extended in a signed format, is what the second pass leaves. */
  lemma PatternIsResolved(d: ModeDesc, signed: bool, slots: seq<nat>, k: nat)
    requires DescOk(d) && SlotsFit(d, slots) && k < 6 * d.partitionCount
    ensures Size(d, k) >= 1 && Size(d, k % 3) >= 1
    ensures var n, p := d.endpointBits, Pattern(d, slots, k);
            && 0 <= p < Pow2(n)
            && Resolved(d, signed, Extended(d, signed, slots, k % 3), k, Extended(d, signed, slots, k))
               == if signed then ToU16(Signed(p, n)) else p
  {
    hide DescOk, Pattern, Extended, Resolved, SlotsFit, Signed, ToU16;
    SlotIsBelow(d, slots, k);
    if d.hasDelta && k >= 3 {
      SlotIsBelow(d, slots, k % 3);
      DeltaPattern(d, signed, slots, k);
    } else {
      PlainPattern(d, signed, slots, k);
    }
  }

  /** What the three passes leave in channel `k`. */
  function Target(d: ModeDesc, signed: bool, slots: seq<nat>, k: nat): nat
    requires |slots| == 13 && k < 12 && Size(d, k) >= 1 && d.endpointBits >= 1 && Pattern(d, slots, k) >= 0
  {
    ToU16(Endpoint(d.endpointBits, signed, Pattern(d, slots, k)))
  }

  lemma PassesCompose(d: ModeDesc, signed: bool, slots: seq<nat>, k: nat)
    requires DescOk(d) && SlotsFit(d, slots) && k < 6 * d.partitionCount
    ensures Size(d, k) >= 1 && Size(d, k % 3) >= 1 && Pattern(d, slots, k) >= 0
    ensures UnquantizeWord(d.endpointBits, signed,
      Resolved(d, signed, Extended(d, signed, slots, k % 3), k, Extended(d, signed, slots, k)))
            == Target(d, signed, slots, k)
  {
    PatternIsResolved(d, signed, slots, k);
    var n, p := d.endpointBits, Pattern(d, slots, k);
    hide Pattern, Resolved, Extended, Size, SlotsFit, Shr, Shl;
    if signed {
      ExtendSignIsSigned(p, n);
      SignedWordIsRight(n, Signed(p, n));
    } else {
      UnsignedWordIsRight(n, p);
      UnsignedEndpointFits(n, p);
    }
  }

  /** Sign extension, deltas and unquantisation, each a pass over the endpoints in use. */
  method DecodeEndpoints(d: ModeDesc, signed: bool, slots: seq<nat>) returns (e: seq<nat>)
    requires DescOk(d) && SlotsFit(d, slots)
    ensures |e| == 12
    ensures forall k :: 0 <= k < 6 * d.partitionCount ==>
      Size(d, k) >= 1 && Pattern(d, slots, k) >= 0 && e[k] == Target(d, signed, slots, k)
  {
    var n, count := d.endpointBits, 6 * d.partitionCount;
    forall k | 0 <= k < count ensures Size(d, k) >= 1 && Size(d, k % 3) >= 1 {
      ChannelSize(d, k);
      ChannelSize(d, k % 3);
    }
    e := ExtendAll(d, signed, slots);
    ghost var e1 := e;
    for k := 0 to count
      invariant |e| == 12
      invariant forall j :: 0 <= j < k ==> e[j] == Resolved(d, signed, e1[j % 3], j, e1[j])
      invariant forall j :: k <= j < 12 ==> e[j] == e1[j]
    {
      assert e[k % 3] == e1[k % 3];
      e := e[k := Resolved(d, signed, e[k % 3], k, e[k])];
    }
    ghost var e2 := e;
    for k := 0 to count
      invariant |e| == 12
      invariant forall j :: 0 <= j < k ==> e[j] == UnquantizeWord(n, signed, e2[j])
      invariant forall j :: k <= j < 12 ==> e[j] == e2[j]
    {
      e := e[k := UnquantizeWord(n, signed, e[k])];
    }
    forall k | 0 <= k < count
      ensures Size(d, k) >= 1 && Pattern(d, slots, k) >= 0 && e[k] == Target(d, signed, slots, k)
    {
      PassesCompose(d, signed, slots, k);
    }
  }

  method ExtendAll(d: ModeDesc, signed: bool, slots: seq<nat>) returns (e: seq<nat>)
    requires DescOk(d) && |slots| == 13
    ensures |e| == 12
    ensures forall k :: 0 <= k < 6 * d.partitionCount ==> Size(d, k) >= 1 && e[k] == Extended(d, signed, slots, k)
  {
    e := slots[..12];
    var count := 6 * d.partitionCount;
    forall k | 0 <= k < count ensures Size(d, k) >= 1 { ChannelSize(d, k); }
    var first := if signed then 0 else if d.hasDelta then 3 else count;
    for k := first to count
      invariant |e| == 12
      invariant forall j :: first <= j < k ==> e[j] == ToU16(ExtendSign(slots[j], Size(d, j)))
      invariant forall j :: 0 <= j < 12 && (j < first || k <= j) ==> e[j] == slots[j]
    {
      e := e[k := ToU16(ExtendSign(e[k], Size(d, k)))];
    }
  }

  // ---------- interpolation ----------

  /** The endpoints weighted in 64ths and rounded; the quotient is rounded down, as an arithmetic
      right shift does. */
  function Blend(e0: int, e1: int, w: int): int {
    ((64 - w) * e0 + w * e1 + 32) / 64
  }

  /** The half-precision pattern of a blended value; minus zero is stored as zero. */
  function Half(v: int, signed: bool): int {
    if !signed then v * 31 / 64
    else if v >= 0 then v * 31 / 32
    else if -v * 31 / 32 == 0 then 0
    else 0x8000 + -v * 31 / 32
  }

  /** The last step of `interpolate`: a 32-bit word scaled to the range of finite halves. */
  function HalfWord(tmp: nat, signed: bool): nat
    requires tmp < 0x1_0000_0000
  {
    if signed then
      var t := if tmp >= 0x8000_0000 then Or((0x1_0000_0000 - tmp) * 31 / 32, 0x8000) else tmp * 31 / 32;
      if t == 0x8000 then 0 else ToU16(t)
    else ToU16(tmp * 31 / 64)
  }

  function ReadWord(c: nat, signed: bool): int {
    if signed then ExtendSign(c, 16) else c
  }

  /** `interpolate` for one channel, from two 16-bit words. */
  function InterpolateWord(c0: nat, c1: nat, w: int, signed: bool): nat {
    HalfWord(Blend(ReadWord(c0, signed), ReadWord(c1, signed), w) % 0x1_0000_0000, signed)
  }

  lemma MulBetween(k: int, lo: int, x: int, hi: int)
    requires k >= 0 && lo <= x <= hi
    ensures k * lo <= k * x <= k * hi
  {
    assert k * (x - lo) >= 0 && k * (hi - x) >= 0;
    assert k * (x - lo) == k * x - k * lo && k * (hi - x) == k * hi - k * x;
  }

  lemma BlendIsBetween(e0: int, e1: int, w: int, lo: int, hi: int)
    requires 0 <= w <= 64 && lo <= e0 <= hi && lo <= e1 <= hi
    ensures lo <= Blend(e0, e1, w) <= hi
  {
    MulBetween(64 - w, lo, e0, hi);
    MulBetween(w, lo, e1, hi);
    assert (64 - w) * lo + w * lo == 64 * lo && (64 - w) * hi + w * hi == 64 * hi;
  }

  lemma OrSignBit(m: nat)
    requires m < 0x8000
    ensures Or(m, 0x8000) == m + 0x8000
  {
    Pow2Values();
    ShlOfPow2(0, 15);
    OrIsSum(m, 1, 15);
  }

  lemma SmallWord(x: nat)
    requires x < 0x1_0000
    ensures ToU16(x) == x
  {
  }

  lemma HalfOfMagnitude(tmp: nat, m: nat)
    requires 0x8000_0000 <= tmp < 0x1_0000_0000 && (0x1_0000_0000 - tmp) * 31 / 32 == m < 0x8000
    ensures HalfWord(tmp, true) == if m == 0 then 0 else m + 0x8000
  {
    hide Or, ToU16;
    OrSignBit(m);
    SmallWord(m + 0x8000);
  }

  lemma NegativeWord(v: int)
    requires -32768 <= v < 0
    ensures v % 0x1_0000_0000 == v + 0x1_0000_0000
  {
  }

  lemma ScaledDown(u: int)
    requires 0 < u <= 32768
    ensures 0 <= u * 31 / 32 < 0x8000
  {
  }

  lemma WordOfNegativeHalf(v: int)
    requires -32768 <= v < 0
    ensures v % 0x1_0000_0000 == v + 0x1_0000_0000
    ensures HalfWord(v + 0x1_0000_0000, true) == Half(v, true)
  {
    hide HalfWord;
    NegativeWord(v);
    ScaledDown(-v);
    HalfOfMagnitude(v + 0x1_0000_0000, -v * 31 / 32);
  }

  lemma WordOfHalf(v: int, signed: bool)
    requires if signed then -32768 <= v <= 32767 else 0 <= v <= 65535
    ensures HalfWord(v % 0x1_0000_0000, signed) == Half(v, signed)
  {
    hide Or;
    if v < 0 {
      WordOfNegativeHalf(v);
    } else {
      assert v % 0x1_0000_0000 == v;
    }
  }

  lemma ReadBack(e: int, signed: bool)
    requires if signed then -32768 <= e <= 32767 else 0 <= e <= 65535
    ensures ReadWord(ToU16(e), signed) == e
  {
    if signed { SignRoundTrip(e); }
  }

  /** The 16-bit and 32-bit steps of the interpolation compute the blended half. */
  lemma InterpolateWordIsHalf(e0: int, e1: int, w: int, signed: bool)
    requires 0 <= w <= 64
    requires if signed then -32768 <= e0 <= 32767 && -32768 <= e1 <= 32767 else 0 <= e0 <= 65535 && 0 <= e1 <= 65535
    ensures InterpolateWord(ToU16(e0), ToU16(e1), w, signed) == Half(Blend(e0, e1, w), signed)
  {
    ReadBack(e0, signed);
    ReadBack(e1, signed);
    if signed { BlendIsBetween(e0, e1, w, -32768, 32767); } else { BlendIsBetween(e0, e1, w, 0, 65535); }
    hide ToU16, ReadWord, HalfWord, Half, Blend;
    WordOfHalf(Blend(e0, e1, w), signed);
  }

  // ---------- the decoded halves are finite ----------

  /** A half-precision pattern whose exponent is not all ones. */
  predicate IsFiniteHalf(h: int) {
    0 <= h < 0x10000 && h % 0x8000 <= 0x7bff
  }

  lemma UnsignedHalfIsFinite(v: int)
    requires 0 <= v <= 65535
    ensures 0 <= Half(v, false) <= 0x7bff
  {
  }

  lemma SignedHalfIsFinite(v: int)
    requires -32768 <= v <= 32767
    ensures Half(v, true) != 0x8000
    ensures IsFiniteHalf(Half(v, true)) <==> v != -32768
    ensures v == -32768 ==> Half(v, true) == 0xfc00
  {
  }

  /** The bounds of an endpoint: only a 16-bit signed format reaches the most negative number. */
  lemma EndpointRange(n: nat, signed: bool, p: int)
    requires 1 <= n <= 16 && 0 <= p < Pow2(n)
    ensures !signed ==> 0 <= Endpoint(n, signed, p) <= 65535
    ensures signed ==> -32768 <= Endpoint(n, signed, p) <= 32767
    ensures signed && n < 16 ==> -32767 <= Endpoint(n, signed, p)
  {
    if signed {
      ExtendSignIsSigned(p, n);
      SignedEndpointFits(n, Signed(p, n));
    } else {
      UnsignedEndpointFits(n, p);
    }
  }

  /** A channel decodes to a finite half, never to minus zero, in every unsigned format and in every
      signed format with endpoints of less than 16 bits. */
  lemma DecodedHalfIsFinite(n: nat, signed: bool, p: int, q: int, w: nat)
    requires 1 <= n <= 16 && 0 <= p < Pow2(n) && 0 <= q < Pow2(n) && w <= 64 && (signed ==> n < 16)
    ensures var h := Half(Blend(Endpoint(n, signed, p), Endpoint(n, signed, q), w), signed);
            IsFiniteHalf(h) && h != 0x8000 && (!signed ==> h <= 0x7bff)
  {
    EndpointRange(n, signed, p);
    EndpointRange(n, signed, q);
    var e0, e1 := Endpoint(n, signed, p), Endpoint(n, signed, q);
    hide Endpoint, Blend, Pow2;
    if signed {
      BlendIsBetween(e0, e1, w, -32767, 32767);
      SignedHalfIsFinite(Blend(e0, e1, w));
    } else {
      BlendIsBetween(e0, e1, w, 0, 65535);
      UnsignedHalfIsFinite(Blend(e0, e1, w));
    }
  }

  /** The weighted endpoints are at least half a unit above the lowest number. */
  predicate AboveLowest(e0: int, e1: int, w: int) {
    (64 - w) * (e0 + 32768) + w * (e1 + 32768) >= 32
  }

  /** With signed endpoints the result is minus infinity exactly when the endpoints are, weighted, less than
      half a unit above the most negative number. */
  lemma WideSignedHalfIsFinite(e0: int, e1: int, w: nat)
    requires -32768 <= e0 <= 32767 && -32768 <= e1 <= 32767 && w <= 64
    ensures var h := Half(Blend(e0, e1, w), true);
            && h != 0x8000 && (!IsFiniteHalf(h) ==> h == 0xfc00)
            && (IsFiniteHalf(h) <==> AboveLowest(e0, e1, w))
  {
    BlendIsBetween(e0, e1, w, -32768, 32767);
    SignedHalfIsFinite(Blend(e0, e1, w));
    assert (64 - w) * (e0 + 32768) + w * (e1 + 32768) == (64 - w) * e0 + w * e1 + 64 * 32768;
  }
}
