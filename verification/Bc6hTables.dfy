/** The 14 block layouts of BC6H (externals/bc_decoder/bc_decoder.cpp, `blockDescs`). */
module Bc6hTables {
  import opened Wrappers

  /** The header fields of a block from the lowest bit up.  Slot 3 * e + c is channel c of endpoint e,
      slot 12 the partition; a field with msb < lsb is stored in reverse. */
  datatype Layout = End | Field(slot: nat, msb: nat, lsb: nat, rest: Layout) {
    function Lo(): nat requires Field? { if msb < lsb then msb else lsb }
    function Hi(): nat requires Field? { if msb < lsb then lsb else msb }
    function Width(): nat requires Field? { Hi() - Lo() + 1 }
  }

  datatype ModeDesc = ModeDesc(number: nat, modeBits: nat, hasDelta: bool, partitionCount: nat, endpointBits: nat,
                               deltaR: nat, deltaG: nat, deltaB: nat)

  /** How many bits the layout of a mode stores for a slot. */
  function Size(d: ModeDesc, slot: nat): nat {
    if slot == 12 then (if d.partitionCount == 2 then 5 else 0)
    else if slot < 3 then d.endpointBits
    else if slot >= 6 && d.partitionCount != 2 then 0
    else if !d.hasDelta then d.endpointBits
    else if slot == 3 || slot == 6 || slot == 9 then d.deltaR
    else if slot == 4 || slot == 7 || slot == 10 then d.deltaG
    else if slot == 5 || slot == 8 || slot == 11 then d.deltaB
    else 0
  }

  function Desc(i: nat): ModeDesc {
    match i
    case 0 => ModeDesc(0, 2, true, 2, 10, 5, 5, 5)
    case 1 => ModeDesc(1, 2, true, 2, 7, 6, 6, 6)
    case 2 => ModeDesc(2, 5, true, 2, 11, 5, 4, 4)
    case 3 => ModeDesc(3, 5, false, 1, 10, 0, 0, 0)
    case 4 => ModeDesc(6, 5, true, 2, 11, 4, 5, 4)
    case 5 => ModeDesc(7, 5, true, 1, 11, 9, 9, 9)
    case 6 => ModeDesc(10, 5, true, 2, 11, 4, 4, 5)
    case 7 => ModeDesc(11, 5, true, 1, 12, 8, 8, 8)
    case 8 => ModeDesc(14, 5, true, 2, 9, 5, 5, 5)
    case 9 => ModeDesc(15, 5, true, 1, 16, 4, 4, 4)
    case 10 => ModeDesc(18, 5, true, 2, 8, 6, 5, 5)
    case 11 => ModeDesc(22, 5, true, 2, 8, 5, 6, 5)
    case 12 => ModeDesc(26, 5, true, 2, 8, 5, 5, 6)
    case _ => ModeDesc(30, 5, false, 2, 6, 0, 0, 0)
  }

  /** A mode: its description and its fields, written as four rows. */
  datatype Spec = Spec(desc: ModeDesc, a: Layout, b: Layout, c: Layout, d: Layout)

  function Mode0(): Spec {
    Spec(Desc(0),
         Field(7, 4, 4, Field(8, 4, 4, Field(11, 4, 4, Field(0, 9, 0, Field(1, 9, 0, End))))),
         Field(2, 9, 0, Field(3, 4, 0, Field(10, 4, 4, Field(7, 3, 0, Field(4, 4, 0, End))))),
         Field(11, 0, 0, Field(10, 3, 0, Field(5, 4, 0, Field(11, 1, 1, Field(8, 3, 0, End))))),
         Field(6, 4, 0, Field(11, 2, 2, Field(9, 4, 0, Field(11, 3, 3, Field(12, 4, 0, End))))))
  }

  function Mode1(): Spec {
    Spec(Desc(1),
         Field(7, 5, 5, Field(10, 5, 4, Field(0, 6, 0, Field(11, 1, 0, Field(8, 4, 4, Field(1, 6, 0, End)))))),
         Field(8, 5, 5, Field(11, 2, 2, Field(7, 4, 4, Field(2, 6, 0, Field(11, 3, 3, Field(11, 5, 5, End)))))),
         Field(11, 4, 4, Field(3, 5, 0, Field(7, 3, 0, Field(4, 5, 0, Field(10, 3, 0, Field(5, 5, 0, End)))))),
         Field(8, 3, 0, Field(6, 5, 0, Field(9, 5, 0, Field(12, 4, 0, End)))))
  }

  function Mode2(): Spec {
    Spec(Desc(2),
         Field(0, 9, 0, Field(1, 9, 0, Field(2, 9, 0, Field(3, 4, 0, Field(0, 10, 10, End))))),
         Field(7, 3, 0, Field(4, 3, 0, Field(1, 10, 10, Field(11, 0, 0, Field(10, 3, 0, End))))),
         Field(5, 3, 0, Field(2, 10, 10, Field(11, 1, 1, Field(8, 3, 0, Field(6, 4, 0, End))))),
         Field(11, 2, 2, Field(9, 4, 0, Field(11, 3, 3, Field(12, 4, 0, End)))))
  }

  function Mode3(): Spec {
    Spec(Desc(3),
         Field(0, 9, 0, Field(1, 9, 0, End)),
         Field(2, 9, 0, Field(3, 9, 0, End)),
         Field(4, 9, 0, Field(5, 9, 0, End)),
         End)
  }

  function Mode4(): Spec {
    Spec(Desc(4),
         Field(0, 9, 0, Field(1, 9, 0, Field(2, 9, 0, Field(3, 3, 0, Field(0, 10, 10, Field(10, 4, 4, End)))))),
         Field(7, 3, 0, Field(4, 4, 0, Field(1, 10, 10, Field(10, 3, 0, Field(5, 3, 0, Field(2, 10, 10, End)))))),
         Field(11, 1, 1, Field(8, 3, 0, Field(6, 3, 0, Field(11, 0, 0, Field(11, 2, 2, Field(9, 3, 0, End)))))),
         Field(7, 4, 4, Field(11, 3, 3, Field(12, 4, 0, End))))
  }

  function Mode5(): Spec {
    Spec(Desc(5),
         Field(0, 9, 0, Field(1, 9, 0, Field(2, 9, 0, End))),
         Field(3, 8, 0, Field(0, 10, 10, Field(4, 8, 0, End))),
         Field(1, 10, 10, Field(5, 8, 0, Field(2, 10, 10, End))),
         End)
  }

  function Mode6(): Spec {
    Spec(Desc(6),
         Field(0, 9, 0, Field(1, 9, 0, Field(2, 9, 0, Field(3, 3, 0, Field(0, 10, 10, Field(8, 4, 4, End)))))),
         Field(7, 3, 0, Field(4, 3, 0, Field(1, 10, 10, Field(11, 0, 0, Field(10, 3, 0, Field(5, 4, 0, End)))))),
         Field(2, 10, 10, Field(8, 3, 0, Field(6, 3, 0, Field(11, 1, 1, Field(11, 2, 2, Field(9, 3, 0, End)))))),
         Field(11, 4, 4, Field(11, 3, 3, Field(12, 4, 0, End))))
  }

  function Mode7(): Spec {
    Spec(Desc(7),
         Field(0, 9, 0, Field(1, 9, 0, Field(2, 9, 0, End))),
         Field(3, 7, 0, Field(0, 10, 11, Field(4, 7, 0, End))),
         Field(1, 10, 11, Field(5, 7, 0, Field(2, 10, 11, End))),
         End)
  }

  function Mode8(): Spec {
    Spec(Desc(8),
         Field(0, 8, 0, Field(8, 4, 4, Field(1, 8, 0, Field(7, 4, 4, Field(2, 8, 0, End))))),
         Field(11, 4, 4, Field(3, 4, 0, Field(10, 4, 4, Field(7, 3, 0, Field(4, 4, 0, End))))),
         Field(11, 0, 0, Field(10, 3, 0, Field(5, 4, 0, Field(11, 1, 1, Field(8, 3, 0, End))))),
         Field(6, 4, 0, Field(11, 2, 2, Field(9, 4, 0, Field(11, 3, 3, Field(12, 4, 0, End))))))
  }

  function Mode9(): Spec {
    Spec(Desc(9),
         Field(0, 9, 0, Field(1, 9, 0, Field(2, 9, 0, End))),
         Field(3, 3, 0, Field(0, 10, 15, Field(4, 3, 0, End))),
         Field(1, 10, 15, Field(5, 3, 0, Field(2, 10, 15, End))),
         End)
  }

  function Mode10(): Spec {
    Spec(Desc(10),
         Field(0, 7, 0, Field(10, 4, 4, Field(8, 4, 4, Field(1, 7, 0, Field(11, 2, 2, End))))),
         Field(7, 4, 4, Field(2, 7, 0, Field(11, 3, 3, Field(11, 4, 4, Field(3, 5, 0, End))))),
         Field(7, 3, 0, Field(4, 4, 0, Field(11, 0, 0, Field(10, 3, 0, Field(5, 4, 0, End))))),
         Field(11, 1, 1, Field(8, 3, 0, Field(6, 5, 0, Field(9, 5, 0, Field(12, 4, 0, End))))))
  }

  function Mode11(): Spec {
    Spec(Desc(11),
         Field(0, 7, 0, Field(11, 0, 0, Field(8, 4, 4, Field(1, 7, 0, Field(7, 5, 5, Field(7, 4, 4, End)))))),
         Field(2, 7, 0, Field(10, 5, 5, Field(11, 4, 4, Field(3, 4, 0, Field(10, 4, 4, Field(7, 3, 0, End)))))),
         Field(4, 5, 0, Field(10, 3, 0, Field(5, 4, 0, Field(11, 1, 1, Field(8, 3, 0, Field(6, 4, 0, End)))))),
         Field(11, 2, 2, Field(9, 4, 0, Field(11, 3, 3, Field(12, 4, 0, End)))))
  }

  function Mode12(): Spec {
    Spec(Desc(12),
         Field(0, 7, 0, Field(11, 1, 1, Field(8, 4, 4, Field(1, 7, 0, Field(8, 5, 5, Field(7, 4, 4, End)))))),
         Field(2, 7, 0, Field(11, 5, 5, Field(11, 4, 4, Field(3, 4, 0, Field(10, 4, 4, Field(7, 3, 0, End)))))),
         Field(4, 4, 0, Field(11, 0, 0, Field(10, 3, 0, Field(5, 5, 0, Field(8, 3, 0, Field(6, 4, 0, End)))))),
         Field(11, 2, 2, Field(9, 4, 0, Field(11, 3, 3, Field(12, 4, 0, End)))))
  }

  function Mode13(): Spec {
    Spec(Desc(13),
         Field(0, 5, 0, Field(10, 4, 4, Field(11, 0, 0, Field(11, 1, 1, Field(8, 4, 4, Field(1, 5, 0, End)))))),
         Field(7, 5, 5, Field(8, 5, 5, Field(11, 2, 2, Field(7, 4, 4, Field(2, 5, 0, Field(10, 5, 5, End)))))),
         Field(11, 3, 3, Field(11, 5, 5, Field(11, 4, 4, Field(3, 5, 0, Field(7, 3, 0, Field(4, 5, 0, End)))))),
         Field(10, 3, 0, Field(5, 5, 0, Field(8, 3, 0, Field(6, 5, 0, Field(9, 5, 0, Field(12, 4, 0, End)))))))
  }

  function SpecOf(i: nat): Spec {
    match i
    case 0 => Mode0()
    case 1 => Mode1()
    case 2 => Mode2()
    case 3 => Mode3()
    case 4 => Mode4()
    case 5 => Mode5()
    case 6 => Mode6()
    case 7 => Mode7()
    case 8 => Mode8()
    case 9 => Mode9()
    case 10 => Mode10()
    case 11 => Mode11()
    case 12 => Mode12()
    case _ => Mode13()
  }

  function Append(a: Layout, b: Layout): Layout {
    match a
    case End => b
    case Field(slot, msb, lsb, rest) => Field(slot, msb, lsb, Append(rest, b))
  }

  function LayoutOf(i: nat): Layout {
    var s := SpecOf(i);
    Append(s.a, Append(s.b, Append(s.c, s.d)))
  }

  /** The table index of a mode number; reserved modes have none. */
  function ModeToIndex(mode: nat): (r: Option<nat>) {
    if mode <= 3 then Some(mode)
    else if mode / 2 % 2 == 1 then
      if mode <= 18 then Some(mode / 2 + 1 + mode % 2)
      else if mode == 22 || mode == 26 || mode == 30 then Some(mode / 4 + 6)
      else None
    else None
  }

  // ---------- checks that can be computed row by row ----------

  predicate InRange(l: Layout, d: ModeDesc) {
    match l
    case End => true
    case Field(slot, msb, lsb, rest) => slot <= 12 && msb < Size(d, slot) && lsb < Size(d, slot) && InRange(rest, d)
  }

  /** No field of `l` shares a bit of `slot` with the positions between `p` and `q`. */
  predicate Apart(l: Layout, slot: nat, p: nat, q: nat) {
    match l
    case End => true
    case Field(s, msb, lsb, rest) =>
      (s != slot || (msb < p && msb < q && lsb < p && lsb < q) || (p < msb && q < msb && p < lsb && q < lsb))
        && Apart(rest, slot, p, q)
  }

  predicate Separate(l: Layout, k: Layout) {
    match l
    case End => true
    case Field(slot, msb, lsb, rest) => Apart(k, slot, msb, lsb) && Separate(rest, k)
  }

  predicate Disjoint(l: Layout) {
    match l
    case End => true
    case Field(slot, msb, lsb, rest) => Apart(rest, slot, msb, lsb) && Disjoint(rest)
  }

  function Total(l: Layout): nat {
    match l
    case End => 0
    case Field(_, msb, lsb, rest) => (if msb < lsb then lsb - msb + 1 else msb - lsb + 1) + Total(rest)
  }

  /** The bits of the first `n` slots together. */
  function SizeUpTo(d: ModeDesc, n: nat): nat {
    if n == 0 then 0 else SizeUpTo(d, n - 1) + Size(d, n - 1)
  }

  predicate SoundRows(s: Spec) {
    && InRange(s.a, s.desc) && InRange(s.b, s.desc) && InRange(s.c, s.desc) && InRange(s.d, s.desc)
    && Disjoint(s.a) && Disjoint(s.b) && Disjoint(s.c) && Disjoint(s.d)
  }

  predicate FirstRowIsSeparate(s: Spec) {
    Separate(s.a, s.b) && Separate(s.a, s.c) && Separate(s.a, s.d)
  }

  predicate OtherRowsAreSeparate(s: Spec) {
    Separate(s.b, s.c) && Separate(s.b, s.d) && Separate(s.c, s.d)
  }

  /** `l` has exactly `n` bits. */
  predicate Weighs(l: Layout, n: nat) {
    match l
    case End => n == 0
    case Field(_, msb, lsb, rest) =>
      if msb < lsb then lsb - msb < n && Weighs(rest, n - (lsb - msb + 1))
      else msb - lsb < n && Weighs(rest, n - (msb - lsb + 1))
  }

  lemma {:induction false} WeighsIsTotal(l: Layout, n: nat)
    requires Weighs(l, n)
    ensures Total(l) == n
  {
    if l.Field? {
      WeighsIsTotal(l.rest, n - l.Width());
    }
  }

  /** The header of a mode after its mode bits: the endpoints and, with two subsets, the partition. */
  function HeaderBits(d: ModeDesc): nat {
    if d.hasDelta then
      3 * d.endpointBits
      + (if d.partitionCount == 2 then 3 * (d.deltaR + d.deltaG + d.deltaB) + 5 else d.deltaR + d.deltaG + d.deltaB)
    else if d.partitionCount == 2 then 12 * d.endpointBits + 5 else 6 * d.endpointBits
  }

  predicate RowTotals(s: Spec, a: nat, b: nat, c: nat, d: nat) {
    Weighs(s.a, a) && Weighs(s.b, b) && Weighs(s.c, c) && Weighs(s.d, d) && a + b + c + d == HeaderBits(s.desc)
  }

  predicate CompleteRows(s: Spec) {
    Total(s.a) + Total(s.b) + Total(s.c) + Total(s.d) == HeaderBits(s.desc)
  }

  lemma TotalsAreComplete(s: Spec, a: nat, b: nat, c: nat, d: nat)
    requires RowTotals(s, a, b, c, d)
    ensures CompleteRows(s)
  {
    WeighsIsTotal(s.a, a);
    WeighsIsTotal(s.b, b);
    WeighsIsTotal(s.c, c);
    WeighsIsTotal(s.d, d);
  }

  predicate RowsAreExact(s: Spec) {
    SoundRows(s) && FirstRowIsSeparate(s) && OtherRowsAreSeparate(s) && CompleteRows(s)
  }

  lemma Sound0() ensures SoundRows(Mode0()) {}
  lemma Sound1() ensures SoundRows(Mode1()) {}
  lemma Sound2() ensures SoundRows(Mode2()) {}
  lemma Sound3() ensures SoundRows(Mode3()) {}
  lemma Sound4() ensures SoundRows(Mode4()) {}
  lemma Sound5() ensures SoundRows(Mode5()) {}
  lemma Sound6() ensures SoundRows(Mode6()) {}
  lemma Sound7() ensures SoundRows(Mode7()) {}
  lemma Sound8() ensures SoundRows(Mode8()) {}
  lemma Sound9() ensures SoundRows(Mode9()) {}
  lemma Sound10() ensures SoundRows(Mode10()) {}
  lemma Sound11() ensures SoundRows(Mode11()) {}
  lemma Sound12() ensures SoundRows(Mode12()) {}
  lemma Sound13() ensures SoundRows(Mode13()) {}

  lemma First0() ensures FirstRowIsSeparate(Mode0()) {}
  lemma First1() ensures FirstRowIsSeparate(Mode1()) {}
  lemma First2() ensures FirstRowIsSeparate(Mode2()) {}
  lemma First3() ensures FirstRowIsSeparate(Mode3()) {}
  lemma First4() ensures FirstRowIsSeparate(Mode4()) {}
  lemma First5() ensures FirstRowIsSeparate(Mode5()) {}
  lemma First6() ensures FirstRowIsSeparate(Mode6()) {}
  lemma First7() ensures FirstRowIsSeparate(Mode7()) {}
  lemma First8() ensures FirstRowIsSeparate(Mode8()) {}
  lemma First9() ensures FirstRowIsSeparate(Mode9()) {}
  lemma First10() ensures FirstRowIsSeparate(Mode10()) {}
  lemma First11() ensures FirstRowIsSeparate(Mode11()) {}
  lemma First12() ensures FirstRowIsSeparate(Mode12()) {}
  lemma First13() ensures FirstRowIsSeparate(Mode13()) {}

  lemma Others0() ensures OtherRowsAreSeparate(Mode0()) {}
  lemma Others1() ensures OtherRowsAreSeparate(Mode1()) {}
  lemma Others2() ensures OtherRowsAreSeparate(Mode2()) {}
  lemma Others3() ensures OtherRowsAreSeparate(Mode3()) {}
  lemma Others4() ensures OtherRowsAreSeparate(Mode4()) {}
  lemma Others5() ensures OtherRowsAreSeparate(Mode5()) {}
  lemma Others6() ensures OtherRowsAreSeparate(Mode6()) {}
  lemma Others7() ensures OtherRowsAreSeparate(Mode7()) {}
  lemma Others8() ensures OtherRowsAreSeparate(Mode8()) {}
  lemma Others9() ensures OtherRowsAreSeparate(Mode9()) {}
  lemma Others10() ensures OtherRowsAreSeparate(Mode10()) {}
  lemma Others11() ensures OtherRowsAreSeparate(Mode11()) {}
  lemma Others12() ensures OtherRowsAreSeparate(Mode12()) {}
  lemma Others13() ensures OtherRowsAreSeparate(Mode13()) {}

  lemma Totals0() ensures RowTotals(Mode0(), 23, 25, 15, 17) {}
  lemma Totals1() ensures RowTotals(Mode1(), 20, 12, 27, 21) {}
  lemma Totals2() ensures RowTotals(Mode2(), 36, 14, 15, 12) {}
  lemma Totals3() ensures RowTotals(Mode3(), 20, 20, 20, 0) {}
  lemma Totals4() ensures RowTotals(Mode4(), 36, 19, 15, 7) {}
  lemma Totals5() ensures RowTotals(Mode5(), 30, 19, 11, 0) {}
  lemma Totals6() ensures RowTotals(Mode6(), 36, 19, 15, 7) {}
  lemma Totals7() ensures RowTotals(Mode7(), 30, 18, 12, 0) {}
  lemma Totals8() ensures RowTotals(Mode8(), 29, 16, 15, 17) {}
  lemma Totals9() ensures RowTotals(Mode9(), 30, 14, 16, 0) {}
  lemma Totals10() ensures RowTotals(Mode10(), 19, 17, 19, 22) {}
  lemma Totals11() ensures RowTotals(Mode11(), 20, 20, 25, 12) {}
  lemma Totals12() ensures RowTotals(Mode12(), 20, 20, 25, 12) {}
  lemma Totals13() ensures RowTotals(Mode13(), 16, 11, 19, 31) {}

  lemma Exact0()
    ensures RowsAreExact(Mode0())
  {
    hide SoundRows, FirstRowIsSeparate, OtherRowsAreSeparate, CompleteRows, RowTotals, Mode0;
    Sound0(); First0(); Others0(); Totals0();
    TotalsAreComplete(Mode0(), 23, 25, 15, 17);
  }

  lemma Exact1()
    ensures RowsAreExact(Mode1())
  {
    hide SoundRows, FirstRowIsSeparate, OtherRowsAreSeparate, CompleteRows, RowTotals, Mode1;
    Sound1(); First1(); Others1(); Totals1();
    TotalsAreComplete(Mode1(), 20, 12, 27, 21);
  }

  lemma Exact2()
    ensures RowsAreExact(Mode2())
  {
    hide SoundRows, FirstRowIsSeparate, OtherRowsAreSeparate, CompleteRows, RowTotals, Mode2;
    Sound2(); First2(); Others2(); Totals2();
    TotalsAreComplete(Mode2(), 36, 14, 15, 12);
  }

  lemma Exact3()
    ensures RowsAreExact(Mode3())
  {
    hide SoundRows, FirstRowIsSeparate, OtherRowsAreSeparate, CompleteRows, RowTotals, Mode3;
    Sound3(); First3(); Others3(); Totals3();
    TotalsAreComplete(Mode3(), 20, 20, 20, 0);
  }

  lemma Exact4()
    ensures RowsAreExact(Mode4())
  {
    hide SoundRows, FirstRowIsSeparate, OtherRowsAreSeparate, CompleteRows, RowTotals, Mode4;
    Sound4(); First4(); Others4(); Totals4();
    TotalsAreComplete(Mode4(), 36, 19, 15, 7);
  }

  lemma Exact5()
    ensures RowsAreExact(Mode5())
  {
    hide SoundRows, FirstRowIsSeparate, OtherRowsAreSeparate, CompleteRows, RowTotals, Mode5;
    Sound5(); First5(); Others5(); Totals5();
    TotalsAreComplete(Mode5(), 30, 19, 11, 0);
  }

  lemma Exact6()
    ensures RowsAreExact(Mode6())
  {
    hide SoundRows, FirstRowIsSeparate, OtherRowsAreSeparate, CompleteRows, RowTotals, Mode6;
    Sound6(); First6(); Others6(); Totals6();
    TotalsAreComplete(Mode6(), 36, 19, 15, 7);
  }

  lemma Exact7()
    ensures RowsAreExact(Mode7())
  {
    hide SoundRows, FirstRowIsSeparate, OtherRowsAreSeparate, CompleteRows, RowTotals, Mode7;
    Sound7(); First7(); Others7(); Totals7();
    TotalsAreComplete(Mode7(), 30, 18, 12, 0);
  }

  lemma Exact8()
    ensures RowsAreExact(Mode8())
  {
    hide SoundRows, FirstRowIsSeparate, OtherRowsAreSeparate, CompleteRows, RowTotals, Mode8;
    Sound8(); First8(); Others8(); Totals8();
    TotalsAreComplete(Mode8(), 29, 16, 15, 17);
  }

  lemma Exact9()
    ensures RowsAreExact(Mode9())
  {
    hide SoundRows, FirstRowIsSeparate, OtherRowsAreSeparate, CompleteRows, RowTotals, Mode9;
    Sound9(); First9(); Others9(); Totals9();
    TotalsAreComplete(Mode9(), 30, 14, 16, 0);
  }

  lemma Exact10()
    ensures RowsAreExact(Mode10())
  {
    hide SoundRows, FirstRowIsSeparate, OtherRowsAreSeparate, CompleteRows, RowTotals, Mode10;
    Sound10(); First10(); Others10(); Totals10();
    TotalsAreComplete(Mode10(), 19, 17, 19, 22);
  }

  lemma Exact11()
    ensures RowsAreExact(Mode11())
  {
    hide SoundRows, FirstRowIsSeparate, OtherRowsAreSeparate, CompleteRows, RowTotals, Mode11;
    Sound11(); First11(); Others11(); Totals11();
    TotalsAreComplete(Mode11(), 20, 20, 25, 12);
  }

  lemma Exact12()
    ensures RowsAreExact(Mode12())
  {
    hide SoundRows, FirstRowIsSeparate, OtherRowsAreSeparate, CompleteRows, RowTotals, Mode12;
    Sound12(); First12(); Others12(); Totals12();
    TotalsAreComplete(Mode12(), 20, 20, 25, 12);
  }

  lemma Exact13()
    ensures RowsAreExact(Mode13())
  {
    hide SoundRows, FirstRowIsSeparate, OtherRowsAreSeparate, CompleteRows, RowTotals, Mode13;
    Sound13(); First13(); Others13(); Totals13();
    TotalsAreComplete(Mode13(), 16, 11, 19, 31);
  }

  lemma RowsOfAllModes(i: nat)
    requires i < 14
    ensures RowsAreExact(SpecOf(i)) && SpecOf(i).desc == Desc(i)
  {
    hide RowsAreExact;
    match i {
      case 0 => Exact0();
      case 1 => Exact1();
      case 2 => Exact2();
      case 3 => Exact3();
      case 4 => Exact4();
      case 5 => Exact5();
      case 6 => Exact6();
      case 7 => Exact7();
      case 8 => Exact8();
      case 9 => Exact9();
      case 10 => Exact10();
      case 11 => Exact11();
      case 12 => Exact12();
      case _ => Exact13();
    }
  }
}
