/** The order of the instruction decoder tables (tools/gendynarm.cpp): a matcher with more fixed bits is tried
    first, except for some that are listed by name. */
module DecoderTable {
  import opened BitMath

  const OPCODE_BITS := 32

  /** `text` is the line that is printed for it. */
  datatype Matcher = Matcher(name: string, mask: nat, text: string)

  // ---------- masks ----------

  predicate Fixed(c: char) {
    c == '0' || c == '1'
  }

  function FixedCount(s: string): nat {
    if s == "" then 0 else (if Fixed(s[0]) then 1 else 0) + FixedCount(s[1..])
  }

  function PopCount(x: nat, n: nat): nat {
    if n == 0 then 0 else PopCount(x, n - 1) + if Bit(x, n - 1) then 1 else 0
  }

  predicate IsOpcode(x: nat) {
    x < Pow2(OPCODE_BITS)
  }

  /** The mask has exactly the bits at the places of `0` and `1`, the first character being the highest. */
  ghost predicate Masks(mask: nat, bitstring: string)
    requires |bitstring| >= OPCODE_BITS
  {
    forall k :: 0 <= k < OPCODE_BITS ==> (Bit(mask, k) <==> Fixed(bitstring[OPCODE_BITS - 1 - k]))
  }

  lemma BitOfOne(pos: nat, k: nat)
    ensures Bit(Shl(1, pos), k) <==> k == pos
  {
    BitOfShl(1, pos, k);
    if k > pos {
      assert 1 < Pow2(1);
      NoHighBits(1, 1, k - pos);
    }
  }

  lemma OneBelow(pos: nat)
    requires pos < OPCODE_BITS
    ensures IsOpcode(Shl(1, pos))
  {
    assert 1 < Pow2(1);
    ShlBound(1, pos, 1);
    Pow2Mono(1 + pos, OPCODE_BITS);
  }

  lemma ZeroIsOpcode()
    ensures IsOpcode(0) && forall k :: k >= 0 ==> !Bit(0, k)
  {
    forall k | k >= 0
      ensures !Bit(0, k)
    {
      BitOfZero(k);
    }
  }

  lemma OrKeepsOpcode(a: nat, b: nat)
    requires IsOpcode(a) && IsOpcode(b)
    ensures IsOpcode(Or(a, b))
  {
    OrBound(a, b, OPCODE_BITS);
  }

  method GetMaskAndExpect(bitstring: string) returns (mask: nat)
    requires |bitstring| >= OPCODE_BITS
    ensures IsOpcode(mask) && Masks(mask, bitstring)
    ensures PopCount(mask, OPCODE_BITS) == FixedCount(bitstring[..OPCODE_BITS])
  {
    mask := 0;
    ZeroIsOpcode();
    hide IsOpcode, Or, Bit, Shl, Pow2;
    for i := 0 to OPCODE_BITS
      invariant IsOpcode(mask)
      invariant forall k :: 0 <= k < OPCODE_BITS ==>
        (Bit(mask, k) <==> OPCODE_BITS - i <= k && Fixed(bitstring[OPCODE_BITS - 1 - k]))
    {
      var bitPosition := OPCODE_BITS - i - 1;
      if bitstring[i] == '0' || bitstring[i] == '1' {
        OneBelow(bitPosition);
        OrKeepsOpcode(mask, Shl(1, bitPosition));
        forall k | 0 <= k < OPCODE_BITS
          ensures Bit(Or(mask, Shl(1, bitPosition)), k) <==> Bit(mask, k) || k == bitPosition
        {
          BitOfOr(mask, Shl(1, bitPosition), k);
          BitOfOne(bitPosition, k);
        }
        mask := Or(mask, Shl(1, bitPosition));
      }
    }
    CountIsFixed(mask, bitstring, OPCODE_BITS);
  }

  lemma {:induction false} CountIsFixed(mask: nat, bitstring: string, n: nat)
    requires |bitstring| >= OPCODE_BITS && Masks(mask, bitstring) && n <= OPCODE_BITS
    ensures PopCount(mask, n) == FixedCount(bitstring[OPCODE_BITS - n..OPCODE_BITS])
    decreases n
  {
    if n > 0 {
      CountIsFixed(mask, bitstring, n - 1);
      assert bitstring[OPCODE_BITS - n..OPCODE_BITS][1..] == bitstring[OPCODE_BITS - (n - 1)..OPCODE_BITS];
    }
  }

  /** Every fixed bit of `b` is one of `a`. */
  ghost predicate Covers(a: nat, b: nat, n: nat) {
    forall k :: 0 <= k < n ==> Bit(b, k) ==> Bit(a, k)
  }

  lemma {:induction false} CoversMore(a: nat, b: nat, n: nat)
    requires Covers(a, b, n)
    ensures PopCount(b, n) <= PopCount(a, n)
    ensures (exists k :: 0 <= k < n && Bit(a, k) && !Bit(b, k)) ==> PopCount(b, n) < PopCount(a, n)
    decreases n
  {
    if n > 0 {
      CoversMore(a, b, n - 1);
    }
  }

  /** A mask that strictly contains another has more bits. */
  lemma StrictlyMore(a: nat, b: nat)
    requires IsOpcode(a) && IsOpcode(b) && a != b && Covers(a, b, OPCODE_BITS)
    ensures PopCount(b, OPCODE_BITS) < PopCount(a, OPCODE_BITS)
  {
    CoversMore(a, b, OPCODE_BITS);
    if forall k :: 0 <= k < OPCODE_BITS ==> (Bit(a, k) ==> Bit(b, k)) {
      SameBits(a, b, OPCODE_BITS);
    }
  }

  // ---------- the sort ----------

  function Bits(m: Matcher): nat {
    PopCount(m.mask, OPCODE_BITS)
  }

  /** In front of the first that is not more specific. */
  function Insert(m: Matcher, s: seq<Matcher>): seq<Matcher> {
    if s == [] || Bits(s[0]) <= Bits(m) then [m] + s else [s[0]] + Insert(m, s[1..])
  }

  /** The library's stable sort by falling number of fixed bits. */
  function StableSort(list: seq<Matcher>): (r: seq<Matcher>) {
    if list == [] then [] else Insert(list[0], StableSort(list[1..]))
  }

  ghost predicate Sorted(s: seq<Matcher>) {
    forall i, j :: 0 <= i < j < |s| ==> Bits(s[i]) >= Bits(s[j])
  }

  /** The matchers with `p` fixed bits, in order. */
  function Select(s: seq<Matcher>, p: nat): seq<Matcher> {
    if s == [] then [] else (if Bits(s[0]) == p then [s[0]] else []) + Select(s[1..], p)
  }

  lemma {:induction false} InsertSorts(m: Matcher, s: seq<Matcher>)
    requires Sorted(s)
    ensures Sorted(Insert(m, s)) && multiset(Insert(m, s)) == multiset(s) + multiset{m}
    ensures Insert(m, s) != [] && (Insert(m, s)[0] == m || (s != [] && Insert(m, s)[0] == s[0]))
  {
    hide Bits;
    if s != [] && !(Bits(s[0]) <= Bits(m)) {
      InsertSorts(m, s[1..]);
      var t := Insert(m, s[1..]);
      SortedFrom(s[0], t);
      MoreOf(s[0], s[1..]);
      MoreOf(s[0], t);
      assert s == [s[0]] + s[1..] && Insert(m, s) == [s[0]] + t;
      hide Sorted, Insert;
    } else {
      if s != [] {
        SortedFrom(m, s);
      }
      MoreOf(m, s);
    }
  }

  lemma SortedFrom(m: Matcher, t: seq<Matcher>)
    requires Sorted(t) && t != [] && Bits(m) >= Bits(t[0])
    ensures Sorted([m] + t)
  {
    hide Bits;
    forall j | 0 <= j < |t|
      ensures Bits(m) >= Bits(t[j])
    {
      assert j == 0 || Bits(t[0]) >= Bits(t[j]);
    }
  }

  lemma MoreOf(m: Matcher, t: seq<Matcher>)
    ensures multiset([m] + t) == multiset(t) + multiset{m}
  {
  }

  lemma SelectFirst(m: Matcher, s: seq<Matcher>, p: nat)
    ensures Select([m] + s, p) == (if Bits(m) == p then [m] else []) + Select(s, p)
  {
    assert ([m] + s)[1..] == s;
  }

  lemma {:induction false} InsertSelects(m: Matcher, s: seq<Matcher>, p: nat)
    requires Sorted(s)
    ensures Select(Insert(m, s), p) == (if Bits(m) == p then [m] else []) + Select(s, p)
  {
    hide Bits;
    if s == [] || Bits(s[0]) <= Bits(m) {
      SelectFirst(m, s, p);
    } else {
      InsertSelects(m, s[1..], p);
      var rest := Select(s[1..], p);
      SelectFirst(s[0], Insert(m, s[1..]), p);
      SelectFirst(s[0], s[1..], p);
      assert s == [s[0]] + s[1..];
      hide Select, Insert;
      if Bits(m) == p {
        assert [] + ([m] + rest) == [m] + ([] + rest);
      } else if Bits(s[0]) == p {
        assert [s[0]] + ([] + rest) == [] + ([s[0]] + rest);
      }
    }
  }

  /** The table is a permutation of the source, the more specific first, and matchers with equally many
      fixed bits in the order of the source. */
  lemma {:induction false} SortIsStable(list: seq<Matcher>)
    ensures Sorted(StableSort(list)) && multiset(StableSort(list)) == multiset(list)
    ensures forall p :: Select(StableSort(list), p) == Select(list, p)
  {
    if list != [] {
      SortIsStable(list[1..]);
      InsertSorts(list[0], StableSort(list[1..]));
      assert list == [list[0]] + list[1..];
      forall p
        ensures Select(StableSort(list), p) == Select(list, p)
      {
        InsertSelects(list[0], StableSort(list[1..]), p);
      }
    }
  }

  /** Nothing else is sorted and keeps equal matchers in order: this is what any stable sort gives. */
  lemma {:induction false} StableSortIsUnique(s: seq<Matcher>, t: seq<Matcher>)
    requires Sorted(s) && Sorted(t) && forall p :: Select(s, p) == Select(t, p)
    ensures s == t
    decreases |s|
  {
    hide Bits;
    if s == [] {
      if t != [] {
        assert Select(t, Bits(t[0])) == Select(s, Bits(t[0]));
      }
    } else {
      FirstIsSelected(s, t);
      forall p
        ensures Select(s[1..], p) == Select(t[1..], p)
      {
        assert Select(s, p) == Select(t, p);
        assert s == [s[0]] + s[1..] && t == [t[0]] + t[1..];
        SelectFirst(s[0], s[1..], p);
        SelectFirst(t[0], t[1..], p);
        SameTail(if Bits(s[0]) == p then [s[0]] else [], Select(s[1..], p), Select(t[1..], p));
      }
      StableSortIsUnique(s[1..], t[1..]);
    }
  }

  lemma SameTail(a: seq<Matcher>, b: seq<Matcher>, c: seq<Matcher>)
    requires a + b == a + c
    ensures b == c
  {
    assert (a + b)[|a|..] == b && (a + c)[|a|..] == c;
  }

  lemma {:induction false} SelectBelow(s: seq<Matcher>, p: nat)
    requires forall k :: 0 <= k < |s| ==> Bits(s[k]) < p
    ensures Select(s, p) == []
  {
    if s != [] {
      SelectBelow(s[1..], p);
    }
  }

  lemma SelectHead(s: seq<Matcher>)
    ensures forall p: nat :: Select([], p) == []
    ensures s != [] ==> Select(s, Bits(s[0])) != [] && Select(s, Bits(s[0]))[0] == s[0]
  {
    hide Bits;
  }

  lemma NoneMore(s: seq<Matcher>, p: nat)
    requires Sorted(s) && s != [] && Bits(s[0]) < p
    ensures Select(s, p) == []
  {
    hide Bits;
    forall k | 0 <= k < |s|
      ensures Bits(s[k]) < p
    {
      assert k == 0 || Bits(s[0]) >= Bits(s[k]);
    }
    SelectBelow(s, p);
  }

  lemma FirstIsSelected(s: seq<Matcher>, t: seq<Matcher>)
    requires s != [] && Sorted(s) && Sorted(t) && forall p :: Select(s, p) == Select(t, p)
    ensures t != [] && s[0] == t[0]
  {
    hide Bits, Select, Sorted;
    SelectHead(s);
    SelectHead(t);
    assert Select(s, Bits(s[0])) == Select(t, Bits(s[0]));
    assert t != [];
    assert Select(s, Bits(t[0])) == Select(t, Bits(t[0]));
    if Bits(s[0]) < Bits(t[0]) {
      NoneMore(s, Bits(t[0]));
    } else if Bits(t[0]) < Bits(s[0]) {
      NoneMore(t, Bits(s[0]));
    }
  }

  /** A matcher whose fixed bits strictly contain another's is tried before it. */
  lemma SpecificComesFirst(list: seq<Matcher>, i: nat, j: nat)
    requires i < |StableSort(list)| && j < |StableSort(list)|
    requires var a, b := StableSort(list)[i].mask, StableSort(list)[j].mask;
             IsOpcode(a) && IsOpcode(b) && a != b && Covers(a, b, OPCODE_BITS)
    ensures i < j
  {
    SortIsStable(list);
    StrictlyMore(StableSort(list)[i].mask, StableSort(list)[j].mask);
    hide StableSort, PopCount;
  }

  // ---------- the listed exceptions ----------

  /** The matchers whose names are listed, or the others, in order. */
  function Keep(s: seq<Matcher>, names: set<string>, listed: bool): seq<Matcher> {
    if s == [] then []
    else if (s[0].name in names) == listed then [s[0]] + Keep(s[1..], names, listed)
    else Keep(s[1..], names, listed)
  }

  lemma {:induction false} KeepHas(s: seq<Matcher>, names: set<string>, listed: bool, k: nat)
    requires k < |Keep(s, names, listed)|
    ensures Keep(s, names, listed)[k] in s && (Keep(s, names, listed)[k].name in names) == listed
  {
    if (s[0].name in names) != listed {
      KeepHas(s[1..], names, listed, k);
    } else if k > 0 {
      KeepHas(s[1..], names, listed, k - 1);
    }
  }

  lemma KeepNext(m: Matcher, s: seq<Matcher>, names: set<string>, listed: bool)
    ensures Keep([m] + s, names, listed)
         == if (m.name in names) == listed then [m] + Keep(s, names, listed) else Keep(s, names, listed)
  {
    assert ([m] + s)[1..] == s;
  }

  lemma InsertFront(m: Matcher, s: seq<Matcher>)
    requires s == [] || Bits(s[0]) <= Bits(m)
    ensures Insert(m, s) == [m] + s
  {
  }

  lemma InsertDeeper(m: Matcher, x: Matcher, s: seq<Matcher>)
    requires Bits(x) > Bits(m)
    ensures Insert(m, [x] + s) == [x] + Insert(m, s)
  {
    hide Bits;
    assert ([x] + s)[1..] == s;
  }

  /** The library's stable partition, and where its second part begins. */
  function Partition(s: seq<Matcher>, names: set<string>, listed: bool): (seq<Matcher>, nat) {
    (Keep(s, names, listed) + Keep(s, names, !listed), |Keep(s, names, listed)|)
  }

  lemma {:induction false} KeepJoin(a: seq<Matcher>, b: seq<Matcher>, names: set<string>, listed: bool)
    ensures Keep(a + b, names, listed) == Keep(a, names, listed) + Keep(b, names, listed)
  {
    if a == [] {
      assert a + b == b;
    } else {
      assert (a + b)[1..] == a[1..] + b;
      KeepJoin(a[1..], b, names, listed);
      assert [a[0]] + (Keep(a[1..], names, listed) + Keep(b, names, listed))
        == [a[0]] + Keep(a[1..], names, listed) + Keep(b, names, listed);
    }
  }

  lemma {:induction false} KeepAll(s: seq<Matcher>, names: set<string>, listed: bool)
    requires forall k :: 0 <= k < |s| ==> (s[k].name in names) == listed
    ensures Keep(s, names, listed) == s && Keep(s, names, !listed) == []
  {
    if s != [] {
      KeepAll(s[1..], names, listed);
      assert s == [s[0]] + s[1..];
    }
  }

  lemma {:induction false} KeepSize(s: seq<Matcher>, names: set<string>)
    ensures |Keep(s, names, true)| + |Keep(s, names, false)| == |s|
    ensures multiset(Keep(s, names, true) + Keep(s, names, false)) == multiset(s)
  {
    if s != [] {
      KeepSize(s[1..], names);
      assert s == [s[0]] + s[1..];
    }
  }

  /** No name is listed both as first and as last. */
  ghost predicate Apart(s: seq<Matcher>, first: set<string>, last: set<string>) {
    forall k :: 0 <= k < |s| ==> !(s[k].name in first && s[k].name in last)
  }

  /** Those listed as last that are not listed as first are all listed as last, exactly if the lists are apart. */
  lemma {:induction false} KeepTwice(s: seq<Matcher>, first: set<string>, last: set<string>)
    ensures |Keep(Keep(s, first, false), last, true)| <= |Keep(s, last, true)|
    ensures !Apart(s, first, last) ==> |Keep(Keep(s, first, false), last, true)| < |Keep(s, last, true)|
    ensures Apart(s, first, last) ==> Keep(Keep(s, first, false), last, true) == Keep(s, last, true)
  {
    if s != [] {
      KeepTwice(s[1..], first, last);
      assert s == [s[0]] + s[1..];
      KeepNext(s[0], s[1..], first, false);
      KeepNext(s[0], s[1..], last, true);
      KeepNext(s[0], Keep(s[1..], first, false), last, true);
      hide Keep;
      if Apart(s[1..], first, last) && !Apart(s, first, last) {
        assert s[0].name in first && s[0].name in last;
      }
    }
  }

  lemma {:induction false} KeepInsert(m: Matcher, s: seq<Matcher>, names: set<string>, listed: bool)
    requires Sorted(s)
    ensures Keep(Insert(m, s), names, listed)
         == if (m.name in names) == listed then Insert(m, Keep(s, names, listed)) else Keep(s, names, listed)
  {
    var k := Keep(s, names, listed);
    hide Bits, Keep;
    if s == [] || Bits(s[0]) <= Bits(m) {
      KeepNext(m, s, names, listed);
      if k != [] {
        KeepHas(s, names, listed, 0);
      }
      InsertFront(m, k);
    } else {
      KeepInsert(m, s[1..], names, listed);
      assert s == [s[0]] + s[1..];
      KeepNext(s[0], s[1..], names, listed);
      KeepNext(s[0], Insert(m, s[1..]), names, listed);
      InsertDeeper(m, s[0], Keep(s[1..], names, listed));
    }
  }

  /** Sorting and picking out commute. */
  lemma {:induction false} KeepSorts(list: seq<Matcher>, names: set<string>, listed: bool)
    ensures Keep(StableSort(list), names, listed) == StableSort(Keep(list, names, listed))
  {
    if list != [] {
      KeepSorts(list[1..], names, listed);
      SortIsStable(list[1..]);
      KeepInsert(list[0], StableSort(list[1..]), names, listed);
      KeepNext(list[0], list[1..], names, listed);
      assert list == [list[0]] + list[1..];
      assert ([list[0]] + Keep(list[1..], names, listed))[1..] == Keep(list[1..], names, listed);
      hide Keep, Insert, Sorted;
    }
  }

  // ---------- the three tables ----------

  lemma SortSize(list: seq<Matcher>)
    ensures |StableSort(list)| == |list|
  {
    SortIsStable(list);
    assert |multiset(StableSort(list))| == |multiset(list)|;
  }

  method SortRange(a: array<Matcher>, lo: nat, hi: nat)
    requires lo <= hi <= a.Length
    modifies a
    ensures a[..] == old(a[..lo]) + StableSort(old(a[lo..hi])) + old(a[hi..])
  {
    var r := StableSort(a[lo..hi]);
    SortSize(a[lo..hi]);
    hide StableSort;
    forall i | lo <= i < hi {
      a[i] := r[i - lo];
    }
  }

  method PartitionTable(a: array<Matcher>, names: set<string>, listed: bool) returns (mid: nat)
    modifies a
    ensures a[..] == Partition(old(a[..]), names, listed).0 && mid == Partition(old(a[..]), names, listed).1 <= a.Length
  {
    var (r, m) := Partition(a[..], names, listed);
    KeepSize(a[..], names);
    forall i | 0 <= i < a.Length {
      a[i] := r[i];
    }
    mid := m;
  }

  method ArmTable(list: array<Matcher>)
    modifies list
    ensures list[..] == StableSort(old(list[..]))
  {
    assert list[0..list.Length] == list[..];
    SortRange(list, 0, list.Length);
  }

  /** What the two partitions leave. */
  lemma TwoPartitions(s: seq<Matcher>, first: set<string>, last: set<string>)
    ensures var f, rest := Keep(s, first, true), Keep(s, first, false);
            && Partition(Partition(s, first, true).0, last, false).0
               == Keep(f, last, false) + Keep(rest, last, false) + (Keep(f, last, true) + Keep(rest, last, true))
            && Partition(Partition(s, first, true).0, last, false).1
               == |Keep(f, last, false)| + |Keep(rest, last, false)|
  {
    hide Keep;
    KeepJoin(Keep(s, first, true), Keep(s, first, false), last, false);
    KeepJoin(Keep(s, first, true), Keep(s, first, false), last, true);
  }

  /** The table after the two partitions and the sort between them. */
  function AsimdOrder(s: seq<Matcher>, first: set<string>, last: set<string>): seq<Matcher> {
    var (s1, sortBegin) := Partition(s, first, true);
    var (s2, sortEnd) := Partition(s1, last, false);
    if sortBegin <= sortEnd then s2[..sortBegin] + StableSort(s2[sortBegin..sortEnd]) + s2[sortEnd..] else s2
  }

  /** The listed first ones, the others sorted, the listed last ones. */
  function Arranged(s: seq<Matcher>, first: set<string>, last: set<string>): seq<Matcher> {
    Keep(s, first, true) + StableSort(Keep(Keep(s, first, false), last, false)) + Keep(s, last, true)
  }

  lemma ArrangedApart(s: seq<Matcher>, first: set<string>, last: set<string>)
    requires Apart(s, first, last)
    ensures var f := Keep(s, first, true);
            && Keep(f, last, false) == f && Keep(f, last, true) == []
            && Keep(Keep(s, first, false), last, true) == Keep(s, last, true)
  {
    var f := Keep(s, first, true);
    forall k | 0 <= k < |f|
      ensures f[k].name !in last
    {
      KeepHas(s, first, true, k);
    }
    hide Keep;
    KeepAll(f, last, false);
    KeepTwice(s, first, last);
  }

  lemma ArrangedIsLonger(s: seq<Matcher>, first: set<string>, last: set<string>)
    requires !Apart(s, first, last)
    ensures |Arranged(s, first, last)| > |s|
  {
    var rest := Keep(s, first, false);
    KeepSize(s, first);
    KeepSize(rest, last);
    KeepTwice(s, first, last);
    SortSize(Keep(rest, last, false));
    hide Keep, StableSort;
  }

  lemma PartitionKeeps(s: seq<Matcher>, names: set<string>, listed: bool)
    ensures multiset(Partition(s, names, listed).0) == multiset(s)
  {
    KeepSize(s, names);
    var a, b := Keep(s, names, true), Keep(s, names, false);
    hide Keep;
    assert multiset(a + b) == multiset(b + a);
  }

  lemma SortPartKeeps(s: seq<Matcher>, lo: nat, hi: nat)
    requires lo <= hi <= |s|
    ensures multiset(s[..lo] + StableSort(s[lo..hi]) + s[hi..]) == multiset(s)
  {
    hide StableSort, Sorted, Select;
    SortIsStable(s[lo..hi]);
    assert s == s[..lo] + s[lo..hi] + s[hi..];
    SamePartsSum(s[..lo], StableSort(s[lo..hi]), s[lo..hi], s[hi..]);
  }

  lemma SamePartsSum(a: seq<Matcher>, b: seq<Matcher>, c: seq<Matcher>, d: seq<Matcher>)
    requires multiset(b) == multiset(c)
    ensures multiset(a + b + d) == multiset(a + c + d)
  {
  }

  lemma AsimdOrderKeeps(s: seq<Matcher>, first: set<string>, last: set<string>)
    ensures multiset(AsimdOrder(s, first, last)) == multiset(s)
  {
    PartitionKeeps(s, first, true);
    var (s1, lo) := Partition(s, first, true);
    PartitionKeeps(s1, last, false);
    var (s2, hi) := Partition(s1, last, false);
    assert hi <= |s2|;
    hide Partition, StableSort;
    if lo <= hi {
      SortPartKeeps(s2, lo, hi);
    }
  }

  /** The table is a permutation, and arranged exactly if no matcher is listed both as first and as last. */
  lemma AsimdOrderIsArranged(s: seq<Matcher>, first: set<string>, last: set<string>)
    ensures multiset(AsimdOrder(s, first, last)) == multiset(s)
    ensures AsimdOrder(s, first, last) == Arranged(s, first, last) <==> Apart(s, first, last)
  {
    AsimdOrderKeeps(s, first, last);
    assert |multiset(AsimdOrder(s, first, last))| == |multiset(s)|;
    if Apart(s, first, last) {
      TwoPartitions(s, first, last);
      ArrangedApart(s, first, last);
      var f, middle, l := Keep(s, first, true), Keep(Keep(s, first, false), last, false), Keep(s, last, true);
      hide Keep, StableSort;
      var s2 := f + middle + ([] + l);
      assert s2[..|f|] == f && s2[|f|..|f| + |middle|] == middle && s2[|f| + |middle|..] == l;
    } else {
      ArrangedIsLonger(s, first, last);
    }
  }

  /** If more matchers are listed as both than as neither, the second partition ends before the first one and
      there is no range to sort. */
  lemma RangeIsReversed(s: seq<Matcher>, first: set<string>, last: set<string>)
    ensures Partition(s, first, true).1 > Partition(Partition(s, first, true).0, last, false).1
       <==> |Keep(Keep(s, first, true), last, true)| > |Keep(Keep(s, first, false), last, false)|
  {
    TwoPartitions(s, first, last);
    KeepSize(Keep(s, first, true), last);
  }

  method AsimdTable(table: array<Matcher>, first: set<string>, last: set<string>) returns (reversed: bool)
    modifies table
    ensures var s := old(table[..]);
            reversed <==> |Keep(Keep(s, first, true), last, true)| > |Keep(Keep(s, first, false), last, false)|
    ensures table[..] == AsimdOrder(old(table[..]), first, last)
    ensures table[..] == Arranged(old(table[..]), first, last) <==> Apart(old(table[..]), first, last)
  {
    RangeIsReversed(table[..], first, last);
    AsimdOrderIsArranged(table[..], first, last);
    hide Arranged, Keep, StableSort, Apart, Partition;
    var sortBegin := PartitionTable(table, first, true);
    var sortEnd := PartitionTable(table, last, false);
    reversed := sortBegin > sortEnd;
    if !reversed {
      SortRange(table, sortBegin, sortEnd);
    }
  }

  /** The exceptions first; both parts sorted. */
  method A64Table(list: array<Matcher>, exceptions: set<string>)
    modifies list
    ensures var s := old(list[..]);
            list[..] == StableSort(Keep(s, exceptions, true)) + StableSort(Keep(s, exceptions, false))
  {
    KeepSorts(list[..], exceptions, true);
    KeepSorts(list[..], exceptions, false);
    ArmTable(list);
    var mid := PartitionTable(list, exceptions, true);
  }
}
