/** Which registers carry the arguments of a supervisor call (tools/svc_generator.py): the calling
    convention's registers in order, with two-register values on even registers, and the first free
    registers once the convention has none left. */
module SvcLayout {
  import opened Wrappers
  import opened Links

  datatype Abi = Abi(numRegs: nat, byteSize: nat, parameterCount: nat)

  const ABI32 := Abi(8, 4, 4)
  const ABI64 := Abi(8, 8, 8)

  predicate AbiOk(abi: Abi) {
    abi.byteSize > 0 && abi.parameterCount <= abi.numRegs
  }

  /** An output is written to registers after the call and is no input; an output through a pointer of the
      caller is an input here. */
  datatype Argument = Argument(size: nat, output: bool)

  // ---------- registers needed ----------

  /** How many registers a value takes. */
  function Need(abi: Abi, size: nat): (n: nat)
    requires AbiOk(abi)
    ensures n >= 1
    decreases size
  {
    if size <= abi.byteSize then 1 else 1 + Need(abi, size - abi.byteSize)
  }

  lemma {:induction false} NeedIsCeiling(abi: Abi, size: nat)
    requires AbiOk(abi) && size > 0
    ensures (Need(abi, size) - 1) * abi.byteSize < size <= Need(abi, size) * abi.byteSize
    decreases size
  {
    if size > abi.byteSize {
      NeedIsCeiling(abi, size - abi.byteSize);
      var n := Need(abi, size - abi.byteSize);
      assert (n + 1) * abi.byteSize == n * abi.byteSize + abi.byteSize;
      assert (n - 1) * abi.byteSize == n * abi.byteSize - abi.byteSize;
    }
  }

  function Demand(abi: Abi, sizes: seq<nat>): nat
    requires AbiOk(abi)
  {
    if sizes == [] then 0 else Need(abi, sizes[0]) + Demand(abi, sizes[1..])
  }

  // ---------- one value ----------

  function FirstFree(used: set<nat>, i: nat, n: nat): (r: Option<nat>)
    ensures r.Some? ==> i <= r.value < n && r.value !in used && forall j :: i <= j < r.value ==> j in used
    ensures r.None? ==> forall j :: i <= j < n ==> j in used
    decreases n - i
  {
    if i >= n then None else if i in used then FirstFree(used, i + 1, n) else Some(i)
  }

  /** One register at position `pos` of the convention, or anywhere beyond it; none if the register is
      taken. */
  function Place(abi: Abi, used: set<nat>, pos: nat): Option<nat> {
    if pos >= abi.parameterCount then FirstFree(used, 0, abi.numRegs) else if pos in used then None else Some(pos)
  }

  function Advance(abi: Abi, pos: nat): nat {
    if pos >= abi.parameterCount then pos else pos + 1
  }

  /** Some registers, and then what is taken after them. */
  function Continue(regs: seq<nat>, t: Option<(seq<nat>, nat)>): Option<(seq<nat>, nat)> {
    if t.None? then None else Some((regs + t.value.0, t.value.1))
  }

  /** `n` registers from position `pos` on, and the position after them. */
  function Take(abi: Abi, used: set<nat>, pos: nat, n: nat): Option<(seq<nat>, nat)>
    decreases n
  {
    if n == 0 then Some(([], pos))
    else match Place(abi, used, pos)
      case None => None
      case Some(r) => Continue([r], Take(abi, used + {r}, Advance(abi, pos), n - 1))
  }

  function AddRegs(abi: Abi, used: set<nat>, pos: nat, size: nat, align: bool): Option<(seq<nat>, nat)>
    requires AbiOk(abi)
  {
    var start := if size > abi.byteSize && align then pos + pos % 2 else pos;
    Take(abi, used, start, Need(abi, size))
  }

  // ---------- all values ----------

  function InputSizes(args: seq<Argument>): seq<nat> {
    if args == [] then [] else if args[0].output then InputSizes(args[1..]) else [args[0].size] + InputSizes(args[1..])
  }

  function OutputSizes(args: seq<Argument>): seq<nat> {
    if args == [] then []
    else if args[0].output then [args[0].size] + OutputSizes(args[1..])
    else OutputSizes(args[1..])
  }

  function InputLayout(abi: Abi, used: set<nat>, pos: nat, args: seq<Argument>): Option<seq<seq<nat>>>
    requires AbiOk(abi)
    decreases |args|
  {
    if args == [] then Some([])
    else if args[0].output then InputLayout(abi, used, pos + 1, args[1..])
    else match AddRegs(abi, used, pos, args[0].size, true)
      case None => None
      case Some((regs, end)) =>
        match InputLayout(abi, used + Set(regs), end, args[1..])
        case None => None
        case Some(rest) => Some([regs] + rest)
  }

  function OutputLayout(abi: Abi, used: set<nat>, pos: nat, sizes: seq<nat>): Option<seq<seq<nat>>>
    requires AbiOk(abi)
    decreases |sizes|
  {
    if sizes == [] then Some([])
    else match AddRegs(abi, used, pos, sizes[0], false)
      case None => None
      case Some((regs, end)) =>
        match OutputLayout(abi, used + Set(regs), end, sizes[1..])
        case None => None
        case Some(rest) => Some([regs] + rest)
  }

  function Set(regs: seq<nat>): set<nat> {
    set r | r in regs
  }

  function Flat(layout: seq<seq<nat>>): seq<nat> {
    if layout == [] then [] else layout[0] + Flat(layout[1..])
  }

  // ---------- correctness ----------

  /** While the convention has registers left, the taken ones are all before the position. */
  ghost predicate Placed(abi: Abi, used: set<nat>, pos: nat) {
    forall r :: r in used ==> r < abi.numRegs && (pos < abi.parameterCount ==> r < pos)
  }

  /** Registers that are free, distinct and exist. */
  ghost predicate Fresh(abi: Abi, used: set<nat>, regs: seq<nat>) {
    Distinct(regs) && forall k :: 0 <= k < |regs| ==> regs[k] < abi.numRegs && regs[k] !in used
  }

  lemma {:induction false} CountBelow(used: set<nat>, n: nat)
    requires forall r :: r in used ==> r < n
    ensures |used| <= n
    ensures |used| == n <==> forall r :: 0 <= r < n ==> r in used
  {
    if n > 0 {
      CountBelow(used - {n - 1}, n - 1);
    }
  }

  lemma OneMore(used: set<nat>, r: nat)
    requires r !in used
    ensures |used + {r}| == |used| + 1
  {
    assert used * {r} == {};
  }

  /** A register is found exactly if one is free: the registers of the convention are never taken out of
      turn. */
  lemma PlaceFinds(abi: Abi, used: set<nat>, pos: nat)
    requires AbiOk(abi) && Placed(abi, used, pos)
    ensures Place(abi, used, pos).Some? <==> |used| < abi.numRegs
    ensures pos < abi.parameterCount ==> Place(abi, used, pos) == Some(pos)
    ensures var p := Place(abi, used, pos);
            p.Some? ==> p.value < abi.numRegs && p.value !in used && Placed(abi, used + {p.value}, Advance(abi, pos))
  {
    CountBelow(used, abi.numRegs);
    if pos < abi.parameterCount {
      CountBelow(used, pos);
    }
  }

  /** What taking `n` registers leaves. */
  ghost predicate Taken(abi: Abi, used: set<nat>, n: nat, regs: seq<nat>, end: nat) {
    && |regs| == n && Fresh(abi, used, regs)
    && Placed(abi, used + Set(regs), end) && |used + Set(regs)| == |used| + n
  }

  lemma FreshJoin(abi: Abi, used: set<nat>, a: seq<nat>, b: seq<nat>)
    requires Fresh(abi, used, a) && Fresh(abi, used + Set(a), b)
    ensures Fresh(abi, used, a + b) && used + Set(a + b) == used + Set(a) + Set(b)
  {
    assert forall k :: 0 <= k < |a| ==> a[k] in Set(a);
  }

  lemma SetOfOne(abi: Abi, used: set<nat>, r: nat)
    requires r < abi.numRegs && r !in used
    ensures Set([r]) == {r} && Fresh(abi, used, [r])
  {
  }

  lemma TakenMore(abi: Abi, used: set<nat>, r: nat, n: nat, regs: seq<nat>, end: nat)
    requires r < abi.numRegs && r !in used && Taken(abi, used + {r}, n, regs, end)
    ensures Taken(abi, used, n + 1, [r] + regs, end)
  {
    hide Placed, Fresh, Set;
    SetOfOne(abi, used, r);
    FreshJoin(abi, used, [r], regs);
    OneMore(used, r);
  }

  lemma {:induction false} TakeFinds(abi: Abi, used: set<nat>, pos: nat, n: nat)
    requires AbiOk(abi) && Placed(abi, used, pos)
    ensures Take(abi, used, pos, n).Some? <==> n == 0 || |used| + n <= abi.numRegs
    ensures var t := Take(abi, used, pos, n); t.Some? ==> Taken(abi, used, n, t.value.0, t.value.1)
    decreases n
  {
    if n == 0 {
      assert used + Set([]) == used;
    } else {
      PlaceFinds(abi, used, pos);
      var p := Place(abi, used, pos);
      if p.Some? {
        var t := Take(abi, used + {p.value}, Advance(abi, pos), n - 1);
        assert Take(abi, used, pos, n) == Continue([p.value], t);
        hide Place, Placed, Advance, Taken, Take;
        OneMore(used, p.value);
        TakeFinds(abi, used + {p.value}, Advance(abi, pos), n - 1);
        if t.Some? {
          TakenMore(abi, used, p.value, n - 1, t.value.0, t.value.1);
        }
      }
    }
  }

  lemma PlacedLater(abi: Abi, used: set<nat>, pos: nat, start: nat)
    requires Placed(abi, used, pos) && pos <= start
    ensures Placed(abi, used, start)
  {
  }

  lemma AddFinds(abi: Abi, used: set<nat>, pos: nat, size: nat, align: bool)
    requires AbiOk(abi) && Placed(abi, used, pos)
    ensures AddRegs(abi, used, pos, size, align).Some? <==> |used| + Need(abi, size) <= abi.numRegs
    ensures var t := AddRegs(abi, used, pos, size, align);
            t.Some? ==> Taken(abi, used, Need(abi, size), t.value.0, t.value.1)
  {
    var start := if size > abi.byteSize && align then pos + pos % 2 else pos;
    hide Take, Placed, Taken;
    PlacedLater(abi, used, pos, start);
    TakeFinds(abi, used, start, Need(abi, size));
    hide Need;
  }

  lemma TakeOne(abi: Abi, used: set<nat>, pos: nat)
    requires pos < abi.parameterCount && pos !in used
    ensures Take(abi, used, pos, 1) == Some(([pos], pos + 1))
  {
    assert Take(abi, used + {pos}, pos + 1, 0) == Some(([], pos + 1));
    assert [pos] + [] == [pos];
  }

  lemma TakeTwo(abi: Abi, used: set<nat>, pos: nat)
    requires pos + 1 < abi.parameterCount && pos !in used && pos + 1 !in used
    ensures Take(abi, used, pos, 2) == Some(([pos, pos + 1], pos + 2))
  {
    TakeOne(abi, used + {pos}, pos + 1);
    assert [pos] + [pos + 1] == [pos, pos + 1];
  }

  /** A two-register input that still finds a place in the convention gets an even register and the next. */
  lemma PairIsAligned(abi: Abi, used: set<nat>, pos: nat, size: nat)
    requires AbiOk(abi) && Placed(abi, used, pos) && abi.parameterCount % 2 == 0
    requires abi.byteSize < size <= 2 * abi.byteSize && pos + pos % 2 < abi.parameterCount
    ensures var e := pos + pos % 2; e % 2 == 0 && AddRegs(abi, used, pos, size, true) == Some(([e, e + 1], e + 2))
  {
    var e := pos + pos % 2;
    assert Need(abi, size) == 2;
    TakeTwo(abi, used, e);
  }

  /** The layout of some values: registers for each, none twice, and none taken before. */
  ghost predicate Laid(abi: Abi, used: set<nat>, sizes: seq<nat>, layout: seq<seq<nat>>)
    requires AbiOk(abi)
  {
    && |layout| == |sizes| && (forall i :: 0 <= i < |sizes| ==> |layout[i]| == Need(abi, sizes[i]))
    && Fresh(abi, used, Flat(layout))
  }

  lemma LaidJoin(abi: Abi, used: set<nat>, size: nat, regs: seq<nat>, end: nat, sizes: seq<nat>, rest: seq<seq<nat>>)
    requires AbiOk(abi) && Taken(abi, used, Need(abi, size), regs, end) && Laid(abi, used + Set(regs), sizes, rest)
    ensures Laid(abi, used, [size] + sizes, [regs] + rest)
  {
    hide Fresh, Placed, Set, Need;
    FreshJoin(abi, used, regs, Flat(rest));
    assert ([regs] + rest)[1..] == rest;
  }

  lemma InputNext(abi: Abi, args: seq<Argument>)
    requires AbiOk(abi) && args != [] && !args[0].output
    ensures InputSizes(args) == [args[0].size] + InputSizes(args[1..])
    ensures Demand(abi, InputSizes(args)) == Need(abi, args[0].size) + Demand(abi, InputSizes(args[1..]))
  {
    assert InputSizes(args)[1..] == InputSizes(args[1..]);
  }

  /** The inputs find registers exactly if they need no more than there are. */
  lemma {:induction false} InputsFit(abi: Abi, used: set<nat>, pos: nat, args: seq<Argument>)
    requires AbiOk(abi) && Placed(abi, used, pos) && |used| <= abi.numRegs
    ensures InputLayout(abi, used, pos, args).Some? <==> |used| + Demand(abi, InputSizes(args)) <= abi.numRegs
    ensures var l := InputLayout(abi, used, pos, args); l.Some? ==> Laid(abi, used, InputSizes(args), l.value)
    decreases |args|
  {
    if args == [] {
      assert Laid(abi, used, [], []);
    } else {
      hide Need, AddRegs, Take, Laid, Fresh, Flat;
      if args[0].output {
        InputsFit(abi, used, pos + 1, args[1..]);
      } else {
        AddFinds(abi, used, pos, args[0].size, true);
        InputNext(abi, args);
        hide InputSizes, Demand;
        var t := AddRegs(abi, used, pos, args[0].size, true);
        if t.Some? {
          var with := used + Set(t.value.0);
          hide Set;
          InputsFit(abi, with, t.value.1, args[1..]);
          var l := InputLayout(abi, with, t.value.1, args[1..]);
          if l.Some? {
            LaidJoin(abi, used, args[0].size, t.value.0, t.value.1, InputSizes(args[1..]), l.value);
          }
        }
      }
    }
  }

  lemma {:induction false} OutputsFit(abi: Abi, used: set<nat>, pos: nat, sizes: seq<nat>)
    requires AbiOk(abi) && Placed(abi, used, pos) && |used| <= abi.numRegs
    ensures OutputLayout(abi, used, pos, sizes).Some? <==> |used| + Demand(abi, sizes) <= abi.numRegs
    ensures var l := OutputLayout(abi, used, pos, sizes); l.Some? ==> Laid(abi, used, sizes, l.value)
    decreases |sizes|
  {
    if sizes != [] {
      AddFinds(abi, used, pos, sizes[0], false);
      assert sizes == [sizes[0]] + sizes[1..];
      var t := AddRegs(abi, used, pos, sizes[0], false);
      if t.Some? {
        var with := used + Set(t.value.0);
        hide Set;
        OutputsFit(abi, with, t.value.1, sizes[1..]);
        var l := OutputLayout(abi, with, t.value.1, sizes[1..]);
        if l.Some? {
          LaidJoin(abi, used, sizes[0], t.value.0, t.value.1, sizes[1..], l.value);
        }
      }
    }
  }
}
