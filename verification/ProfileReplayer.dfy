/** The replay loop of MicroProfileFlip (externals/microprofile/microprofile.h) with what it stores: a stack of
    places in the ring, and 64-bit and 32-bit counters that wrap around. */
module ProfileReplayer {
  import opened Wrappers
  import opened ProfileLog
  import opened ProfileReplay
  import opened ProfileFrames
  import opened ProfileRing
  import opened ProfileVisits

  const WORD := 0x1_0000_0000_0000_0000

  /** A number as it is kept in a 64-bit counter. */
  function W(x: int): int {
    x % WORD
  }

  lemma SameWord(x: int, y: int, k: int)
    requires x == y + WORD * k
    ensures W(x) == W(y)
  {
    assert x == WORD * (y / WORD + k) + y % WORD;
  }

  lemma WrapAdd(a: int, b: int)
    ensures W(W(a) + b) == W(a + b) && W(a + W(b)) == W(a + b) && W(a - W(b)) == W(a - b)
  {
    SameWord(a + b, W(a) + b, a / WORD);
    SameWord(a + b, a + W(b), b / WORD);
    SameWord(a - b, a - W(b), -(b / WORD));
  }

  ghost predicate Wrapped(cells: seq<int>, values: seq<int>) {
    |cells| == |values| && forall k :: 0 <= k < |cells| ==> cells[k] == W(values[k])
  }

  lemma WrappedUpdate(cells: seq<int>, values: seq<int>, t: nat, d: int)
    requires Wrapped(cells, values) && t < |cells|
    ensures Wrapped(cells[t := W(cells[t] + d)], values[t := values[t] + d])
  {
    WrapAdd(values[t], d);
  }

  lemma {:induction false} WrappedSum(cells: seq<int>, values: seq<int>)
    requires Wrapped(cells, values)
    ensures W(Sum(cells)) == W(Sum(values))
  {
    if cells != [] {
      WrappedSum(cells[1..], values[1..]);
      WrapAdd(cells[0], Sum(cells[1..]));
      WrapAdd(cells[0], Sum(values[1..]));
      WrapAdd(values[0], Sum(values[1..]));
    }
  }

  lemma WrappedDifference(a: seq<int>, b: seq<int>, c: seq<int>, d: seq<int>, x: int)
    requires Wrapped(a, b) && Wrapped(c, d) && Sum(b) == Sum(d) + x
    ensures W(Sum(a) - Sum(c)) == W(x)
  {
    hide W, Sum, Wrapped;
    WrappedSum(a, b);
    WrappedSum(c, d);
    WrapDifference(Sum(a), Sum(b), Sum(c), Sum(d));
  }

  lemma WrapDifference(a: int, b: int, c: int, d: int)
    requires W(a) == W(b) && W(c) == W(d)
    ensures W(a - c) == W(b - d)
  {
    SameWord(a - c, b - d, a / WORD - b / WORD - (c / WORD - d / WORD));
  }

  /** A number of calls as it is kept in 32 bits. */
  function C(x: int): int {
    x % 0x1_0000_0000
  }

  ghost predicate Counted32(cells: seq<int>, values: seq<int>) {
    |cells| == |values| && forall k :: 0 <= k < |cells| ==> cells[k] == C(values[k])
  }

  lemma CountOne(cells: seq<int>, values: seq<int>, t: nat)
    requires Counted32(cells, values) && t < |cells|
    ensures Counted32(cells[t := C(cells[t] + 1)], values[t := values[t] + 1])
  {
  }

  // ---------- what is stored ----------

  /** The places of the open entries, and their child counters. */
  ghost predicate StackAgrees(pos: nat, stack: seq<nat>, child: seq<int>, w: Walk) {
    && |stack| == |child| == STACK_MAX && pos == |w.open| == |w.s.stack| < STACK_MAX
    && (forall k :: 0 <= k < pos ==> stack[k] == Slot(w.open[k]))
    && Wrapped(child[..pos + 1], w.s.child)
  }

  ghost predicate TimersAgree(ticks: seq<int>, exclusive: seq<int>, counts: seq<int>, s: State) {
    Wrapped(ticks, s.ticks) && Wrapped(exclusive, s.exclusive) && Counted32(counts, s.counts)
  }

  ghost predicate GroupsAgree(groupPos: seq<int>, groupTicks: seq<int>, s: State) {
    groupPos == s.groupPos && Wrapped(groupTicks, s.groupTicks)
  }

  lemma EnterStack(groups: seq<nat>, pos: nat, stack: seq<nat>, child: seq<int>, w: Walk, e: Entry, q: nat)
    requires StateOk(groups, w.s) && StackAgrees(pos, stack, child, w)
    requires e.Enter? && EntryOk(groups, e) && pos + 1 < STACK_MAX
    ensures StackAgrees(pos + 1, stack[pos := Slot(q)], child[pos + 1 := 0], Walk(Push(groups, w.s, e), w.open + [q]))
  {
    assert child[pos + 1 := 0][..pos + 2] == child[..pos + 1] + [0];
  }

  lemma LeaveStack(groups: seq<nat>, pos: nat, stack: seq<nat>, child: seq<int>, w: Walk, e: Entry, ticks: int)
    requires StateOk(groups, w.s) && StackAgrees(pos, stack, child, w)
    requires e.Leave? && EntryOk(groups, e) && pos > 0
    ensures |stack| == |child| == STACK_MAX && pos < STACK_MAX && stack[pos - 1] == Slot(w.open[pos - 1])
    ensures W(ticks - child[pos]) == W(ticks - w.s.child[pos])
    ensures StackAgrees(pos - 1, stack, child[pos - 1 := W(child[pos - 1] + ticks)],
                        Walk(Close(groups, w.s, e, ticks), w.open[..pos - 1]))
  {
    var cells := child[pos - 1 := W(child[pos - 1] + ticks)];
    assert child[..pos + 1][pos] == child[pos] && child[..pos + 1][pos - 1] == child[pos - 1];
    WrapAdd(w.s.child[pos - 1], ticks);
    WrapAdd(ticks, w.s.child[pos]);
    assert cells[..pos] == child[..pos + 1][..pos - 1] + [W(w.s.child[pos - 1] + ticks)];
  }

  lemma LeaveTimers(groups: seq<nat>, ticks: seq<int>, exclusive: seq<int>, counts: seq<int>, s: State, e: Entry,
                    d: int, own: int)
    requires StateOk(groups, s) && s.stack != [] && e.Leave? && EntryOk(groups, e)
    requires TimersAgree(ticks, exclusive, counts, s) && W(own) == W(d - s.child[|s.stack|])
    ensures e.timer < |ticks| == |exclusive| == |counts|
    ensures var t := e.timer;
            TimersAgree(ticks[t := W(ticks[t] + d)], exclusive[t := W(exclusive[t] + W(own))],
                        counts[t := C(counts[t] + 1)], Close(groups, s, e, d))
  {
    var t := e.timer;
    hide W, C;
    WrappedUpdate(ticks, s.ticks, t, d);
    WrappedUpdate(exclusive, s.exclusive, t, d - s.child[|s.stack|]);
    WrapAdd(exclusive[t], d - s.child[|s.stack|]);
    CountOne(counts, s.counts, t);
  }

  lemma LeaveGroups(groups: seq<nat>, groupPos: seq<int>, groupTicks: seq<int>, s: State, e: Entry, d: int)
    requires StateOk(groups, s) && s.stack != [] && e.Leave? && EntryOk(groups, e)
    requires GroupsAgree(groupPos, groupTicks, s)
    ensures groups[e.timer] < |groupPos| == |groupTicks| && groupPos[groups[e.timer]] >= 0
    ensures var g := groups[e.timer];
            GroupsAgree(if groupPos[g] > 0 then groupPos[g := groupPos[g] - 1] else groupPos,
                        if groupPos[g] == 1 then groupTicks[g := W(groupTicks[g] + d)] else groupTicks,
                        Close(groups, s, e, d))
  {
    hide W;
    WrappedUpdate(groupTicks, s.groupTicks, groups[e.timer], d);
  }

  /** All that a replay stores. */
  datatype Cells = Cells(pos: nat, stack: seq<nat>, child: seq<int>, ticks: seq<int>, exclusive: seq<int>,
                         counts: seq<int>, groupPos: seq<int>, groupTicks: seq<int>)

  /** Every counter is the true total in its word, and the stack has the places of the open entries. */
  ghost predicate Agrees(groups: seq<nat>, c: Cells, w: Walk) {
    && StateOk(groups, w.s) && StackAgrees(c.pos, c.stack, c.child, w)
    && TimersAgree(c.ticks, c.exclusive, c.counts, w.s) && GroupsAgree(c.groupPos, c.groupTicks, w.s)
  }

  /** The exclusive counters change by what the child counters of the open spans change, in 64 bits. */
  ghost predicate Conserved(before: Cells, after: Cells) {
    && before.pos < |before.child| && after.pos < |after.child|
    && W(Sum(after.exclusive) - Sum(before.exclusive))
       == W(Sum(after.child[..after.pos + 1]) - Sum(before.child[..before.pos + 1]))
  }

  lemma CountersConserve(groups: seq<nat>, before: Cells, w: Walk, after: Cells, r: Walk)
    requires Agrees(groups, before, w) && Agrees(groups, after, r)
    requires Sum(r.s.exclusive) - Sum(w.s.exclusive) == Sum(r.s.child) - Sum(w.s.child)
    ensures Conserved(before, after)
  {
    hide W, Sum, Wrapped, StateOk, GroupsAgree;
    var x := Sum(r.s.child) - Sum(w.s.child);
    WrappedDifference(after.exclusive, r.s.exclusive, before.exclusive, w.s.exclusive, x);
    WrappedDifference(after.child[..after.pos + 1], r.s.child, before.child[..before.pos + 1], w.s.child, x);
  }

  predicate HasRoom(groups: seq<nat>, c: Cells, e: Entry) {
    && |c.stack| == |c.child| == STACK_MAX && c.pos < STACK_MAX
    && !e.Other? && e.timer < |groups| == |c.ticks| == |c.exclusive| == |c.counts|
    && groups[e.timer] < |c.groupPos| == |c.groupTicks| && c.groupPos[groups[e.timer]] >= 0
  }

  function Entered(groups: seq<nat>, c: Cells, e: Entry, k: nat): Cells
    requires HasRoom(groups, c, e) && c.pos + 1 < STACK_MAX
  {
    var g := groups[e.timer];
    c.(pos := c.pos + 1, stack := c.stack[c.pos := k], child := c.child[c.pos + 1 := 0],
       groupPos := c.groupPos[g := (c.groupPos[g] + 1) % 256])
  }

  function Left(groups: seq<nat>, c: Cells, e: Entry, d: int): Cells
    requires HasRoom(groups, c, e) && c.pos > 0
  {
    var t, g := e.timer, groups[e.timer];
    Cells(c.pos - 1, c.stack, c.child[c.pos - 1 := W(c.child[c.pos - 1] + d)], c.ticks[t := W(c.ticks[t] + d)],
          c.exclusive[t := W(c.exclusive[t] + W(d - c.child[c.pos]))], c.counts[t := C(c.counts[t] + 1)],
          if c.groupPos[g] > 0 then c.groupPos[g := c.groupPos[g] - 1] else c.groupPos,
          if c.groupPos[g] == 1 then c.groupTicks[g := W(c.groupTicks[g] + d)] else c.groupTicks)
  }

  lemma AgreesHasRoom(groups: seq<nat>, c: Cells, w: Walk, e: Entry)
    requires Agrees(groups, c, w) && EntryOk(groups, e) && !e.Other?
    ensures HasRoom(groups, c, e) && c.pos == |w.open| == |w.s.stack| && c.pos <= |c.stack|
    ensures c.pos > 0 ==> c.stack[c.pos - 1] == Slot(w.open[c.pos - 1])
  {
  }

  lemma EnterKeeps(groups: seq<nat>, c: Cells, w: Walk, e: Entry, q: nat)
    requires Agrees(groups, c, w) && EntryOk(groups, e) && e.Enter?
    requires HasRoom(groups, c, e) && c.pos + 1 < STACK_MAX
    ensures Agrees(groups, Entered(groups, c, e, Slot(q)), Walk(Push(groups, w.s, e), w.open + [q]))
  {
    EnterStack(groups, c.pos, c.stack, c.child, w, e, q);
    hide StackAgrees, Wrapped, Slot;
  }

  lemma LeaveKeeps(groups: seq<nat>, c: Cells, w: Walk, e: Entry, d: int)
    requires Agrees(groups, c, w) && EntryOk(groups, e) && e.Leave? && HasRoom(groups, c, e) && c.pos > 0
    ensures w.open != [] && w.s.stack != []
    ensures Agrees(groups, Left(groups, c, e, d), Walk(Close(groups, w.s, e, d), w.open[..|w.open| - 1]))
  {
    AgreesHasRoom(groups, c, w, e);
    CloseIsOk(groups, w.s, e, d);
    hide StateOk, StackAgrees, TimersAgree, GroupsAgree, Close, EntryOk, W, C, Slot;
    LeaveStack(groups, c.pos, c.stack, c.child, w, e, d);
    LeaveTimers(groups, c.ticks, c.exclusive, c.counts, w.s, e, d, d - c.child[c.pos]);
    LeaveGroups(groups, c.groupPos, c.groupTicks, w.s, e, d);
  }

  lemma CloseIsOk(groups: seq<nat>, s: State, e: Entry, ticks: int)
    requires StateOk(groups, s) && s.stack != [] && e.Leave? && EntryOk(groups, e)
    ensures StateOk(groups, Close(groups, s, e, ticks))
  {
  }

  /** The entries that the replay of the entry at `k` reads from the ring. */
  lemma PlacesRead(groups: seq<nat>, log: seq<Entry>, history: seq<Entry>, w: Walk, q: nat)
    requires Holds(log, history) && LogOk(groups, history) && q < |history| && WalkOk(groups, w, q)
    ensures |log| == BUFFER_SIZE && log[Slot(q)] == history[Latest(q, |history|)] && EntryOk(groups, log[Slot(q)])
    ensures w.open != [] ==> var p := w.open[|w.open| - 1];
              log[Slot(p)] == history[Latest(p, |history|)] && EntryOk(groups, log[Slot(p)])
  {
    PlaceHolds(log, history, q);
    if w.open != [] {
      PlaceHolds(log, history, w.open[|w.open| - 1]);
    }
  }

  // ---------- the replay ----------

  class Replayer {
    const groups: seq<nat>
    const log: array<Entry>
    var stackPos: nat
    var stack: seq<nat>
    var child: seq<int>
    var ticks: seq<int>
    var exclusive: seq<int>
    var counts: seq<int>
    var groupPos: seq<int>
    var groupTicks: seq<int>
    /** Set where a child counter past the array would be written; nothing is promised from there on. */
    var outside: bool
    /** The same accounts in unbounded numbers, and the open entries by number. */
    ghost var w: Walk

    constructor (groups: seq<nat>, log: array<Entry>, groupCount: nat)
      requires forall t :: 0 <= t < |groups| ==> groups[t] < groupCount
      ensures Valid() && !outside && this.groups == groups && this.log == log
      ensures w == Walk(Start(|groups|, groupCount), [])
    {
      this.groups, this.log, outside := groups, log, false;
      stackPos, stack, child := 0, seq(STACK_MAX, _ => 0), seq(STACK_MAX, _ => 0);
      ticks, exclusive, counts := Zeros(|groups|), Zeros(|groups|), Zeros(|groups|);
      groupPos, groupTicks := Zeros(groupCount), Zeros(groupCount);
      w := Walk(Start(|groups|, groupCount), []);
    }

    function All(): Cells
      reads this
    {
      Cells(stackPos, stack, child, ticks, exclusive, counts, groupPos, groupTicks)
    }

    ghost predicate Valid()
      reads this
    {
      !outside ==> Agrees(groups, All(), w)
    }

    /** A flip begins with no times and no calls; the open spans and the group counters stay. */
    method ClearFrame()
      requires Valid() && !outside
      modifies `ticks, `exclusive, `counts, `w
      ensures Valid() && !outside && w == Walk(Clear(old(w).s), old(w).open)
    {
      ghost var c := All();
      var i := 0;
      while i < |groups|
        invariant 0 <= i <= |groups| == |ticks| == |exclusive| == |counts|
        invariant forall t :: 0 <= t < i ==> ticks[t] == 0 && exclusive[t] == 0 && counts[t] == 0
        invariant w == old(w)
      {
        ticks, exclusive, counts := ticks[i := 0], exclusive[i := 0], counts[i := 0];
        i := i + 1;
      }
      w := Walk(Clear(w.s), w.open);
    }

    method EnterTimer(k: nat, ghost q: nat)
      requires Valid() && !outside && k < log.Length && log[k].Enter? && EntryOk(groups, log[k]) && k == Slot(q)
      modifies this
      ensures Valid() && (outside <==> |old(w).open| + 1 == STACK_MAX)
      ensures !outside ==>
        |old(w).open| == |old(w).s.stack| && w == Walk(Push(groups, old(w).s, log[k]), old(w).open + [q])
    {
      ghost var c, e := All(), log[k];
      AgreesHasRoom(groups, c, w, e);
      if stackPos + 1 == STACK_MAX {
        outside := true;
        return;
      }
      assert StateOk(groups, w.s);
      hide Agrees, StateOk, Push, Slot;
      EnterKeeps(groups, c, w, e, q);
      var g := groups[log[k].timer];
      groupPos := groupPos[g := (groupPos[g] + 1) % 256];
      stack := stack[stackPos := k];
      stackPos := stackPos + 1;
      child := child[stackPos := 0];
      w := Walk(Push(groups, w.s, log[k]), w.open + [q]);
      assert All() == Entered(groups, c, e, k);
    }

    /** A closed span is time of its group only if no enclosing span of the group is still open. */
    method CountGroup(g: nat, nTicks: int)
      requires g < |groupPos| == |groupTicks| && groupPos[g] >= 0
      modifies `groupPos, `groupTicks
      ensures groupPos == old(if groupPos[g] > 0 then groupPos[g := groupPos[g] - 1] else groupPos)
      ensures groupTicks == old(if groupPos[g] == 1 then groupTicks[g := W(groupTicks[g] + nTicks)] else groupTicks)
    {
      var pos := groupPos[g];
      if pos > 0 {
        pos := pos - 1;
        if pos == 0 {
          groupTicks := groupTicks[g := W(groupTicks[g] + nTicks)];
        }
        groupPos := groupPos[g := pos];
      }
    }

    method CountTimer(t: nat, nTicks: int, own: int)
      requires t < |ticks| == |exclusive| == |counts|
      modifies `ticks, `exclusive, `counts
      ensures ticks == old(ticks[t := W(ticks[t] + nTicks)])
      ensures exclusive == old(exclusive[t := W(exclusive[t] + W(own))])
      ensures counts == old(counts[t := C(counts[t] + 1)])
    {
      ticks := ticks[t := W(ticks[t] + nTicks)];
      exclusive := exclusive[t := W(exclusive[t] + W(own))];
      counts := counts[t := C(counts[t] + 1)];
    }

    /** The counters after a span of `nTicks` has been left. */
    method CountSpan(e: Entry, nTicks: int)
      requires HasRoom(groups, All(), e) && stackPos > 0
      modifies `stackPos, `child, `ticks, `exclusive, `counts, `groupPos, `groupTicks
      ensures All() == Left(groups, old(All()), e, nTicks)
    {
      hide W, C;
      var nChildTicks := CountChild(nTicks);
      CountTimer(e.timer, nTicks, nTicks - nChildTicks);
      CountGroup(groups[e.timer], nTicks);
    }

    /** The time is a child's time of the span below. */
    method CountChild(nTicks: int) returns (nChildTicks: int)
      requires 0 < stackPos < |child|
      modifies `stackPos, `child
      ensures nChildTicks == old(child[stackPos]) && stackPos == old(stackPos) - 1
      ensures child == old(child[stackPos - 1 := W(child[stackPos - 1] + nTicks)])
    {
      nChildTicks := child[stackPos];
      stackPos := stackPos - 1;
      child := child[stackPos := W(child[stackPos] + nTicks)];
    }

    /** The span is timed from what is now at the place where it was opened. */
    method LeaveTimer(k: nat)
      requires Valid() && !outside && k < log.Length == BUFFER_SIZE && log[k].Leave? && EntryOk(groups, log[k])
      requires w.open != [] && EntryOk(groups, log[Slot(w.open[|w.open| - 1])])
      modifies this
      ensures Valid() && !outside && StateOk(groups, old(w).s) && old(w).s.stack != []
      ensures var n, e := |old(w).open| - 1, log[k];
              var ticks := TickDifference(log[Slot(old(w).open[n])].tick, e.tick);
              w == Walk(Close(groups, old(w).s, e, ticks), old(w).open[..n])
    {
      ghost var c, n := All(), |w.open| - 1;
      AgreesHasRoom(groups, c, w, log[k]);
      assert StateOk(groups, w.s);
      hide Agrees, StateOk, Close, TickDifference, Slot, Left, HasRoom;
      var nTicks := TickDifference(log[stack[stackPos - 1]].tick, log[k].tick);
      LeaveKeeps(groups, c, w, log[k], nTicks);
      CountSpan(log[k], nTicks);
      w := Walk(Close(groups, w.s, log[k], nTicks), w.open[..n]);
    }

    /** One entry: what it does is what the replay through the ring does with it. */
    method ReplayEntry(k: nat, ghost history: seq<Entry>, ghost q: nat)
      requires Valid() && !outside && Holds(log[..], history) && LogOk(groups, history) && q < |history|
      requires k < log.Length && k == Slot(q) && WalkOk(groups, w, q)
      modifies this
      ensures Valid()
      ensures var r := VisitStep(groups, history, old(w), q, |history|);
              (outside <==> r.None?) && (!outside ==> w == r.value)
    {
      PlacesRead(groups, log[..], history, w, q);
      hide Holds, LogOk, StateOk, EntryOk, Push, Close, TickDifference, Slot, Latest;
      match log[k]
      case Enter(_, _) => EnterTimer(k, q);
      case Leave(_, _) =>
        if stackPos > 0 {
          LeaveTimer(k);
        }
      case Other(_) =>
    }

    /** One of the two ranges of the ring, which holds the entries from number `from` on. */
    method ReplayRange(start: nat, end: nat, ghost history: seq<Entry>, ghost from: nat)
      requires Valid() && !outside && Holds(log[..], history) && LogOk(groups, history) && WalkOk(groups, w, from)
      requires start <= end <= log.Length && from + (end - start) <= |history|
      requires forall i :: 0 <= i < end - start ==> Nth(start, end, 0, i) == Slot(from + i)
      modifies this
      ensures Valid()
      ensures var r := VisitRange(groups, history, old(w), from, from + (end - start), |history|);
              (outside <==> r.None?) && (!outside ==> w == r.value)
    {
      hide Holds, LogOk, StateOk, Agrees, VisitStep, Slot, WalkOk;
      ghost var w0 := w;
      var k := start;
      while k < end
        invariant start <= k <= end && Valid() && !outside
        invariant WalkOk(groups, w, from + (k - start))
        invariant VisitRange(groups, history, w0, from, from + (k - start), |history|) == Some(w)
      {
        assert Nth(start, end, 0, k - start) == k;
        ReplayEntry(k, history, from + (k - start));
        if outside {
          OutsideStays(groups, history, w0, from, from + (k - start) + 1, from + (end - start), |history|);
          return;
        }
        k := k + 1;
      }
    }

    /** The two ranges of a frame, one after the other. */
    method ReplayRanges(a0: nat, a1: nat, b0: nat, b1: nat, ghost history: seq<Entry>, ghost from: nat, ghost end: nat)
      requires Valid() && !outside && Holds(log[..], history) && LogOk(groups, history) && WalkOk(groups, w, from)
      requires a0 <= a1 <= log.Length && b0 <= b1 <= log.Length && from <= end <= |history|
      requires end < from + BUFFER_SIZE && CoversRing(a0, a1, b0, b1, Slot(from), Slot(end))
      modifies this
      ensures Valid()
      ensures var r := VisitRange(groups, history, old(w), from, end, |history|);
              (outside <==> r.None?) && (!outside ==> w == r.value)
      ensures !outside ==> Conserved(old(All()), All())
    {
      hide Agrees, CoversRing, Slot, Holds, VisitRange, LogOk, WalkOk, Nth, Conserved, Sum;
      ghost var before := All();
      VisitConserves(groups, history, w, from, end, |history|);
      SecondRange(a0, a1, b0, b1, from, end);
      ghost var mid := from + (a1 - a0);
      VisitRangeJoin(groups, history, w, from, mid, end, |history|);
      ReplayRange(a0, a1, history, from);
      if !outside {
        RangeIsOk(groups, history, old(w), from, mid, |history|);
        ReplayRange(b0, b1, history, mid);
        if !outside {
          CountersConserve(groups, before, old(w), All(), w);
        }
      }
    }
  }

  lemma RangeIsOk(groups: seq<nat>, history: seq<Entry>, w: Walk, from: nat, end: nat, count: nat)
    requires LogOk(groups, history) && from <= end <= count <= |history| && WalkOk(groups, w, from)
    ensures var r := VisitRange(groups, history, w, from, end, count); r.Some? ==> WalkOk(groups, r.value, end)
  {
  }

  /** The places of the two ranges. */
  lemma SecondRange(a0: nat, a1: nat, b0: nat, b1: nat, from: nat, end: nat)
    requires from <= end < from + BUFFER_SIZE && CoversRing(a0, a1, b0, b1, Slot(from), Slot(end))
    ensures a1 - a0 + (b1 - b0) == end - from
    ensures forall i :: 0 <= i < a1 - a0 ==> Nth(a0, a1, 0, i) == Slot(from + i)
    ensures forall i :: 0 <= i < b1 - b0 ==> Nth(b0, b1, 0, i) == Slot(from + (a1 - a0) + i)
  {
    WindowSize(from, end);
    forall i | 0 <= i < a1 - a0
      ensures Nth(a0, a1, 0, i) == Slot(from + i)
    {
      assert Nth(a0, a1, b0, i) == Slot(Slot(from) + i);
      SlotStep(from, i);
    }
    forall i | 0 <= i < b1 - b0
      ensures Nth(b0, b1, 0, i) == Slot(from + (a1 - a0) + i)
    {
      assert Nth(a0, a1, b0, a1 - a0 + i) == Slot(Slot(from) + (a1 - a0 + i));
      SlotStep(from, a1 - a0 + i);
    }
  }

  /** Once outside, always outside. */
  lemma {:induction false} OutsideStays(groups: seq<nat>, history: seq<Entry>, w: Walk, from: nat, mid: nat, end: nat,
                                        count: nat)
    requires LogOk(groups, history) && from <= mid <= end <= count <= |history| && WalkOk(groups, w, from)
    requires VisitRange(groups, history, w, from, mid, count).None?
    ensures VisitRange(groups, history, w, from, end, count).None?
    decreases end
  {
    if mid < end {
      OutsideStays(groups, history, w, from, mid, end - 1, count);
    }
  }
}
