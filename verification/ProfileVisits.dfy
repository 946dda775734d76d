/** The replay as it reads the ring (externals/microprofile/microprofile.h): an open entry is remembered by its
    place, and what is at that place is read when the span is left, which may be many frames later. */
module ProfileVisits {
  import opened Wrappers
  import opened ProfileLog
  import opened ProfileReplay
  import opened ProfileSpans
  import opened ProfileFrames
  import opened ProfileRing

  /** The accounts, and the numbers of the open entries; `s.stack` are these entries as they were entered. */
  datatype Walk = Walk(s: State, open: seq<nat>)

  /** A state of the replay before entry number `q`. */
  ghost predicate WalkOk(groups: seq<nat>, w: Walk, q: nat) {
    StateOk(groups, w.s) && |w.open| == |w.s.stack| && forall i :: 0 <= i < |w.open| ==> w.open[i] < q
  }

  /** The replay of entry `q` after `count` entries have been put: every entry it reads, its own and the one
      that opened the span, is the latest one put at that place.  None: a child counter outside the array
      is used, and nothing is known of what follows. */
  ghost function VisitStep(groups: seq<nat>, history: seq<Entry>, w: Walk, q: nat, count: nat): (r: Option<Walk>)
    requires LogOk(groups, history) && q < count <= |history| && WalkOk(groups, w, q)
    ensures r.Some? ==> WalkOk(groups, r.value, q + 1)
  {
    var e := history[Latest(q, count)];
    assert EntryOk(groups, e);
    match e
    case Enter(_, _) =>
      if |w.open| + 1 >= STACK_MAX then None else Some(Walk(Push(groups, w.s, e), w.open + [q]))
    case Leave(_, _) =>
      if w.open == [] then Some(w)
      else
        var n := |w.open| - 1;
        var start := history[Latest(w.open[n], count)];
        assert EntryOk(groups, start);
        Some(Walk(Close(groups, w.s, e, TickDifference(start.tick, e.tick)), w.open[..n]))
    case Other(_) => Some(w)
  }

  /** The entries from..end, all replayed after `count` entries. */
  ghost function VisitRange(groups: seq<nat>, history: seq<Entry>, w: Walk, from: nat, end: nat, count: nat)
    : (r: Option<Walk>)
    requires LogOk(groups, history) && from <= end <= count <= |history| && WalkOk(groups, w, from)
    ensures r.Some? ==> WalkOk(groups, r.value, end)
    decreases end
  {
    if from == end then Some(w)
    else
      var before := VisitRange(groups, history, w, from, end - 1, count);
      if before.None? then None else VisitStep(groups, history, before.value, end - 1, count)
  }

  /** A thread's first `n` entries, entry q after seen[q] entries. */
  ghost function Visited(groups: seq<nat>, history: seq<Entry>, s0: State, seen: seq<nat>, n: nat): (r: Option<Walk>)
    requires LogOk(groups, history) && StateOk(groups, s0) && s0.stack == []
    requires SeenOk(seen, |history|) && n <= |seen|
    ensures r.Some? ==> WalkOk(groups, r.value, n)
    decreases n
  {
    if n == 0 then Some(Walk(s0, []))
    else
      var before := Visited(groups, history, s0, seen, n - 1);
      if before.None? then None else VisitStep(groups, history, before.value, n - 1, seen[n - 1])
  }

  // ---------- growing logs ----------

  lemma StepGrows(groups: seq<nat>, history: seq<Entry>, e: Entry, w: Walk, q: nat, count: nat)
    requires LogOk(groups, history) && LogOk(groups, history + [e]) && q < count <= |history| && WalkOk(groups, w, q)
    ensures VisitStep(groups, history + [e], w, q, count) == VisitStep(groups, history, w, q, count)
  {
    hide StateOk, EntryOk, Close, Push, TickDifference;
  }

  lemma SeenBetween(seen: seq<nat>, count: nat, q: nat)
    requires SeenOk(seen, count) && q < |seen|
    ensures q < seen[q] <= count
  {
  }

  lemma LogGrows(groups: seq<nat>, history: seq<Entry>, e: Entry, seen: seq<nat>)
    requires LogOk(groups, history) && EntryOk(groups, e) && SeenOk(seen, |history|)
    ensures LogOk(groups, history + [e]) && SeenOk(seen, |history + [e]|)
  {
  }

  lemma {:induction false} VisitedGrows(groups: seq<nat>, history: seq<Entry>, e: Entry, s0: State,
                                        seen: seq<nat>, n: nat)
    requires LogOk(groups, history) && EntryOk(groups, e) && StateOk(groups, s0) && s0.stack == []
    requires SeenOk(seen, |history|) && n <= |seen|
    ensures LogOk(groups, history + [e]) && SeenOk(seen, |history + [e]|)
    ensures Visited(groups, history + [e], s0, seen, n) == Visited(groups, history, s0, seen, n)
    decreases n
  {
    hide VisitStep, WalkOk, StateOk, EntryOk, LogOk, SeenOk;
    LogGrows(groups, history, e, seen);
    if n > 0 {
      SeenBetween(seen, |history|, n - 1);
      VisitedGrows(groups, history, e, s0, seen, n - 1);
      var before := Visited(groups, history, s0, seen, n - 1);
      if before.Some? {
        StepGrows(groups, history, e, before.value, n - 1, seen[n - 1]);
      }
    }
  }

  lemma {:induction false} VisitedAppend(groups: seq<nat>, history: seq<Entry>, s0: State,
                                         seen: seq<nat>, more: seq<nat>, n: nat)
    requires LogOk(groups, history) && StateOk(groups, s0) && s0.stack == []
    requires SeenOk(seen, |history|) && SeenOk(seen + more, |history|) && n <= |seen|
    ensures Visited(groups, history, s0, seen + more, n) == Visited(groups, history, s0, seen, n)
    decreases n
  {
    hide VisitStep, WalkOk, StateOk, EntryOk, LogOk;
    if n > 0 {
      VisitedAppend(groups, history, s0, seen, more, n - 1);
    }
  }

  lemma SeenMore(seen: seq<nat>, count: nat, m: nat, total: nat)
    requires SeenOk(seen, total) && |seen| + m <= count <= total
    ensures SeenOk(seen + Repeat<nat>(count, m), total)
  {
  }

  /** One more frame, replayed after `count` entries. */
  lemma {:induction false} VisitedFrame(groups: seq<nat>, history: seq<Entry>, s0: State, seen: seq<nat>,
                                        count: nat, m: nat, k: nat)
    requires LogOk(groups, history) && StateOk(groups, s0) && s0.stack == [] && k <= m
    requires SeenOk(seen, |history|) && |seen| + m <= count <= |history|
    ensures SeenOk(seen + Repeat<nat>(count, m), |history|)
    ensures var w := Visited(groups, history, s0, seen, |seen|);
            Visited(groups, history, s0, seen + Repeat<nat>(count, m), |seen| + k)
            == if w.None? then None else VisitRange(groups, history, w.value, |seen|, |seen| + k, count)
    decreases k
  {
    hide VisitStep, WalkOk, StateOk, EntryOk, LogOk, SeenOk;
    SeenMore(seen, count, m, |history|);
    if k == 0 {
      VisitedAppend(groups, history, s0, seen, Repeat<nat>(count, m), |seen|);
    } else {
      VisitedFrame(groups, history, s0, seen, count, m, k - 1);
      assert (seen + Repeat<nat>(count, m))[|seen| + k - 1] == count;
    }
  }

  // ---------- what should be read ----------

  /** The numbers of the entries that are open after the first `n`. */
  ghost function OpenAt(history: seq<Entry>, n: nat): (r: seq<nat>)
    requires n <= |history|
    ensures forall i :: 0 <= i < |r| ==> r[i] < n
    decreases n
  {
    if n == 0 then []
    else
      var before := OpenAt(history, n - 1);
      match history[n - 1]
      case Enter(_, _) => before + [n - 1]
      case Leave(_, _) => if before == [] then [] else before[..|before| - 1]
      case Other(_) => before
  }

  /** The numbers of the entries that the replay of entry `q` reads. */
  ghost function ReadAt(groups: seq<nat>, history: seq<Entry>, s0: State, seen: seq<nat>, q: nat): seq<nat>
    requires LogOk(groups, history) && StateOk(groups, s0) && s0.stack == []
    requires SeenOk(seen, |history|) && q < |seen|
  {
    var w, p := Visited(groups, history, s0, seen, q), Latest(q, seen[q]);
    if w.None? then []
    else if history[p].Leave? && w.value.open != [] then [p, Latest(w.value.open[|w.value.open| - 1], seen[q])]
    else [p]
  }

  /** Those that it should read: entry `q` and, if that leaves a span, the entry that opened it. */
  ghost function Meant(history: seq<Entry>, q: nat): seq<nat>
    requires q < |history|
  {
    var open := OpenAt(history, q);
    if history[q].Leave? && open != [] then [q, open[|open| - 1]] else [q]
  }

  /** Neither entry has been overwritten by then. */
  ghost predicate InTimeAt(history: seq<Entry>, seen: seq<nat>, q: nat)
    requires q < |history| && q < |seen|
  {
    var open := OpenAt(history, q);
    && seen[q] <= q + BUFFER_SIZE
    && (history[q].Leave? && open != [] ==> seen[q] <= open[|open| - 1] + BUFFER_SIZE)
  }

  ghost predicate InTime(history: seq<Entry>, seen: seq<nat>, n: nat)
    requires n <= |history| && n <= |seen|
  {
    forall q :: 0 <= q < n ==> InTimeAt(history, seen, q)
  }

  ghost predicate ReadsMeant(groups: seq<nat>, history: seq<Entry>, s0: State, seen: seq<nat>, n: nat)
    requires LogOk(groups, history) && StateOk(groups, s0) && s0.stack == []
    requires SeenOk(seen, |history|) && n <= |seen| <= |history|
  {
    forall q :: 0 <= q < n ==> ReadAt(groups, history, s0, seen, q) == Meant(history, q)
  }

  /** `w` is what one replay of the first `n` entries gives. */
  ghost predicate IsReplay(groups: seq<nat>, history: seq<Entry>, s0: State, n: nat, w: Option<Walk>)
    requires LogOk(groups, history) && StateOk(groups, s0) && n <= |history|
  {
    && LogOk(groups, history[..n])
    && w == Some(Walk(Replay(groups, s0, history[..n]), OpenAt(history, n)))
    && StackIs(history, w.value.s.stack, w.value.open)
  }

  lemma ReplayLast(groups: seq<nat>, s: State, es: seq<Entry>)
    requires es != [] && StateOk(groups, s) && LogOk(groups, es) && Shallow(|s.stack|, es)
    ensures var front, last := es[..|es| - 1], es[|es| - 1];
            && LogOk(groups, front) && EntryOk(groups, last) && Shallow(|s.stack|, front)
            && Replay(groups, s, es) == Step(groups, Replay(groups, s, front), last)
            && (last.Enter? ==> |Replay(groups, s, front).stack| + 1 < STACK_MAX)
  {
    var front, last := es[..|es| - 1], [es[|es| - 1]];
    assert es == front + last;
    assert EntryOk(groups, last[0]);
    ShallowSplits(|s.stack|, front, last);
    DepthOfReplay(groups, s, front);
    ReplayAppend(groups, s, front, last);
    var r := Replay(groups, s, front);
    assert last[1..] == [];
    hide Step;
    ReplayNext(groups, r, last);
  }

  ghost predicate StackIs(history: seq<Entry>, stack: seq<Entry>, open: seq<nat>) {
    |stack| == |open| && forall i :: 0 <= i < |open| ==> open[i] < |history| && stack[i] == history[open[i]]
  }

  /** Reading both entries in time is one step of the replay. */
  lemma StepIsMeant(groups: seq<nat>, history: seq<Entry>, w: Walk, q: nat, count: nat)
    requires LogOk(groups, history) && q < count <= |history| && WalkOk(groups, w, q)
    requires w.open == OpenAt(history, q) && StackIs(history, w.s.stack, w.open) && Latest(q, count) == q
    requires history[q].Enter? ==> |w.open| + 1 < STACK_MAX
    requires history[q].Leave? && w.open != [] ==> var p := w.open[|w.open| - 1]; Latest(p, count) == p
    ensures var r := VisitStep(groups, history, w, q, count);
            && r.Some? && EntryOk(groups, history[q]) && r.value.s == Step(groups, w.s, history[q])
            && r.value.open == OpenAt(history, q + 1) && StackIs(history, r.value.s.stack, r.value.open)
  {
    hide Latest, TickDifference;
    assert EntryOk(groups, history[q]);
    hide LogOk;
  }

  /** One step from the state of one replay, for an entry that is read in time. */
  lemma StepInTime(groups: seq<nat>, history: seq<Entry>, s0: State, seen: seq<nat>, w: Walk, q: nat)
    requires LogOk(groups, history) && StateOk(groups, s0) && s0.stack == [] && q < |history|
    requires SeenOk(seen, |history|) && q < |seen| && WalkOk(groups, w, q)
    requires Shallow(0, history[..q + 1]) && IsReplay(groups, history, s0, q, Some(w)) && InTimeAt(history, seen, q)
    ensures IsReplay(groups, history, s0, q + 1, VisitStep(groups, history, w, q, seen[q]))
  {
    var es := history[..q + 1];
    assert es[..q] == history[..q] && es[q] == history[q];
    ReplayLast(groups, s0, es);
    assert LogOk(groups, es);
    assert q < seen[q] <= |history| && |w.open| == |w.s.stack|;
    hide Replay, Shallow, VisitStep, Step, StateOk, OpenAt, SeenOk, LogOk;
    StepIsMeant(groups, history, w, q, seen[q]);
  }

  /** The replay through the ring reads, at every entry of the thread, exactly the entry and the one that
      opened the span it leaves, if and only if neither has been overwritten by then; in that case its
      accounts are those of one replay of all entries. */
  lemma {:induction false} ReadsAreMeant(groups: seq<nat>, history: seq<Entry>, s0: State, seen: seq<nat>, n: nat)
    requires LogOk(groups, history) && StateOk(groups, s0) && s0.stack == []
    requires SeenOk(seen, |history|) && n <= |seen| <= |history| && Shallow(0, history[..n])
    ensures ReadsMeant(groups, history, s0, seen, n) <==> InTime(history, seen, n)
    ensures InTime(history, seen, n) ==> IsReplay(groups, history, s0, n, Visited(groups, history, s0, seen, n))
    decreases n
  {
    if n == 0 {
      NothingRead(groups, history, s0, seen);
    } else {
      var q := n - 1;
      assert history[..n] == history[..q] + [history[q]];
      ShallowSplits(0, history[..q], [history[q]]);
      hide Replay, Shallow, Visited, StateOk, LogOk, ReadAt, Meant, InTimeAt, ReadsMeant, InTime, IsReplay, OpenAt;
      ReadsSplit(groups, history, s0, seen, q);
      ReadsAreMeant(groups, history, s0, seen, q);
      if InTime(history, seen, q) {
        NextRead(groups, history, s0, seen, q);
      }
    }
  }

  lemma NextRead(groups: seq<nat>, history: seq<Entry>, s0: State, seen: seq<nat>, q: nat)
    requires LogOk(groups, history) && StateOk(groups, s0) && s0.stack == []
    requires SeenOk(seen, |history|) && q < |seen| <= |history| && Shallow(0, history[..q + 1])
    requires IsReplay(groups, history, s0, q, Visited(groups, history, s0, seen, q))
    ensures ReadAt(groups, history, s0, seen, q) == Meant(history, q) <==> InTimeAt(history, seen, q)
    ensures InTimeAt(history, seen, q) ==>
      IsReplay(groups, history, s0, q + 1, Visited(groups, history, s0, seen, q + 1))
  {
    var w := Visited(groups, history, s0, seen, q);
    hide Replay, Shallow, VisitStep, StateOk, LogOk, ReadAt, Meant, InTimeAt, SeenOk, OpenAt;
    LastRead(groups, history, s0, seen, q, w.value);
    if InTimeAt(history, seen, q) {
      StepInTime(groups, history, s0, seen, w.value, q);
    }
  }

  lemma NothingRead(groups: seq<nat>, history: seq<Entry>, s0: State, seen: seq<nat>)
    requires LogOk(groups, history) && StateOk(groups, s0) && s0.stack == []
    requires SeenOk(seen, |history|) && |seen| <= |history|
    ensures ReadsMeant(groups, history, s0, seen, 0) && InTime(history, seen, 0)
    ensures IsReplay(groups, history, s0, 0, Visited(groups, history, s0, seen, 0))
  {
    assert history[..0] == [];
  }

  lemma ReadsSplit(groups: seq<nat>, history: seq<Entry>, s0: State, seen: seq<nat>, q: nat)
    requires LogOk(groups, history) && StateOk(groups, s0) && s0.stack == []
    requires SeenOk(seen, |history|) && q < |seen| <= |history|
    ensures ReadsMeant(groups, history, s0, seen, q + 1)
       <==> ReadsMeant(groups, history, s0, seen, q) && ReadAt(groups, history, s0, seen, q) == Meant(history, q)
    ensures InTime(history, seen, q + 1) <==> InTime(history, seen, q) && InTimeAt(history, seen, q)
  {
    hide ReadAt, Meant, InTimeAt, StateOk, LogOk, SeenOk;
  }

  lemma LastRead(groups: seq<nat>, history: seq<Entry>, s0: State, seen: seq<nat>, q: nat, w: Walk)
    requires LogOk(groups, history) && StateOk(groups, s0) && s0.stack == []
    requires SeenOk(seen, |history|) && q < |seen| <= |history|
    requires Visited(groups, history, s0, seen, q) == Some(w) && w.open == OpenAt(history, q)
    ensures ReadAt(groups, history, s0, seen, q) == Meant(history, q) <==> InTimeAt(history, seen, q)
  {
    hide Visited, StateOk, OpenAt, LogOk;
    var r, m := ReadAt(groups, history, s0, seen, q), Meant(history, q);
    assert q < seen[q] <= |history|;
    assert r[0] == Latest(q, seen[q]) && m[0] == q;
    if Latest(q, seen[q]) == q && history[q].Leave? && w.open != [] {
      assert r[1] == Latest(w.open[|w.open| - 1], seen[q]) && m[1] == w.open[|w.open| - 1];
    }
  }

  lemma {:induction false} VisitRangeJoin(groups: seq<nat>, history: seq<Entry>, w: Walk, from: nat, mid: nat, end: nat,
                                          count: nat)
    requires LogOk(groups, history) && from <= mid <= end <= count <= |history| && WalkOk(groups, w, from)
    ensures var r := VisitRange(groups, history, w, from, mid, count);
            VisitRange(groups, history, w, from, end, count)
            == if r.None? then None else VisitRange(groups, history, r.value, mid, end, count)
    decreases end
  {
    hide VisitStep, WalkOk, LogOk;
    if mid < end {
      VisitRangeJoin(groups, history, w, from, mid, end - 1, count);
    }
  }

  // ---------- exclusive time is conserved ----------

  lemma VisitStepConserves(groups: seq<nat>, history: seq<Entry>, w: Walk, q: nat, count: nat)
    requires LogOk(groups, history) && q < count <= |history| && WalkOk(groups, w, q)
    ensures var r := VisitStep(groups, history, w, q, count);
            r.Some? ==> Sum(r.value.s.exclusive) - Sum(w.s.exclusive) == Sum(r.value.s.child) - Sum(w.s.child)
  {
    var e := history[Latest(q, count)];
    assert EntryOk(groups, e);
    hide Sum, TickDifference, Latest;
    if e.Enter? {
      PushConserves(groups, w.s, e);
    } else if e.Leave? && w.open != [] {
      var start := history[Latest(w.open[|w.open| - 1], count)];
      assert EntryOk(groups, start);
      CloseConserves(groups, w.s, e, TickDifference(start.tick, e.tick));
    }
  }

  /** Whatever has been overwritten: what is added to the exclusive times is what is added to the child times on
      the stack. */
  lemma {:induction false} VisitConserves(groups: seq<nat>, history: seq<Entry>, w: Walk, from: nat, end: nat,
                                          count: nat)
    requires LogOk(groups, history) && from <= end <= count <= |history| && WalkOk(groups, w, from)
    ensures var r := VisitRange(groups, history, w, from, end, count);
            r.Some? ==> Sum(r.value.s.exclusive) - Sum(w.s.exclusive) == Sum(r.value.s.child) - Sum(w.s.child)
    decreases end
  {
    hide VisitStep, LogOk, WalkOk, Sum;
    if from < end {
      VisitConserves(groups, history, w, from, end - 1, count);
      var before := VisitRange(groups, history, w, from, end - 1, count);
      if before.Some? {
        VisitStepConserves(groups, history, before.value, end - 1, count);
      }
    }
  }

  // ---------- frames ----------

  /** `b` is `a` with `o` added to its totals. */
  ghost predicate Shifted(a: Walk, b: Walk, o: State) {
    && |a.s.ticks| == |o.ticks| && |a.s.exclusive| == |o.exclusive| && |a.s.counts| == |o.counts|
    && b == Walk(Shift(a.s, o), a.open)
  }

  ghost predicate BothShifted(a: Option<Walk>, b: Option<Walk>, o: State) {
    (a.None? <==> b.None?) && (a.Some? ==> Shifted(a.value, b.value, o))
  }

  lemma VisitShift(groups: seq<nat>, history: seq<Entry>, a: Walk, b: Walk, o: State, q: nat, count: nat)
    requires LogOk(groups, history) && q < count <= |history| && WalkOk(groups, a, q) && WalkOk(groups, b, q)
    requires |o.ticks| == |o.exclusive| == |o.counts| == |groups| && Shifted(a, b, o)
    ensures BothShifted(VisitStep(groups, history, a, q, count), VisitStep(groups, history, b, q, count), o)
  {
    var e := history[Latest(q, count)];
    assert EntryOk(groups, e);
    if e.Leave? && a.open != [] {
      var start := history[Latest(a.open[|a.open| - 1], count)];
      assert EntryOk(groups, start);
      CloseShift(groups, a.s, o, e, TickDifference(start.tick, e.tick));
    }
    hide TickDifference, Latest;
  }

  lemma {:induction false} RangeShift(groups: seq<nat>, history: seq<Entry>, a: Walk, b: Walk, o: State,
                                      from: nat, end: nat, count: nat)
    requires LogOk(groups, history) && from <= end <= count <= |history|
    requires WalkOk(groups, a, from) && WalkOk(groups, b, from) && Shifted(a, b, o)
    requires |o.ticks| == |o.exclusive| == |o.counts| == |groups|
    ensures BothShifted(VisitRange(groups, history, a, from, end, count),
                        VisitRange(groups, history, b, from, end, count), o)
    decreases end
  {
    hide VisitStep, LogOk, Shifted, WalkOk;
    if from < end {
      RangeShift(groups, history, a, b, o, from, end - 1, count);
      var x := VisitRange(groups, history, a, from, end - 1, count);
      var y := VisitRange(groups, history, b, from, end - 1, count);
      if x.Some? {
        VisitShift(groups, history, x.value, y.value, o, end - 1, count);
      }
    }
  }

  /** A flip clears the totals of the frame, replays it through the ring and adds the totals to the
      accumulators: they get what a replay without clearing gives. */
  lemma FlipIsVisit(groups: seq<nat>, history: seq<Entry>, w: Walk, from: nat, end: nat, count: nat)
    requires LogOk(groups, history) && from <= end <= count <= |history| && WalkOk(groups, w, from)
    ensures WalkOk(groups, Walk(Clear(w.s), w.open), from)
    ensures BothShifted(VisitRange(groups, history, Walk(Clear(w.s), w.open), from, end, count),
                        VisitRange(groups, history, w, from, end, count), w.s)
  {
    ClearThenShift(groups, w.s);
    hide VisitRange, Shift;
    RangeShift(groups, history, Walk(Clear(w.s), w.open), w, w.s, from, end, count);
  }
}
