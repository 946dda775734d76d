/** The replay of a thread's log in MicroProfileFlip (externals/microprofile/microprofile.h): entering a
    timer pushes it on a stack, leaving pops it and accounts its time to the timer, to its group and,
    as time spent in a child, to the timer below it on the stack. */
module ProfileReplay {
  import opened ProfileLog

  const STACK_MAX := 32

  /** `stack` are the open entries; child[k] is the time spent so far in closed children of stack[k - 1],
      and child[0] the time of closed outermost spans. */
  datatype State = State(stack: seq<Entry>, child: seq<int>,
                         ticks: seq<int>, exclusive: seq<int>, counts: seq<int>,
                         groupPos: seq<int>, groupTicks: seq<int>)

  predicate EntryOk(groups: seq<nat>, e: Entry) {
    0 <= e.tick < TICKS && (e.Other? || e.timer < |groups|)
  }

  predicate LogOk(groups: seq<nat>, es: seq<Entry>) {
    forall k :: 0 <= k < |es| ==> EntryOk(groups, es[k])
  }

  /** Words whose timers are registered are read as a log. */
  lemma WordsAreLog(groups: seq<nat>, words: seq<nat>)
    requires forall k :: 0 <= k < |words| ==> Decode(words[k]).Other? || Decode(words[k]).timer < |groups|
    ensures LogOk(groups, seq(|words|, k requires 0 <= k < |words| => Decode(words[k])))
  {
    forall k | 0 <= k < |words|
      ensures EntryOk(groups, Decode(words[k]))
    {
      DecodedFits(words[k]);
    }
    hide Decode;
  }

  /** `groups` maps timers to groups. */
  predicate StateOk(groups: seq<nat>, s: State) {
    && |s.child| == |s.stack| + 1
    && |s.ticks| == |s.exclusive| == |s.counts| == |groups|
    && |s.groupPos| == |s.groupTicks| && (forall t :: 0 <= t < |groups| ==> groups[t] < |s.groupPos|)
    && (forall g :: 0 <= g < |s.groupPos| ==> 0 <= s.groupPos[g] < 256)
    && (forall k :: 0 <= k < |s.stack| ==> s.stack[k].Enter? && EntryOk(groups, s.stack[k]))
  }

  function Push(groups: seq<nat>, s: State, e: Entry): State
    requires StateOk(groups, s) && e.Enter? && EntryOk(groups, e)
  {
    var g := groups[e.timer];
    s.(stack := s.stack + [e], child := s.child + [0], groupPos := s.groupPos[g := (s.groupPos[g] + 1) % 256])
  }

  /** The ticks of the innermost open span if it is left by `e`. */
  function SpanTicks(groups: seq<nat>, s: State, e: Entry): int
    requires StateOk(groups, s) && s.stack != [] && e.Leave? && EntryOk(groups, e)
  {
    TickDifference(s.stack[|s.stack| - 1].tick, e.tick)
  }

  /** The innermost open span is closed by `e` and counted with `ticks`. */
  function Close(groups: seq<nat>, s: State, e: Entry, ticks: int): State
    requires StateOk(groups, s) && s.stack != [] && e.Leave? && EntryOk(groups, e)
  {
    var n, t, g := |s.stack|, e.timer, groups[e.timer];
    var own, pos := ticks - s.child[n], s.groupPos[g];
    State(s.stack[..n - 1], s.child[..n - 1] + [s.child[n - 1] + ticks],
          s.ticks[t := s.ticks[t] + ticks], s.exclusive[t := s.exclusive[t] + own], s.counts[t := s.counts[t] + 1],
          if pos > 0 then s.groupPos[g := pos - 1] else s.groupPos,
          if pos == 1 then s.groupTicks[g := s.groupTicks[g] + ticks] else s.groupTicks)
  }

  function Pop(groups: seq<nat>, s: State, e: Entry): State
    requires StateOk(groups, s) && s.stack != [] && e.Leave? && EntryOk(groups, e)
  {
    Close(groups, s, e, SpanTicks(groups, s, e))
  }

  function Step(groups: seq<nat>, s: State, e: Entry): (r: State)
    requires StateOk(groups, s) && EntryOk(groups, e)
    ensures StateOk(groups, r) && |r.groupPos| == |s.groupPos|
  {
    match e
    case Enter(_, _) => Push(groups, s, e)
    case Leave(_, _) => if s.stack == [] then s else Pop(groups, s, e)
    case Other(_) => s
  }

  /** One segment of the log.  An entry that finds the stack full ends the segment. */
  function Replay(groups: seq<nat>, s: State, es: seq<Entry>): (r: State)
    requires StateOk(groups, s) && LogOk(groups, es)
    ensures StateOk(groups, r) && |r.groupPos| == |s.groupPos|
    decreases |es|
  {
    if es == [] || (es[0].Enter? && |s.stack| >= STACK_MAX) then s
    else
      assert EntryOk(groups, es[0]);
      Replay(groups, Step(groups, s, es[0]), es[1..])
  }

  // ---------- the depth of the stack ----------

  function DepthStep(depth: nat, e: Entry): nat {
    match e
    case Enter(_, _) => depth + 1
    case Leave(_, _) => if depth == 0 then 0 else depth - 1
    case Other(_) => depth
  }

  function DepthAfter(depth: nat, es: seq<Entry>): nat
    decreases |es|
  {
    if es == [] then depth else DepthAfter(DepthStep(depth, es[0]), es[1..])
  }

  /** The log keeps less than 32 entries open, starting with `depth`. */
  predicate Shallow(depth: nat, es: seq<Entry>)
    decreases |es|
  {
    es == [] || ((es[0].Enter? ==> depth + 1 < STACK_MAX) && Shallow(DepthStep(depth, es[0]), es[1..]))
  }

  /** The places of `nChildTickStack` that a replay uses: entering writes that of the new entry, leaving
      reads it and writes the one below. */
  function ChildPlaces(depth: nat, es: seq<Entry>): seq<nat>
    decreases |es|
  {
    if es == [] || (es[0].Enter? && depth >= STACK_MAX) then []
    else
      (match es[0]
       case Enter(_, _) => [depth + 1]
       case Leave(_, _) => if depth == 0 then [] else [depth, depth - 1]
       case Other(_) => [])
      + ChildPlaces(DepthStep(depth, es[0]), es[1..])
  }

  predicate AllInside(places: seq<nat>) {
    forall k :: 0 <= k < |places| ==> places[k] < STACK_MAX
  }

  lemma InsideJoin(a: seq<nat>, b: seq<nat>)
    ensures AllInside(a + b) <==> AllInside(a) && AllInside(b)
  {
    assert forall k :: 0 <= k < |a| ==> (a + b)[k] == a[k];
    assert forall k :: 0 <= k < |b| ==> (a + b)[|a| + k] == b[k];
  }

  /** All places are among the 32 that the array has if and only if the log keeps less than 32 entries open. */
  lemma {:induction false} PlacesAreInside(depth: nat, es: seq<Entry>)
    requires depth < STACK_MAX
    ensures AllInside(ChildPlaces(depth, es)) <==> Shallow(depth, es)
    decreases |es|
  {
    if es != [] {
      var rest := ChildPlaces(DepthStep(depth, es[0]), es[1..]);
      if es[0].Enter? {
        InsideJoin([depth + 1], rest);
        assert [depth + 1][0] == depth + 1;
      } else if es[0].Leave? && depth > 0 {
        InsideJoin([depth, depth - 1], rest);
      } else {
        InsideJoin([], rest);
      }
      if !(es[0].Enter? && depth + 1 == STACK_MAX) {
        PlacesAreInside(DepthStep(depth, es[0]), es[1..]);
      }
    }
  }

  /** 32 entries inside one another: the last one is counted one place past the array. */
  lemma DeepLog()
    ensures var es := seq(STACK_MAX, _ => Enter(0, 0)); !Shallow(0, es) && !AllInside(ChildPlaces(0, es))
  {
    var es := seq(STACK_MAX, _ => Enter(0, 0));
    NestedIsDeep(0, es);
    PlacesAreInside(0, es);
  }

  lemma {:induction false} NestedIsDeep(depth: nat, es: seq<Entry>)
    requires es != [] && depth + |es| == STACK_MAX && forall k :: 0 <= k < |es| ==> es[k].Enter?
    ensures !Shallow(depth, es)
    decreases |es|
  {
    if |es| > 1 {
      NestedIsDeep(depth + 1, es[1..]);
    }
  }

  lemma StepDepth(groups: seq<nat>, s: State, e: Entry)
    requires StateOk(groups, s) && EntryOk(groups, e)
    ensures |Step(groups, s, e).stack| == DepthStep(|s.stack|, e)
  {
  }

  /** A shallow log is replayed entry by entry. */
  lemma ReplayNext(groups: seq<nat>, s: State, es: seq<Entry>)
    requires es != [] && StateOk(groups, s) && LogOk(groups, es) && Shallow(|s.stack|, es)
    ensures EntryOk(groups, es[0]) && LogOk(groups, es[1..]) && (es[0].Enter? ==> |s.stack| + 1 < STACK_MAX)
    ensures Shallow(|Step(groups, s, es[0]).stack|, es[1..])
    ensures Replay(groups, s, es) == Replay(groups, Step(groups, s, es[0]), es[1..])
  {
    hide Step, StateOk, EntryOk;
    StepDepth(groups, s, es[0]);
  }

  // ---------- sums ----------

  function Sum(s: seq<int>): int {
    if s == [] then 0 else s[0] + Sum(s[1..])
  }

  lemma {:induction false} SumConcat(a: seq<int>, b: seq<int>)
    ensures Sum(a + b) == Sum(a) + Sum(b)
  {
    if a == [] {
      assert a + b == b;
    } else {
      assert (a + b)[1..] == a[1..] + b;
      SumConcat(a[1..], b);
    }
  }

  lemma SumUpdate(s: seq<int>, i: nat, v: int)
    requires i < |s|
    ensures Sum(s[i := v]) == Sum(s) - s[i] + v
  {
    assert s == s[..i] + ([s[i]] + s[i + 1..]);
    assert s[i := v] == s[..i] + ([v] + s[i + 1..]);
    SumConcat(s[..i], [s[i]] + s[i + 1..]);
    SumConcat(s[..i], [v] + s[i + 1..]);
    assert ([s[i]] + s[i + 1..])[1..] == s[i + 1..] && ([v] + s[i + 1..])[1..] == s[i + 1..];
  }

  // ---------- exclusive time is conserved ----------

  /** Whatever time a span is closed with: the exclusive times grow by what the child times on the stack grow. */
  lemma CloseConserves(groups: seq<nat>, s: State, e: Entry, ticks: int)
    requires StateOk(groups, s) && s.stack != [] && e.Leave? && EntryOk(groups, e)
    ensures var r := Close(groups, s, e, ticks); Sum(r.exclusive) - Sum(s.exclusive) == Sum(r.child) - Sum(s.child)
  {
    var n, t := |s.stack|, e.timer;
    SumUpdate(s.exclusive, t, s.exclusive[t] + (ticks - s.child[n]));
    assert s.child == s.child[..n - 1] + [s.child[n - 1], s.child[n]];
    SumConcat(s.child[..n - 1], [s.child[n - 1], s.child[n]]);
    SumConcat(s.child[..n - 1], [s.child[n - 1] + ticks]);
    SumOfTwo(s.child[n - 1], s.child[n]);
    SumOfOne(s.child[n - 1] + ticks);
    hide Sum;
  }

  lemma PushConserves(groups: seq<nat>, s: State, e: Entry)
    requires StateOk(groups, s) && e.Enter? && EntryOk(groups, e)
    ensures Sum(Push(groups, s, e).child) == Sum(s.child)
  {
    SumConcat(s.child, [0]);
    SumOfOne(0);
    hide Sum;
  }

  lemma StepConserves(groups: seq<nat>, s: State, e: Entry)
    requires StateOk(groups, s) && EntryOk(groups, e)
    ensures var r := Step(groups, s, e); Sum(r.exclusive) - Sum(s.exclusive) == Sum(r.child) - Sum(s.child)
  {
    hide Sum;
    if e.Enter? {
      PushConserves(groups, s, e);
    } else if e.Leave? && s.stack != [] {
      CloseConserves(groups, s, e, SpanTicks(groups, s, e));
    }
  }

  lemma SumOfOne(a: int)
    ensures Sum([a]) == a
  {
    assert [a][1..] == [];
  }

  lemma SumOfTwo(a: int, b: int)
    ensures Sum([a, b]) == a + b
  {
    assert [a, b][1..] == [b];
    SumOfOne(b);
  }

  /** For any shallow log, well nested or not: what is added to the exclusive times is what is added to the
      child times on the stack. */
  lemma {:induction false} ReplayConserves(groups: seq<nat>, s: State, es: seq<Entry>)
    requires StateOk(groups, s) && LogOk(groups, es) && Shallow(|s.stack|, es)
    ensures var r := Replay(groups, s, es); Sum(r.exclusive) - Sum(s.exclusive) == Sum(r.child) - Sum(s.child)
    decreases |es|
  {
    if es != [] {
      ReplayNext(groups, s, es);
      StepConserves(groups, s, es[0]);
      ReplayConserves(groups, Step(groups, s, es[0]), es[1..]);
    }
  }

  /** The ticks of the spans that are closed when nothing else is open. */
  function OutermostTicks(groups: seq<nat>, s: State, es: seq<Entry>): int
    requires StateOk(groups, s) && LogOk(groups, es)
    decreases |es|
  {
    if es == [] then 0
    else
      assert EntryOk(groups, es[0]);
      (if es[0].Leave? && |s.stack| == 1 then SpanTicks(groups, s, es[0]) else 0)
      + OutermostTicks(groups, Step(groups, s, es[0]), es[1..])
  }

  lemma {:induction false} RootCollectsOutermost(groups: seq<nat>, s: State, es: seq<Entry>)
    requires StateOk(groups, s) && LogOk(groups, es) && Shallow(|s.stack|, es)
    ensures Replay(groups, s, es).child[0] - s.child[0] == OutermostTicks(groups, s, es)
    decreases |es|
  {
    if es != [] {
      ReplayNext(groups, s, es);
      RootCollectsOutermost(groups, Step(groups, s, es[0]), es[1..]);
    }
  }

  /** A replay that begins and ends with nothing open shares out exactly the time of its outermost spans. */
  lemma ExclusiveIsOutermost(groups: seq<nat>, s: State, es: seq<Entry>)
    requires StateOk(groups, s) && LogOk(groups, es) && Shallow(|s.stack|, es)
    requires s.stack == [] && Replay(groups, s, es).stack == []
    ensures Sum(Replay(groups, s, es).exclusive) - Sum(s.exclusive) == OutermostTicks(groups, s, es)
  {
    var r := Replay(groups, s, es);
    ReplayConserves(groups, s, es);
    RootCollectsOutermost(groups, s, es);
    assert r.child == [r.child[0]] && s.child == [s.child[0]];
    SumOfOne(r.child[0]);
    SumOfOne(s.child[0]);
  }
}
