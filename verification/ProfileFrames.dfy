/** Replays of consecutive frames: the accounts do not depend on where a log is cut into frames, and the
    group counters follow the open entries (externals/microprofile/microprofile.h). */
module ProfileFrames {
  import opened ProfileLog
  import opened ProfileReplay
  import opened ProfileSpans

  // ---------- frames ----------

  function Plus(a: seq<int>, b: seq<int>): seq<int>
    requires |a| == |b|
  {
    seq(|a|, k requires 0 <= k < |a| => a[k] + b[k])
  }

  /** `s` with `o` added to its totals. */
  function Shift(s: State, o: State): State
    requires |s.ticks| == |o.ticks| && |s.exclusive| == |o.exclusive| && |s.counts| == |o.counts|
  {
    s.(ticks := Plus(s.ticks, o.ticks), exclusive := Plus(s.exclusive, o.exclusive), counts := Plus(s.counts, o.counts))
  }

  function Zeros(n: nat): seq<int> {
    seq(n, _ => 0)
  }

  /** Nothing open and nothing counted. */
  function Start(timerCount: nat, groupCount: nat): State {
    State([], [0], Zeros(timerCount), Zeros(timerCount), Zeros(timerCount), Zeros(groupCount), Zeros(groupCount))
  }

  /** The totals of a frame start from zero; stack and group counters carry over. */
  function Clear(s: State): State {
    s.(ticks := Zeros(|s.ticks|), exclusive := Zeros(|s.exclusive|), counts := Zeros(|s.counts|))
  }

  /** One flip: clear the frame's totals, replay its window, add the totals to the accumulators. */
  function Flip(groups: seq<nat>, s: State, window: seq<Entry>): State
    requires StateOk(groups, s) && LogOk(groups, window)
  {
    Shift(Replay(groups, Clear(s), window), s)
  }

  lemma CloseShift(groups: seq<nat>, s: State, o: State, e: Entry, ticks: int)
    requires StateOk(groups, s) && s.stack != [] && e.Leave? && EntryOk(groups, e)
    requires |o.ticks| == |o.exclusive| == |o.counts| == |groups|
    ensures StateOk(groups, Shift(s, o))
    ensures Close(groups, Shift(s, o), e, ticks) == Shift(Close(groups, s, e, ticks), o)
  {
    PlusUpdate(s.ticks, o.ticks, e.timer, ticks);
    PlusUpdate(s.exclusive, o.exclusive, e.timer, ticks - s.child[|s.stack|]);
    PlusUpdate(s.counts, o.counts, e.timer, 1);
  }

  lemma StepShift(groups: seq<nat>, s: State, o: State, e: Entry)
    requires StateOk(groups, s) && EntryOk(groups, e) && |o.ticks| == |o.exclusive| == |o.counts| == |groups|
    ensures StateOk(groups, Shift(s, o))
    ensures Step(groups, Shift(s, o), e) == Shift(Step(groups, s, e), o)
  {
    if e.Leave? && s.stack != [] {
      CloseShift(groups, s, o, e, SpanTicks(groups, s, e));
    }
  }

  lemma PlusUpdate(a: seq<int>, b: seq<int>, t: nat, v: int)
    requires |a| == |b| && t < |a|
    ensures Plus(a, b)[t := Plus(a, b)[t] + v] == Plus(a[t := a[t] + v], b)
  {
  }

  lemma {:induction false} ReplayShift(groups: seq<nat>, s: State, o: State, es: seq<Entry>)
    requires StateOk(groups, s) && LogOk(groups, es) && |o.ticks| == |o.exclusive| == |o.counts| == |groups|
    ensures StateOk(groups, Shift(s, o))
    ensures Replay(groups, Shift(s, o), es) == Shift(Replay(groups, s, es), o)
    decreases |es|
  {
    if es != [] && !(es[0].Enter? && |s.stack| >= STACK_MAX) {
      assert EntryOk(groups, es[0]);
      StepShift(groups, s, o, es[0]);
      hide Step, Shift, StateOk;
      ReplayShift(groups, Step(groups, s, es[0]), o, es[1..]);
    }
  }

  lemma ClearThenShift(groups: seq<nat>, s: State)
    requires StateOk(groups, s)
    ensures StateOk(groups, Clear(s)) && Shift(Clear(s), s) == s
  {
    assert Plus(Zeros(|s.ticks|), s.ticks) == s.ticks;
    assert Plus(Zeros(|s.exclusive|), s.exclusive) == s.exclusive;
    assert Plus(Zeros(|s.counts|), s.counts) == s.counts;
  }

  /** A flip adds to the accumulators what a replay without frames would. */
  lemma FlipIsReplay(groups: seq<nat>, s: State, window: seq<Entry>)
    requires StateOk(groups, s) && LogOk(groups, window)
    ensures Flip(groups, s, window) == Replay(groups, s, window)
  {
    ClearThenShift(groups, s);
    hide Replay, Shift, Clear;
    ReplayShift(groups, Clear(s), s, window);
  }

  ghost predicate WindowsOk(groups: seq<nat>, windows: seq<seq<Entry>>) {
    forall k :: 0 <= k < |windows| ==> LogOk(groups, windows[k])
  }

  function Flips(groups: seq<nat>, s: State, windows: seq<seq<Entry>>): (r: State)
    requires StateOk(groups, s) && WindowsOk(groups, windows)
    ensures StateOk(groups, r)
    decreases |windows|
  {
    if windows == [] then s
    else
      FlipIsReplay(groups, s, windows[0]);
      Flips(groups, Flip(groups, s, windows[0]), windows[1..])
  }

  function Concat(windows: seq<seq<Entry>>): seq<Entry> {
    if windows == [] then [] else windows[0] + Concat(windows[1..])
  }

  /** Any number of frames accumulate what one replay of the whole log accumulates, wherever the log is cut. */
  lemma {:induction false} FramesAreOneReplay(groups: seq<nat>, s: State, windows: seq<seq<Entry>>)
    requires StateOk(groups, s) && WindowsOk(groups, windows) && Shallow(|s.stack|, Concat(windows))
    ensures LogOk(groups, Concat(windows)) && Flips(groups, s, windows) == Replay(groups, s, Concat(windows))
    decreases |windows|
  {
    if windows != [] {
      var first, rest := windows[0], Concat(windows[1..]);
      FlipIsReplay(groups, s, first);
      ShallowSplits(|s.stack|, first, rest);
      DepthOfReplay(groups, s, first);
      FramesAreOneReplay(groups, Replay(groups, s, first), windows[1..]);
      ReplayAppend(groups, s, first, rest);
    }
  }

  lemma {:induction false} ShallowSplits(d: nat, a: seq<Entry>, b: seq<Entry>)
    requires Shallow(d, a + b)
    ensures Shallow(d, a) && Shallow(DepthAfter(d, a), b)
    decreases |a|
  {
    if a == [] {
      assert a + b == b;
    } else {
      assert (a + b)[1..] == a[1..] + b && (a + b)[0] == a[0];
      ShallowSplits(DepthStep(d, a[0]), a[1..], b);
    }
  }

  lemma {:induction false} DepthOfReplay(groups: seq<nat>, s: State, es: seq<Entry>)
    requires StateOk(groups, s) && LogOk(groups, es) && Shallow(|s.stack|, es)
    ensures |Replay(groups, s, es).stack| == DepthAfter(|s.stack|, es)
    decreases |es|
  {
    if es != [] {
      assert EntryOk(groups, es[0]);
      DepthOfReplay(groups, Step(groups, s, es[0]), es[1..]);
    }
  }

  // ---------- group counters ----------

  /** How many open entries belong to group `g`. */
  function OpenIn(groups: seq<nat>, stack: seq<Entry>, g: nat): nat
    requires forall k :: 0 <= k < |stack| ==> stack[k].Enter? && EntryOk(groups, stack[k])
  {
    if stack == [] then 0
    else
      var n := |stack| - 1;
      assert EntryOk(groups, stack[n]) && stack[n].Enter?;
      OpenIn(groups, stack[..n], g) + (if groups[stack[n].timer] == g then 1 else 0)
  }

  ghost predicate Counted(groups: seq<nat>, s: State)
    requires StateOk(groups, s)
  {
    |s.stack| <= STACK_MAX && forall g :: 0 <= g < |s.groupPos| ==> s.groupPos[g] == OpenIn(groups, s.stack, g)
  }

  /** Every leave closes a span of its own group. */
  predicate Matched(groups: seq<nat>, s: State, e: Entry)
    requires StateOk(groups, s) && EntryOk(groups, e)
  {
    e.Leave? ==> s.stack != [] && groups[s.stack[|s.stack| - 1].timer] == groups[e.timer]
  }

  predicate WellNested(groups: seq<nat>, s: State, es: seq<Entry>)
    requires StateOk(groups, s) && LogOk(groups, es)
    decreases |es|
  {
    es == []
    || (assert EntryOk(groups, es[0]); Matched(groups, s, es[0]) && WellNested(groups, Step(groups, s, es[0]), es[1..]))
  }

  lemma {:induction false} OpenInBound(groups: seq<nat>, stack: seq<Entry>, g: nat)
    requires forall k :: 0 <= k < |stack| ==> stack[k].Enter? && EntryOk(groups, stack[k])
    ensures OpenIn(groups, stack, g) <= |stack|
  {
    if stack != [] { OpenInBound(groups, stack[..|stack| - 1], g); }
  }

  lemma {:induction false} OpenInMore(groups: seq<nat>, stack: seq<Entry>, e: Entry, g: nat)
    requires (forall k :: 0 <= k < |stack| ==> EntryOk(groups, stack[k]) && stack[k].Enter?)
    requires EntryOk(groups, e) && e.Enter?
    ensures OpenIn(groups, stack + [e], g) == OpenIn(groups, stack, g) + if groups[e.timer] == g then 1 else 0
  {
    assert (stack + [e])[..|stack|] == stack;
  }

  lemma PushCounts(groups: seq<nat>, s: State, e: Entry)
    requires StateOk(groups, s) && EntryOk(groups, e) && Counted(groups, s) && e.Enter? && |s.stack| < STACK_MAX
    ensures Counted(groups, Push(groups, s, e))
  {
    forall g | 0 <= g < |s.groupPos|
      ensures Push(groups, s, e).groupPos[g] == OpenIn(groups, s.stack + [e], g)
    {
      OpenInBound(groups, s.stack, g);
      OpenInMore(groups, s.stack, e, g);
      assert s.groupPos[g] == OpenIn(groups, s.stack, g);
      hide OpenIn;
    }
  }

  lemma PopCounts(groups: seq<nat>, s: State, e: Entry)
    requires StateOk(groups, s) && EntryOk(groups, e) && Counted(groups, s) && Matched(groups, s, e) && e.Leave?
    ensures s.stack != [] && Counted(groups, Pop(groups, s, e))
  {
    var rest, top := s.stack[..|s.stack| - 1], s.stack[|s.stack| - 1];
    assert s.stack == rest + [top];
    forall g | 0 <= g < |s.groupPos|
      ensures Pop(groups, s, e).groupPos[g] == OpenIn(groups, rest, g)
    {
      OpenInMore(groups, rest, top, g);
      assert s.groupPos[g] == OpenIn(groups, s.stack, g);
      hide OpenIn;
    }
  }

  lemma StepCounts(groups: seq<nat>, s: State, e: Entry)
    requires StateOk(groups, s) && EntryOk(groups, e) && Counted(groups, s) && Matched(groups, s, e)
    requires e.Enter? ==> |s.stack| < STACK_MAX
    ensures Counted(groups, Step(groups, s, e))
  {
    if e.Enter? {
      PushCounts(groups, s, e);
    } else if e.Leave? {
      PopCounts(groups, s, e);
    }
    hide Counted, Push, Pop, StateOk;
  }

  /** In a well-nested log the counter of a group is always the number of its open entries. */
  lemma {:induction false} ReplayCounts(groups: seq<nat>, s: State, es: seq<Entry>)
    requires StateOk(groups, s) && LogOk(groups, es) && Counted(groups, s)
    requires WellNested(groups, s, es) && Shallow(|s.stack|, es)
    ensures Counted(groups, Replay(groups, s, es))
    decreases |es|
  {
    if es != [] {
      assert EntryOk(groups, es[0]);
      StepCounts(groups, s, es[0]);
      ReplayCounts(groups, Step(groups, s, es[0]), es[1..]);
    }
  }

  /** The ticks of the spans of group `g` that are closed with no other span of the group open. */
  function UncoveredTicks(groups: seq<nat>, s: State, es: seq<Entry>, g: nat): int
    requires StateOk(groups, s) && LogOk(groups, es) && WellNested(groups, s, es)
    decreases |es|
  {
    if es == [] then 0
    else
      assert EntryOk(groups, es[0]);
      var e, n := es[0], |s.stack|;
      assert Matched(groups, s, e) && (e.Leave? ==> e.timer < |groups|);
      (if e.Leave? && groups[e.timer] == g && OpenIn(groups, s.stack[..n - 1], g) == 0
       then SpanTicks(groups, s, e) else 0)
      + UncoveredTicks(groups, Step(groups, s, e), es[1..], g)
  }

  lemma StepUncovered(groups: seq<nat>, s: State, e: Entry, g: nat)
    requires StateOk(groups, s) && EntryOk(groups, e) && Counted(groups, s) && Matched(groups, s, e) && g < |s.groupPos|
    ensures var n := |s.stack|;
            Step(groups, s, e).groupTicks[g] - s.groupTicks[g]
            == if e.Leave? && groups[e.timer] == g && OpenIn(groups, s.stack[..n - 1], g) == 0
               then SpanTicks(groups, s, e) else 0
  {
    if e.Leave? {
      assert s.groupPos[g] == OpenIn(groups, s.stack, g);
    }
  }

  /** A group is credited with exactly the spans that are not inside another span of the group. */
  lemma {:induction false} GroupTicksAreUncovered(groups: seq<nat>, s: State, es: seq<Entry>, g: nat)
    requires StateOk(groups, s) && LogOk(groups, es) && Counted(groups, s) && g < |s.groupPos|
    requires WellNested(groups, s, es) && Shallow(|s.stack|, es)
    ensures Replay(groups, s, es).groupTicks[g] == s.groupTicks[g] + UncoveredTicks(groups, s, es, g)
    decreases |es|
  {
    if es != [] {
      var e := es[0];
      assert EntryOk(groups, e);
      StepCounts(groups, s, e);
      StepUncovered(groups, s, e, g);
      GroupTicksAreUncovered(groups, Step(groups, s, e), es[1..], g);
    }
  }
}
