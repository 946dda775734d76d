/** One thread's profile (externals/microprofile/microprofile.h): the ring that the thread writes and the flips
    replay, with the replay's stack of places in that ring. */
module ProfileThread {
  import opened Wrappers
  import opened ProfileLog
  import opened ProfileReplay
  import opened ProfileFrames
  import opened ProfileRing
  import opened ProfileVisits
  import opened ProfileReplayer

  /** The replayer is where the replay of the entries seen so far leads. */
  ghost predicate Follows(groups: seq<nat>, history: seq<Entry>, s0: State, seen: seq<nat>, outside: bool, w: Walk) {
    && LogOk(groups, history) && StateOk(groups, s0) && s0.stack == [] && SeenOk(seen, |history|)
    && (var v := Visited(groups, history, s0, seen, |seen|);
        (outside <==> v.None?) && (!outside ==> w == v.value))
  }

  lemma FollowsPut(groups: seq<nat>, history: seq<Entry>, s0: State, seen: seq<nat>, outside: bool, w: Walk, e: Entry)
    requires Follows(groups, history, s0, seen, outside, w) && EntryOk(groups, e)
    ensures Follows(groups, history + [e], s0, seen, outside, w)
  {
    VisitedGrows(groups, history, e, s0, seen, |seen|);
  }

  lemma FollowsWalk(groups: seq<nat>, history: seq<Entry>, s0: State, seen: seq<nat>, w: Walk)
    requires Follows(groups, history, s0, seen, false, w)
    ensures LogOk(groups, history) && WalkOk(groups, w, |seen|)
  {
  }

  lemma FollowsFrame(groups: seq<nat>, history: seq<Entry>, s0: State, seen: seq<nat>, w: Walk, m: nat,
                     outside: bool, next: Walk)
    requires Follows(groups, history, s0, seen, false, w) && WalkOk(groups, w, |seen|) && |seen| + m <= |history|
    requires var r := VisitRange(groups, history, w, |seen|, |seen| + m, |history|);
             (outside <==> r.None?) && (!outside ==> next == r.value)
    ensures Follows(groups, history, s0, seen + Repeat<nat>(|history|, m), outside, next)
  {
    hide Visited, VisitRange, LogOk, StateOk, WalkOk, SeenOk;
    VisitedFrame(groups, history, s0, seen, |history|, m, m);
    var more := seen + Repeat<nat>(|history|, m);
    assert |more| == |seen| + m;
    assert SeenOk(more, |history|);
    assert Visited(groups, history, s0, more, |more|) == Visited(groups, history, s0, more, |seen| + m);
  }

  lemma FollowsOutside(groups: seq<nat>, history: seq<Entry>, s0: State, seen: seq<nat>, w: Walk, m: nat)
    requires Follows(groups, history, s0, seen, true, w) && |seen| + m <= |history|
    ensures Follows(groups, history, s0, seen + Repeat<nat>(|history|, m), true, w)
  {
    hide Visited, VisitRange, LogOk, StateOk, WalkOk, SeenOk;
    VisitedFrame(groups, history, s0, seen, |history|, m, m);
    var more := seen + Repeat<nat>(|history|, m);
    assert |more| == |seen| + m;
    assert SeenOk(more, |history|);
    assert Visited(groups, history, s0, more, |more|) == Visited(groups, history, s0, more, |seen| + m);
  }

  // ---------- the accumulators ----------

  /** The same spans are open in both; the totals may differ. */
  ghost predicate SameOpen(a: Walk, b: Walk) {
    a.open == b.open && Clear(a.s) == Clear(b.s)
  }

  /** `r` is `a` with the first `i` of `f` added, in 64 bits. */
  ghost predicate Added(a: seq<int>, f: seq<int>, r: seq<int>, i: nat) {
    |r| == |a| == |f| && forall k :: 0 <= k < |r| ==> r[k] == if k < i then W(a[k] + f[k]) else a[k]
  }

  ghost predicate Added32(a: seq<int>, f: seq<int>, r: seq<int>, i: nat) {
    |r| == |a| == |f| && forall k :: 0 <= k < |r| ==> r[k] == if k < i then C(a[k] + f[k]) else a[k]
  }

  lemma FrameAgrees(groups: seq<nat>, c: Cells, w: Walk)
    requires Agrees(groups, c, w)
    ensures TimersAgree(c.ticks, c.exclusive, c.counts, w.s) && |c.ticks| == |c.exclusive| == |c.counts|
  {
  }

  lemma AddWords(a: seq<int>, x: seq<int>, f: seq<int>, y: seq<int>, r: seq<int>)
    requires Wrapped(a, x) && Wrapped(f, y) && Added(a, f, r, |f|)
    ensures Wrapped(r, Plus(y, x))
  {
    forall k | 0 <= k < |r|
      ensures r[k] == W(y[k] + x[k])
    {
      WrapAdd(x[k], f[k]);
      WrapAdd(x[k], y[k]);
    }
  }

  lemma AddCounts(a: seq<int>, x: seq<int>, f: seq<int>, y: seq<int>, r: seq<int>)
    requires Counted32(a, x) && Counted32(f, y) && Added32(a, f, r, |f|)
    ensures Counted32(r, Plus(y, x))
  {
  }

  /** Replays the frame in the two ranges, unless the replay is outside already.  `total` is where a replay
      without clearing would be; it becomes `next`. */
  method FollowFrame(p: Replayer, a0: nat, a1: nat, b0: nat, b1: nat, ghost history: seq<Entry>, ghost s0: State,
                     ghost seen: seq<nat>, ghost end: nat, ghost total: Walk)
    returns (ghost next: Walk)
    requires p.Valid() && Holds(p.log[..], history) && Follows(p.groups, history, s0, seen, p.outside, total)
    requires !p.outside ==> SameOpen(p.w, total)
    requires a0 <= a1 <= p.log.Length && b0 <= b1 <= p.log.Length && |seen| <= end <= |history|
    requires end < |seen| + BUFFER_SIZE && CoversRing(a0, a1, b0, b1, Slot(|seen|), Slot(end))
    modifies p
    ensures p.Valid() && (old(p.outside) ==> p.outside)
    ensures Follows(p.groups, history, s0, seen + Repeat<nat>(|history|, end - |seen|), p.outside, next)
    ensures !p.outside ==> Shifted(p.w, next, total.s) && SameOpen(p.w, next)
  {
    hide Agrees, CoversRing, Slot, Holds, VisitRange, Follows, Conserved;
    next := total;
    if p.outside {
      FollowsOutside(p.groups, history, s0, seen, total, end - |seen|);
    } else {
      FollowsWalk(p.groups, history, s0, seen, total);
      FlipIsVisit(p.groups, history, total, |seen|, end, |history|);
      p.ClearFrame();
      assert p.w == Walk(Clear(total.s), total.open);
      p.ReplayRanges(a0, a1, b0, b1, history, |seen|, end);
      if !p.outside {
        next := VisitRange(p.groups, history, total, |seen|, end, |history|).value;
      }
      FollowsFrame(p.groups, history, s0, seen, total, end - |seen|, p.outside, next);
    }
  }

  class ThreadProfile {
    const ring: ThreadLog
    const replayer: Replayer
    /** What the flips so far have added up. */
    var ticks: seq<int>
    var exclusive: seq<int>
    var counts: seq<int>
    /** The accounts when the thread began, and where a replay without flips would be. */
    ghost const s0: State
    ghost var total: Walk

    ghost predicate Valid()
      reads this, ring, ring.log, replayer
    {
      && ring.Valid() && replayer.Valid() && replayer.log == ring.log
      && Follows(replayer.groups, ring.history, s0, ring.seen, replayer.outside, total)
      && (!replayer.outside ==> SameOpen(replayer.w, total) && TimersAgree(ticks, exclusive, counts, total.s))
    }

    constructor (groups: seq<nat>, groupCount: nat, framePut: nat, ghost earlier: nat)
      requires (forall t :: 0 <= t < |groups| ==> groups[t] < groupCount) && framePut == FrameSlot(earlier)
      ensures Valid() && fresh(ring) && fresh(ring.log) && fresh(replayer) && replayer.groups == groups
      ensures ring.history == [] && ring.seen == [] && ring.flips == earlier
        && ring.marks == Repeat<nat>(0, earlier + 1)
      ensures s0 == Start(|groups|, groupCount)
    {
      var r := new ThreadLog(framePut, earlier);
      var p := new Replayer(groups, r.log, groupCount);
      ring, replayer, s0 := r, p, Start(|groups|, groupCount);
      ticks, exclusive, counts := Zeros(|groups|), Zeros(|groups|), Zeros(|groups|);
      total := Walk(Start(|groups|, groupCount), []);
    }

    method Put(e: Entry) returns (overflow: bool)
      requires Valid() && EntryOk(replayer.groups, e)
      modifies ring`put, ring`history, ring.log
      ensures Valid()
      ensures overflow <==> |old(ring.history)| - Mark(ring.marks, |ring.marks| - 1) == BUFFER_SIZE - 1
      ensures ring.history == if overflow then old(ring.history) else old(ring.history) + [e]
    {
      hide Follows, Consistent, Agrees, EntryOk, Mark, SameOpen, TimersAgree;
      FollowsPut(replayer.groups, ring.history, s0, ring.seen, replayer.outside, total, e);
      overflow := ring.LogPut(e);
    }

    method BeginFlip()
      requires Valid()
      modifies ring`framePut, ring`logStart, ring`get, ring`marks
      ensures Valid() && ring.marks == old(ring.marks) + [|ring.history|]
    {
      hide Follows, Consistent, Agrees, SameOpen, TimersAgree;
      ring.BeginFlip();
    }

    /** The frame that ended three flips ago is replayed through the ring as it is now, into cleared totals, and
        these are added up. */
    method ReplayFrame()
      requires Valid() && ring.flips + 2 == |ring.marks|
      modifies this, ring`flips, ring`seen, replayer
      ensures Valid() && ring.flips == old(ring.flips) + 1
      ensures var from, end := |old(ring.seen)|, Mark(ring.marks, ring.flips - FRAME_DELAY);
              from <= end <= |ring.history| && ring.seen == old(ring.seen) + Repeat<nat>(|ring.history|, end - from)
    {
      hide Consistent, Agrees, Mark, ReadsFrame, CoversRing, Slot, Holds, Follows, SameOpen, TimersAgree, Shifted;
      ghost var seen, before := ring.seen, total;
      var a0, a1, b0, b1 := ring.NextFrame();
      ghost var end := Mark(ring.marks, ring.flips - FRAME_DELAY);
      total := FollowFrame(replayer, a0, a1, b0, b1, ring.history, s0, seen, end, before);
      if !replayer.outside {
        Accumulate(before);
      }
    }

    method Accumulate(ghost before: Walk)
      requires replayer.Valid() && !replayer.outside && TimersAgree(ticks, exclusive, counts, before.s)
      requires Shifted(replayer.w, total, before.s)
      modifies `ticks, `exclusive, `counts
      ensures TimersAgree(ticks, exclusive, counts, total.s)
    {
      FrameAgrees(replayer.groups, replayer.All(), replayer.w);
      hide Agrees, TimersAgree;
      AddTimers(replayer.ticks, replayer.exclusive, replayer.counts, before.s, replayer.w.s);
    }

    method AddTimers(ticks1: seq<int>, exclusive1: seq<int>, counts1: seq<int>, ghost x: State, ghost y: State)
      requires TimersAgree(ticks, exclusive, counts, x) && TimersAgree(ticks1, exclusive1, counts1, y)
      requires |ticks1| == |exclusive1| == |counts1|
      requires |x.ticks| == |y.ticks| && |x.exclusive| == |y.exclusive| && |x.counts| == |y.counts|
      modifies `ticks, `exclusive, `counts
      ensures TimersAgree(ticks, exclusive, counts, Shift(y, x))
    {
      hide W, C;
      var i := 0;
      while i < |ticks1|
        invariant 0 <= i <= |ticks1| == |ticks| == |exclusive| == |counts|
        invariant Added(old(ticks), ticks1, ticks, i) && Added(old(exclusive), exclusive1, exclusive, i)
        invariant Added32(old(counts), counts1, counts, i)
      {
        ticks := ticks[i := W(ticks[i] + ticks1[i])];
        counts := counts[i := C(counts[i] + counts1[i])];
        exclusive := exclusive[i := W(exclusive[i] + exclusive1[i])];
        i := i + 1;
      }
      AddWords(old(ticks), x.ticks, ticks1, y.ticks, ticks);
      AddWords(old(exclusive), x.exclusive, exclusive1, y.exclusive, exclusive);
      AddCounts(old(counts), x.counts, counts1, y.counts, counts);
    }

    /** The entries that have been replayed were all read as they were logged, spans from where they were
        opened, if and only if none of them was overwritten by then; and in that case the flips have added up
        what one replay of the thread's entries gives. */
    lemma Exact()
      requires Valid() && |ring.seen| <= |ring.history| && Shallow(0, ring.history[..|ring.seen|])
      ensures LogOk(replayer.groups, ring.history) && StateOk(replayer.groups, s0) && s0.stack == []
      ensures SeenOk(ring.seen, |ring.history|)
      ensures ReadsMeant(replayer.groups, ring.history, s0, ring.seen, |ring.seen|)
         <==> InTime(ring.history, ring.seen, |ring.seen|)
      ensures InTime(ring.history, ring.seen, |ring.seen|) ==>
        && LogOk(replayer.groups, ring.history[..|ring.seen|]) && !replayer.outside
        && TimersAgree(ticks, exclusive, counts, Replay(replayer.groups, s0, ring.history[..|ring.seen|]))
    {
      hide Consistent, ReadsMeant, InTime, Shallow, Replay, Visited, LogOk, StateOk, TimersAgree;
      ReadsAreMeant(replayer.groups, ring.history, s0, ring.seen, |ring.seen|);
    }
  }
}
