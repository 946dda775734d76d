/** A span that stays open while the ring goes once around: every frame is replayed in time, but what is at the
    place of the entry that opened the span is another entry by the time the span is left. */
module ProfileLost {
  import opened Wrappers
  import opened ProfileLog
  import opened ProfileReplay
  import opened ProfileSpans
  import opened ProfileFrames
  import opened ProfileRing
  import opened ProfileVisits
  import opened ProfileReplayer
  import opened ProfileThread

  const GROUPS: seq<nat> := [0]

  /** Timer 0 is entered at tick 0 and left at tick 100, with 2^21 other entries of tick 7 in between. */
  function LongLog(): (r: seq<Entry>)
    ensures |r| == BUFFER_SIZE + 2 && r[0] == Enter(0, 0) && r[BUFFER_SIZE + 1] == Leave(0, 100)
    ensures forall q :: 1 <= q <= BUFFER_SIZE ==> r[q] == Other(7)
    ensures LogOk(GROUPS, r)
  {
    [Enter(0, 0)] + Repeat(Other(7), BUFFER_SIZE) + [Leave(0, 100)]
  }

  function Begun(): (s: State)
    ensures StateOk(GROUPS, s) && s.stack == []
  {
    Start(1, 1)
  }

  function Entered(): (s: State)
    ensures StateOk(GROUPS, s) && s == Push(GROUPS, Begun(), Enter(0, 0)) && s.stack == [Enter(0, 0)]
    ensures s.child == [0, 0] && s.ticks == [0] && s.groupPos == [1]
  {
    Push(GROUPS, Begun(), Enter(0, 0))
  }

  /** Each entry is replayed before its own place is taken. */
  ghost predicate EachInTime(seen: seq<nat>) {
    && |seen| == BUFFER_SIZE + 2 && SeenOk(seen, BUFFER_SIZE + 2)
    && forall q :: 0 <= q < |seen| ==> seen[q] <= q + BUFFER_SIZE
  }

  lemma SeenInTime(seen: seq<nat>, q: nat)
    requires EachInTime(seen) && q <= BUFFER_SIZE + 1
    ensures q < |seen| && SeenOk(seen, |LongLog()|) && q < seen[q] <= |LongLog()| && Latest(q, seen[q]) == q
  {
  }

  lemma FirstVisit(count: nat)
    requires 0 < count <= |LongLog()| && Latest(0, count) == 0
    ensures WalkOk(GROUPS, Walk(Begun(), []), 0)
    ensures VisitStep(GROUPS, LongLog(), Walk(Begun(), []), 0, count) == Some(Walk(Entered(), [0]))
  {
    hide LongLog, Begun, Entered, Latest, StateOk;
    assert [] + [0] == [0];
  }

  lemma OtherVisit(q: nat, count: nat)
    requires 1 <= q <= BUFFER_SIZE && q < count <= |LongLog()| && Latest(q, count) == q
    ensures WalkOk(GROUPS, Walk(Entered(), [0]), q)
    ensures VisitStep(GROUPS, LongLog(), Walk(Entered(), [0]), q, count) == Some(Walk(Entered(), [0]))
  {
    hide LongLog, Begun, Entered, Latest, StateOk;
  }

  lemma {:induction false} StillOpen(seen: seq<nat>, n: nat)
    requires EachInTime(seen) && 1 <= n <= BUFFER_SIZE + 1
    ensures Visited(GROUPS, LongLog(), Begun(), seen, n) == Some(Walk(Entered(), [0]))
    decreases n
  {
    hide LongLog, Begun, Entered, Latest, EachInTime, VisitStep, StateOk, LogOk, WalkOk;
    SeenInTime(seen, n - 1);
    if n == 1 {
      FirstVisit(seen[0]);
    } else {
      StillOpen(seen, n - 1);
      OtherVisit(n - 1, seen[n - 1]);
    }
  }

  lemma {:induction false} IdleReplay(s: State, es: seq<Entry>)
    requires StateOk(GROUPS, s) && forall k :: 0 <= k < |es| ==> es[k] == Other(7)
    ensures LogOk(GROUPS, es) && Shallow(|s.stack|, es) && Replay(GROUPS, s, es) == s
    decreases |es|
  {
    if es != [] {
      IdleReplay(s, es[1..]);
    }
  }

  lemma CountedWith(d: int)
    ensures Close(GROUPS, Entered(), Leave(0, 100), d).ticks == [d]
  {
  }

  lemma Differences()
    ensures TickDifference(0, 100) == 100 && TickDifference(7, 100) == 93
  {
  }

  lemma LongLogParts()
    ensures LongLog() == [Enter(0, 0)] + (Repeat(Other(7), BUFFER_SIZE) + ([Leave(0, 100)] + []))
  {
  }

  lemma LongEntries()
    ensures EntryOk(GROUPS, Enter(0, 0)) && EntryOk(GROUPS, Leave(0, 100)) && LogOk(GROUPS, [])
  {
  }

  lemma LeftAfter100()
    requires EntryOk(GROUPS, Leave(0, 100))
    ensures Pop(GROUPS, Entered(), Leave(0, 100)).ticks == [100]
  {
    Differences();
    CountedWith(100);
    hide TickDifference;
  }

  lemma {:induction false} ReplayOfParts(enter: Entry, mid: seq<Entry>, leave: Entry, tail: seq<Entry>)
    requires enter == Enter(0, 0) && leave == Leave(0, 100) && forall k :: 0 <= k < |mid| ==> mid[k] == Other(7)
    requires LogOk(GROUPS, tail)
    ensures EntryOk(GROUPS, leave) && StateOk(GROUPS, Pop(GROUPS, Entered(), leave))
    ensures var es := [enter] + (mid + ([leave] + tail));
            && LogOk(GROUPS, es)
            && Replay(GROUPS, Begun(), es) == Replay(GROUPS, Pop(GROUPS, Entered(), leave), tail)
  {
    hide Replay, Begun, Entered, Shallow, Push, Pop, StateOk, LogOk, EntryOk;
    IdleReplay(Entered(), mid);
    LongEntries();
    ReplayBracket(GROUPS, Begun(), enter, mid, leave, tail, Entered(), Entered());
  }

  lemma ReplayOfLong()
    ensures Replay(GROUPS, Begun(), LongLog()).ticks == [100]
  {
    hide Replay, LongLog, Begun, Entered, Pop, StateOk, EntryOk, LogOk;
    LongEntries();
    LongLogParts();
    LeftAfter100();
    ReplayOfParts(Enter(0, 0), Repeat(Other(7), BUFFER_SIZE), Leave(0, 100), []);
    NothingReplayed(Pop(GROUPS, Entered(), Leave(0, 100)));
  }

  lemma NothingReplayed(s: State)
    requires StateOk(GROUPS, s)
    ensures LogOk(GROUPS, []) && Replay(GROUPS, s, []) == s
  {
  }

  lemma LastVisit(w: Walk)
    requires w == Walk(Entered(), [0])
    ensures WalkOk(GROUPS, w, BUFFER_SIZE + 1)
    ensures var r := VisitStep(GROUPS, LongLog(), w, BUFFER_SIZE + 1, BUFFER_SIZE + 2);
            r.Some? && r.value.s.ticks == [93]
  {
    var q := BUFFER_SIZE + 1;
    assert Latest(q, q + 1) == q && Latest(0, q + 1) == BUFFER_SIZE;
    Differences();
    CountedWith(93);
    hide LongLog, Begun, Entered, Latest, TickDifference, Close, StateOk;
  }

  /** The span of 100 ticks is counted with 93, because its start is read from entry 2^21; one replay of the
      entries counts 100. */
  lemma LostSpan(seen: seq<nat>)
    requires EachInTime(seen)
    ensures var w := Visited(GROUPS, LongLog(), Begun(), seen, |seen|); w.Some? && w.value.s.ticks == [93]
    ensures Replay(GROUPS, Begun(), LongLog()).ticks == [100]
    ensures ReadAt(GROUPS, LongLog(), Begun(), seen, BUFFER_SIZE + 1) == [BUFFER_SIZE + 1, BUFFER_SIZE]
  {
    var q := BUFFER_SIZE + 1;
    assert seen[q] == q + 1 && |seen| == q + 1 && Latest(q, q + 1) == q && Latest(0, q + 1) == BUFFER_SIZE;
    hide LongLog, Begun, Entered, Latest, Replay, VisitStep, StateOk, WalkOk, LogOk;
    StillOpen(seen, q);
    ReplayOfLong();
    LastVisit(Walk(Entered(), [0]));
  }

  // ---------- such a thread ----------

  const LAST := BUFFER_SIZE + 2

  function AtMost(j: nat): nat {
    if j < LAST then j else LAST
  }

  function SeenAt(q: nat): nat {
    AtMost(q + FRAME_DELAY + 1)
  }

  /** One entry before each flip, as long as there are entries. */
  ghost function MarksAfter(f: nat): seq<nat> {
    seq(f + 1, (j: nat) => AtMost(j))
  }

  /** Each entry is replayed three flips later. */
  ghost function SeenAfter(f: nat): seq<nat> {
    seq(if f < FRAME_DELAY then 0 else f - FRAME_DELAY, (q: nat) => SeenAt(q))
  }

  lemma OneMoreFlip(f: nat)
    ensures MarksAfter(f) + [AtMost(f + 1)] == MarksAfter(f + 1)
    ensures var end := Mark(MarksAfter(f + 1), f + 1 - FRAME_DELAY);
            f < LAST + FRAME_DELAY ==>
              |MarksAfter(f)| == f + 1 && |SeenAfter(f)| <= end
              && SeenAfter(f) + Repeat<nat>(AtMost(f + 1), end - |SeenAfter(f)|) == SeenAfter(f + 1)
  {
  }

  lemma AllSeen()
    ensures EachInTime(SeenAfter(LAST + FRAME_DELAY))
  {
    var seen := SeenAfter(LAST + FRAME_DELAY);
    assert |seen| == LAST;
    assert forall q :: 0 <= q < |seen| ==> q < seen[q] == SeenAt(q) <= LAST;
  }

  ghost predicate Reached(p: ThreadProfile, f: nat)
    reads p, p.ring, p.ring.log, p.replayer
  {
    && p.Valid() && p.replayer.groups == GROUPS && p.s0 == Begun()
    && p.ring.history == LongLog()[..AtMost(f)] && p.ring.flips == f && p.ring.marks == MarksAfter(f)
    && p.ring.seen == SeenAfter(f)
  }

  lemma NextOf(f: nat)
    requires f < LAST
    ensures EntryOk(GROUPS, LongLog()[f]) && LongLog()[..f] + [LongLog()[f]] == LongLog()[..f + 1]
    ensures |LongLog()| == LAST && Mark(MarksAfter(f), |MarksAfter(f)| - 1) == f
  {
  }

  method PutNext(p: ThreadProfile, f: nat)
    requires Reached(p, f)
    modifies p.ring`put, p.ring`history, p.ring.log
    ensures p.Valid() && p.ring.history == LongLog()[..AtMost(f + 1)]
  {
    if f < LAST {
      NextOf(f);
      var e := LongLog()[f];
      hide Consistent, Follows, Agrees, MarksAfter, SeenAfter, Begun, Mark, EntryOk, LongLog;
      var overflow := p.Put(e);
    }
  }

  method OneFlip(p: ThreadProfile, f: nat)
    requires f < LAST + FRAME_DELAY && Reached(p, f)
    modifies p, p.ring, p.ring.log, p.replayer
    ensures Reached(p, f + 1)
  {
    hide Consistent, Follows, Agrees, MarksAfter, SeenAfter, Begun, Mark, LongLog;
    OneMoreFlip(f);
    PutNext(p, f);
    assert |p.ring.history| == AtMost(f + 1);
    p.BeginFlip();
    p.ReplayFrame();
  }

  /** A thread that does this: all its entries have been replayed, each in time, and the timer has 93 ticks. */
  method LoseSpan() returns (p: ThreadProfile)
    ensures p.Valid() && p.replayer.groups == GROUPS && p.s0 == Begun() && p.ring.history == LongLog()
    ensures EachInTime(p.ring.seen) && !p.replayer.outside && p.ticks == [93]
  {
    p := new ThreadProfile(GROUPS, 1, 0, 0);
    assert Reached(p, 0);
    hide LongLog, Begun, MarksAfter, SeenAfter;
    var f := 0;
    while f < LAST + FRAME_DELAY
      invariant 0 <= f <= LAST + FRAME_DELAY && Reached(p, f) && fresh(p) && fresh(p.ring) && fresh(p.ring.log)
      invariant fresh(p.replayer)
    {
      OneFlip(p, f);
      f := f + 1;
    }
    AllSeen();
    assert LongLog()[..LAST] == LongLog();
    LostSpan(p.ring.seen);
    TicksOf(p);
  }

  lemma TicksAre(ticks: seq<int>, exclusive: seq<int>, counts: seq<int>, s: State)
    requires TimersAgree(ticks, exclusive, counts, s) && s.ticks == [93]
    ensures ticks == [93]
  {
  }

  lemma TicksOf(p: ThreadProfile)
    requires p.Valid() && !p.replayer.outside && p.total.s.ticks == [93]
    ensures p.ticks == [93]
  {
    hide Follows, Consistent, Agrees, SameOpen, TimersAgree;
    TicksAre(p.ticks, p.exclusive, p.counts, p.total.s);
  }
}
