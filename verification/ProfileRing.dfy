/** A thread's log in MicroProfile (externals/microprofile/microprofile.h): the thread appends entries to a
    ring buffer, each flip notes how far the thread has come and replays the frame that ended three flips
    ago. */
module ProfileRing {
  import opened ProfileLog
  import opened ProfileReplay

  /** As configured in src/common/microprofile.h: 16 MB of eight-byte entries. */
  const BUFFER_SIZE := 0x20_0000
  const FRAME_HISTORY := 512
  const FRAME_DELAY := 3

  function Repeat<T>(x: T, n: nat): seq<T> {
    seq(n, _ => x)
  }

  // ---------- positions in the ring ----------

  /** Where the entry number `p` of the thread is kept. */
  function Slot(p: int): (r: nat)
    ensures r < BUFFER_SIZE
  {
    p % BUFFER_SIZE
  }

  /** Where the start of frame `f` is kept. */
  function FrameSlot(f: int): (r: nat)
    ensures r < FRAME_HISTORY
  {
    f % FRAME_HISTORY
  }

  lemma SlotStep(p: int, k: int)
    ensures Slot(Slot(p) + k) == Slot(p + k)
  {
    var q := p / BUFFER_SIZE;
    assert p + k == BUFFER_SIZE * q + (Slot(p) + k);
  }

  lemma SlotsDiffer(p: int, q: int)
    requires p < q < p + BUFFER_SIZE
    ensures Slot(p) != Slot(q)
  {
  }

  lemma FrameSlotStep(f: int, k: int)
    ensures FrameSlot(FrameSlot(f) + k) == FrameSlot(f + k)
  {
    var q := f / FRAME_HISTORY;
    assert f + k == FRAME_HISTORY * q + (FrameSlot(f) + k);
  }

  lemma FrameSlotsDiffer(f: int, g: int)
    requires f < g < f + FRAME_HISTORY
    ensures FrameSlot(f) != FrameSlot(g)
  {
  }

  /** The number of the entry that is found where entry `p` was put, after `count` entries. */
  function Latest(p: nat, count: nat): (r: nat)
    requires p < count
    ensures p <= r < count <= r + BUFFER_SIZE && Slot(r) == Slot(p)
    ensures r == p <==> count <= p + BUFFER_SIZE
  {
    p + (count - 1 - p) / BUFFER_SIZE * BUFFER_SIZE
  }

  /** The k-th position of two ranges of the log taken one after the other. */
  function Nth(a0: nat, a1: nat, b0: nat, k: nat): nat
    requires a0 <= a1
  {
    if k < a1 - a0 then a0 + k else b0 + (k - (a1 - a0))
  }

  /** The two ranges are the circular interval from `get` to `put`. */
  ghost predicate CoversRing(a0: nat, a1: nat, b0: nat, b1: nat, get: nat, put: nat) {
    && a0 <= a1 <= BUFFER_SIZE && b0 <= b1 <= BUFFER_SIZE
    && a1 - a0 + (b1 - b0) == Slot(put - get)
    && (forall k :: 0 <= k < Slot(put - get) ==> Nth(a0, a1, b0, k) == Slot(get + k))
  }

  method GetRange(put: nat, get: nat) returns (a0: nat, a1: nat, b0: nat, b1: nat)
    requires put < BUFFER_SIZE && get < BUFFER_SIZE
    ensures CoversRing(a0, a1, b0, b1, get, put)
  {
    a0, a1, b0, b1 := 0, 0, 0, 0;
    if put > get {
      a0, a1, b0, b1 := get, put, 0, 0;
    } else if put != get {
      var countEnd := BUFFER_SIZE - get;
      a0, a1, b0, b1 := get, get + countEnd, 0, put;
    }
  }

  // ---------- what is known of a log ----------

  /** How many entries there were at flip `f`. */
  ghost function Mark(marks: seq<nat>, f: int): nat
    requires f < |marks|
  {
    if f < 0 then 0 else marks[f]
  }

  /** No frame has as many entries as the ring has places. */
  ghost predicate Increasing(marks: seq<nat>) {
    && |marks| > 0 && marks[0] == 0
    && (forall f :: 0 < f < |marks| ==> marks[f - 1] <= marks[f] < marks[f - 1] + BUFFER_SIZE)
  }

  /** The frame table has the start of each of the last 512 frames. */
  ghost predicate Noted(marks: seq<nat>, logStart: seq<nat>, framePut: nat) {
    && |marks| > 0 && |logStart| == FRAME_HISTORY && framePut == FrameSlot(|marks| - 1)
    && (forall f :: |marks| - FRAME_HISTORY <= f < |marks| ==> logStart[FrameSlot(f)] == Slot(Mark(marks, f)))
  }

  /** The last entries are in the ring, as many as fit. */
  ghost predicate Holds(log: seq<Entry>, history: seq<Entry>) {
    && |log| == BUFFER_SIZE
    && (forall p :: 0 <= p < |history| <= p + BUFFER_SIZE ==> log[Slot(p)] == history[p])
  }

  /** Each entry replayed had been put by then; seen[q] is how many had, when entry q was replayed. */
  ghost predicate SeenOk(seen: seq<nat>, count: nat) {
    forall q :: 0 <= q < |seen| ==> q < seen[q] <= count
  }

  lemma PutHolds(log: seq<Entry>, history: seq<Entry>, e: Entry)
    requires Holds(log, history)
    ensures Holds(log[Slot(|history|) := e], history + [e])
  {
    forall p | 0 <= p < |history| + 1 <= p + BUFFER_SIZE
      ensures log[Slot(|history|) := e][Slot(p)] == (history + [e])[p]
    {
      if p < |history| {
        SlotsDiffer(p, |history|);
      }
    }
  }

  /** The next place is taken exactly if the frame has as many entries as the ring can tell apart. */
  lemma FullAt(mark: nat, count: nat)
    requires mark <= count < mark + BUFFER_SIZE
    ensures Slot(count + 1) == Slot(mark) <==> count + 1 == mark + BUFFER_SIZE
  {
    if count + 1 < mark + BUFFER_SIZE {
      SlotsDiffer(mark, count + 1);
    }
  }

  lemma FlipNotes(marks: seq<nat>, count: nat, logStart: seq<nat>, framePut: nat)
    requires Noted(marks, logStart, framePut)
    ensures |logStart| == FRAME_HISTORY
    ensures var p := (framePut + 1) % FRAME_HISTORY; Noted(marks + [count], logStart[p := Slot(count)], p)
  {
    var p, n := (framePut + 1) % FRAME_HISTORY, |marks|;
    FrameSlotStep(n - 1, 1);
    forall f | n + 1 - FRAME_HISTORY <= f < n + 1
      ensures logStart[p := Slot(count)][FrameSlot(f)] == Slot(Mark(marks + [count], f))
    {
      if f < n {
        FrameSlotsDiffer(f, n);
        assert Mark(marks + [count], f) == Mark(marks, f);
      }
    }
  }

  lemma {:induction false} MarksIncrease(marks: seq<nat>, f: int, g: int)
    requires Increasing(marks) && f <= g < |marks|
    ensures Mark(marks, f) <= Mark(marks, g)
    decreases g - f
  {
    if f < g && g > 0 {
      MarksIncrease(marks, f, g - 1);
    }
  }

  /** The places of the frame table that a flip reads. */
  /** Where the frame table has the frame to be replayed, when `framePut` is where it has the latest. */
  function CurrentFrame(framePut: nat): (r: nat)
    ensures r < FRAME_HISTORY
  {
    (framePut + FRAME_HISTORY - FRAME_DELAY - 1) % FRAME_HISTORY
  }

  function FollowingFrame(frame: nat): (r: nat)
    ensures r < FRAME_HISTORY
  {
    (frame + 1) % FRAME_HISTORY
  }

  lemma FrameAround(f: int)
    ensures FrameSlot(f + FRAME_HISTORY) == FrameSlot(f)
  {
  }

  lemma FrameBack(f: int)
    ensures CurrentFrame(FrameSlot(f)) == FrameSlot(f - FRAME_DELAY - 1)
    ensures FollowingFrame(CurrentFrame(FrameSlot(f))) == FrameSlot(f - FRAME_DELAY)
  {
    var a, b := FrameSlot(f) + (FRAME_HISTORY - FRAME_DELAY - 1), FrameSlot(f - FRAME_DELAY - 1) + 1;
    assert a % FRAME_HISTORY == FrameSlot(a) && b % FRAME_HISTORY == FrameSlot(b);
    hide FrameSlot;
    FrameSlotStep(f, FRAME_HISTORY - FRAME_DELAY - 1);
    FrameAround(f - FRAME_DELAY - 1);
    FrameSlotStep(f - FRAME_DELAY - 1, 1);
  }

  lemma FramesRead(marks: seq<nat>, logStart: seq<nat>, framePut: nat)
    requires Noted(marks, logStart, framePut)
    ensures |logStart| == FRAME_HISTORY
    ensures var current := CurrentFrame(framePut);
            && logStart[current] == Slot(Mark(marks, |marks| - 1 - FRAME_DELAY - 1))
            && logStart[FollowingFrame(current)] == Slot(Mark(marks, |marks| - 1 - FRAME_DELAY))
  {
    var f := |marks| - 1;
    FrameBack(f);
    hide FrameSlot, Slot, Mark;
    assert FrameSlot(f) == framePut;
    hide CurrentFrame, FollowingFrame;
  }

  /** The entries of a frame are found in order where they were put: each unless a later one has taken
      its place. */
  /** What the two ranges hold. */
  function InRanges(log: seq<Entry>, a0: nat, a1: nat, b0: nat, b1: nat): seq<Entry>
    requires a0 <= a1 <= |log| && b0 <= b1 <= |log|
  {
    log[a0..a1] + log[b0..b1]
  }

  lemma WindowRead(log: seq<Entry>, history: seq<Entry>, from: nat, to: nat,
                   a0: nat, a1: nat, b0: nat, b1: nat, k: nat)
    requires Holds(log, history) && from <= to < from + BUFFER_SIZE && to <= |history|
    requires CoversRing(a0, a1, b0, b1, Slot(from), Slot(to)) && k < to - from
    ensures |InRanges(log, a0, a1, b0, b1)| == to - from
    ensures InRanges(log, a0, a1, b0, b1)[k] == history[Latest(from + k, |history|)]
  {
    SlotStep(from, k);
    WindowSize(from, to);
    var p := Latest(from + k, |history|);
    assert Nth(a0, a1, b0, k) == Slot(Slot(from) + k);
    assert log[Slot(p)] == history[p];
  }

  lemma WindowSize(from: nat, to: nat)
    requires from <= to < from + BUFFER_SIZE
    ensures Slot(Slot(to) - Slot(from)) == to - from
  {
    var start: int := Slot(from);
    SlotStep(to, -start);
    var q := from / BUFFER_SIZE;
    assert to - Slot(from) == BUFFER_SIZE * q + (to - from);
  }

  lemma FrameBounds(marks: seq<nat>, f: int)
    requires Increasing(marks) && f + 1 < |marks|
    ensures Mark(marks, f) <= Mark(marks, f + 1) <= Mark(marks, |marks| - 1)
    ensures Mark(marks, f + 1) < Mark(marks, f) + BUFFER_SIZE
  {
    MarksIncrease(marks, f + 1, |marks| - 1);
  }

  /** `w` is what the places of the entries from..to hold by now. */
  ghost predicate ReadsFrame(w: seq<Entry>, history: seq<Entry>, from: nat, to: nat) {
    && from <= to <= |history| && |w| == to - from
    && (forall k :: 0 <= k < |w| ==> w[k] == history[Latest(from + k, |history|)])
  }

  lemma RangesAreFrame(log: seq<Entry>, history: seq<Entry>, from: nat, to: nat, a0: nat, a1: nat, b0: nat, b1: nat)
    requires Holds(log, history) && from <= to < from + BUFFER_SIZE && to <= |history|
    requires CoversRing(a0, a1, b0, b1, Slot(from), Slot(to))
    ensures a0 <= a1 <= |log| && b0 <= b1 <= |log|
    ensures ReadsFrame(InRanges(log, a0, a1, b0, b1), history, from, to)
  {
    WindowSize(from, to);
    forall k | 0 <= k < to - from
      ensures InRanges(log, a0, a1, b0, b1)[k] == history[Latest(from + k, |history|)]
    {
      WindowRead(log, history, from, to, a0, a1, b0, b1, k);
    }
  }

  /** A frame is found as it was put if and only if it is empty or not more entries than the ring has places
      were put from its beginning on. */
  lemma FrameIsIntact(from: nat, to: nat, count: nat)
    requires from <= to <= count
    ensures (forall q :: from <= q < to ==> Latest(q, count) == q) <==> from == to || count <= from + BUFFER_SIZE
  {
    if from < to {
      assert Latest(from, count) == from <==> count <= from + BUFFER_SIZE;
    }
  }

  lemma PlaceHolds(log: seq<Entry>, history: seq<Entry>, q: nat)
    requires Holds(log, history) && q < |history|
    ensures |log| == BUFFER_SIZE && log[Slot(q)] == history[Latest(q, |history|)]
  {
    var p := Latest(q, |history|);
    assert log[Slot(p)] == history[p];
  }

  /** What a log keeps from call to call.  The last four are its past: all entries accepted so far, how many
      there were at each flip, how many frames have been replayed, and when each of their entries was. */
  ghost predicate Consistent(log: seq<Entry>, put: nat, get: nat, logStart: seq<nat>, framePut: nat,
                             history: seq<Entry>, marks: seq<nat>, flips: nat, seen: seq<nat>) {
    && Increasing(marks) && Noted(marks, logStart, framePut) && Holds(log, history)
    && Mark(marks, |marks| - 1) <= |history| < Mark(marks, |marks| - 1) + BUFFER_SIZE
    && flips < |marks| && |seen| == Mark(marks, flips - FRAME_DELAY) && SeenOk(seen, |history|)
    && put == Slot(|history|) && get == Slot(Mark(marks, |marks| - 1))
  }

  lemma PutKeeps(log: seq<Entry>, put: nat, get: nat, logStart: seq<nat>, framePut: nat,
                 history: seq<Entry>, marks: seq<nat>, flips: nat, seen: seq<nat>, e: Entry)
    requires Consistent(log, put, get, logStart, framePut, history, marks, flips, seen)
    ensures put < |log| == BUFFER_SIZE && |marks| > 0
    ensures var next := (put + 1) % BUFFER_SIZE;
            && (next == get <==> |history| - Mark(marks, |marks| - 1) == BUFFER_SIZE - 1)
            && (next != get ==>
                  Consistent(log[put := e], next, get, logStart, framePut, history + [e], marks, flips, seen))
  {
    SlotStep(|history|, 1);
    FullAt(Mark(marks, |marks| - 1), |history|);
    PutHolds(log, history, e);
    assert |log| == BUFFER_SIZE;
    hide Slot, Holds, Noted, Increasing, Mark;
  }

  lemma MarkAppended(marks: seq<nat>, count: nat)
    requires Increasing(marks) && Mark(marks, |marks| - 1) <= count < Mark(marks, |marks| - 1) + BUFFER_SIZE
    ensures Increasing(marks + [count])
  {
  }

  lemma FlipKeeps(log: seq<Entry>, put: nat, get: nat, logStart: seq<nat>, framePut: nat,
                  history: seq<Entry>, marks: seq<nat>, flips: nat, seen: seq<nat>)
    requires Consistent(log, put, get, logStart, framePut, history, marks, flips, seen)
    ensures var p := (framePut + 1) % FRAME_HISTORY;
            && |logStart| == FRAME_HISTORY
            && Consistent(log, put, put, logStart[p := put], p, history, marks + [|history|], flips, seen)
  {
    FlipNotes(marks, |history|, logStart, framePut);
    MarkAppended(marks, |history|);
    hide Slot, Holds, Noted, Increasing;
  }

  lemma ReadKeeps(log: seq<Entry>, put: nat, get: nat, logStart: seq<nat>, framePut: nat,
                  history: seq<Entry>, marks: seq<nat>, flips: nat, seen: seq<nat>,
                  a0: nat, a1: nat, b0: nat, b1: nat)
    requires Consistent(log, put, get, logStart, framePut, history, marks, flips, seen)
    requires flips + 2 == |marks|
    requires CoversRing(a0, a1, b0, b1, Slot(Mark(marks, flips - FRAME_DELAY)),
      Slot(Mark(marks, flips + 1 - FRAME_DELAY)))
    ensures a0 <= a1 <= |log| && b0 <= b1 <= |log| && Holds(log, history)
    ensures var from, to := |seen|, Mark(marks, flips + 1 - FRAME_DELAY);
            && from <= to < from + BUFFER_SIZE && ReadsFrame(InRanges(log, a0, a1, b0, b1), history, from, to)
            && Consistent(log, put, get, logStart, framePut, history, marks, flips + 1,
                          seen + Repeat<nat>(|history|, to - from))
  {
    hide Slot, Holds, Noted, Increasing, Mark, ReadsFrame, CoversRing;
    FrameBounds(marks, flips - FRAME_DELAY);
    RangesAreFrame(log, history, |seen|, Mark(marks, flips + 1 - FRAME_DELAY), a0, a1, b0, b1);
  }

  lemma NextPlaces(log: seq<Entry>, put: nat, get: nat, logStart: seq<nat>, framePut: nat,
                   history: seq<Entry>, marks: seq<nat>, flips: nat, seen: seq<nat>)
    requires Consistent(log, put, get, logStart, framePut, history, marks, flips, seen) && flips + 2 == |marks|
    ensures |logStart| == FRAME_HISTORY && |seen| == Mark(marks, flips - FRAME_DELAY)
    ensures Mark(marks, flips + 1 - FRAME_DELAY) <= |history|
    ensures var current := CurrentFrame(framePut);
            && logStart[current] == Slot(|seen|)
            && logStart[FollowingFrame(current)] == Slot(Mark(marks, flips + 1 - FRAME_DELAY))
  {
    hide Slot, Holds, Noted, Increasing, Mark, SeenOk;
    FramesRead(marks, logStart, framePut);
    MarksIncrease(marks, flips + 1 - FRAME_DELAY, |marks| - 1);
  }

  lemma ReadsAll(log: seq<Entry>, a0: nat, a1: nat, b0: nat, b1: nat, history: seq<Entry>, from: nat, to: nat)
    requires a0 <= a1 <= |log| && b0 <= b1 <= |log| && from <= to <= |history|
    requires ReadsFrame(InRanges(log, a0, a1, b0, b1), history, from, to)
    ensures a1 - a0 + (b1 - b0) == to - from
  {
    assert |InRanges(log, a0, a1, b0, b1)| == to - from;
  }

  class ThreadLog {
    const log: array<Entry>
    var put: nat
    var get: nat
    var logStart: seq<nat>
    var framePut: nat
    ghost var history: seq<Entry>
    ghost var marks: seq<nat>
    ghost var flips: nat
    ghost var seen: seq<nat>

    ghost predicate Valid()
      reads this, log
    {
      Consistent(log[..], put, get, logStart, framePut, history, marks, flips, seen)
    }

    /** A log that is created, or given to another thread, after some flips: the frame table says 0 for all
        of them. */
    constructor (framePut: nat, ghost earlier: nat)
      requires framePut == FrameSlot(earlier)
      ensures Valid() && fresh(log) && history == [] && seen == []
      ensures marks == Repeat<nat>(0, earlier + 1) && flips == earlier
    {
      log := new Entry[BUFFER_SIZE](_ => Leave(0, 0));
      put, get, logStart, this.framePut := 0, 0, seq(FRAME_HISTORY, _ => 0), framePut;
      history, marks, flips, seen := [], Repeat<nat>(0, earlier + 1), earlier, [];
    }

    /** An entry is dropped exactly if the frame is full. */
    method LogPut(e: Entry) returns (overflow: bool)
      requires Valid()
      modifies `put, `history, log
      ensures Valid()
      ensures overflow <==> |old(history)| - Mark(marks, |marks| - 1) == BUFFER_SIZE - 1
      ensures history == if overflow then old(history) else old(history) + [e]
    {
      hide Consistent, Mark;
      PutKeeps(log[..], put, get, logStart, framePut, history, marks, flips, seen, e);
      var nextPos := (put + 1) % BUFFER_SIZE;
      if nextPos == get {
        overflow := true;
      } else {
        overflow := false;
        ghost var before := log[..];
        log[put] := e;
        assert log[..] == before[put := e];
        put := nextPos;
        history := history + [e];
      }
    }

    /** The first half of a flip: the frame that ends now is noted, and the thread may fill the next. */
    method BeginFlip()
      requires Valid()
      modifies `framePut, `logStart, `get, `marks
      ensures Valid() && marks == old(marks) + [|history|]
    {
      hide Consistent;
      FlipKeeps(log[..], put, get, logStart, framePut, history, marks, flips, seen);
      framePut := (framePut + 1) % FRAME_HISTORY;
      logStart := logStart[framePut := put];
      get := put;
      marks := marks + [|history|];
    }

    /** The second half, before which the thread may have put more: the two ranges hold, in order, what is
        now at the places of the next entries, up to those put three flips ago. */
    method NextFrame() returns (a0: nat, a1: nat, b0: nat, b1: nat)
      requires Valid() && flips + 2 == |marks|
      modifies `flips, `seen
      ensures Valid() && flips == old(flips) + 1
      ensures a0 <= a1 <= log.Length && b0 <= b1 <= log.Length && Holds(log[..], history)
      ensures var from, to := |old(seen)|, Mark(marks, flips - FRAME_DELAY);
              && from <= to <= |history| && to < from + BUFFER_SIZE
              && seen == old(seen) + Repeat<nat>(|history|, to - from)
              && CoversRing(a0, a1, b0, b1, Slot(from), Slot(to)) && a1 - a0 + (b1 - b0) == to - from
              && ReadsFrame(InRanges(log[..], a0, a1, b0, b1), history, from, to)
    {
      var current := CurrentFrame(framePut);
      var next := FollowingFrame(current);
      hide Consistent, Mark, CoversRing, Slot, Holds, ReadsFrame, InRanges, CurrentFrame, FollowingFrame;
      NextPlaces(log[..], put, get, logStart, framePut, history, marks, flips, seen);
      ghost var from, to := |seen|, Mark(marks, flips + 1 - FRAME_DELAY);
      a0, a1, b0, b1 := GetRange(logStart[next], logStart[current]);
      ReadKeeps(log[..], put, get, logStart, framePut, history, marks, flips, seen, a0, a1, b0, b1);
      ReadsAll(log[..], a0, a1, b0, b1, history, from, to);
      flips, seen := flips + 1, seen + Repeat<nat>(|history|, to - from);
    }
  }

  // ---------- a frame that is lost ----------

  method PutMany(t: ThreadLog, e: Entry, n: nat)
    requires t.Valid() && |t.history| + n < Mark(t.marks, |t.marks| - 1) + BUFFER_SIZE
    modifies t`put, t`history, t.log
    ensures t.Valid() && t.history == old(t.history) + Repeat(e, n)
  {
    hide Consistent, Mark;
    for i := 0 to n
      invariant t.Valid() && t.history == old(t.history) + Repeat(e, i)
    {
      var overflow := t.LogPut(e);
      assert Repeat(e, i) + [e] == Repeat(e, i + 1);
    }
  }

  /** A flip that has nothing to replay yet. */
  method QuietFlip(t: ThreadLog)
    requires t.Valid() && t.flips + 1 == |t.marks| && Mark(t.marks, t.flips - 2) == |t.seen|
    modifies t`framePut, t`logStart, t`get, t`marks, t`flips, t`seen
    ensures t.Valid() && t.marks == old(t.marks) + [|t.history|]
    ensures t.flips == old(t.flips) + 1 && t.seen == old(t.seen)
  {
    hide Consistent, CoversRing, ReadsFrame, Holds, Slot;
    t.BeginFlip();
    assert Mark(t.marks, t.flips - 2) == |t.seen|;
    hide Mark;
    var a0, a1, b0, b1 := t.NextFrame();
    assert t.seen == old(t.seen);
  }

  /** A thread fills a frame and goes on: before that frame is replayed, three flips later, its first entry
      has been overwritten. */
  method LoseFrame() returns (t: ThreadLog, first: Entry)
    ensures t.Valid() && |t.history| == BUFFER_SIZE + 1 && t.history[0] == Other(1) && first == Other(2)
    ensures t.seen == Repeat<nat>(BUFFER_SIZE + 1, BUFFER_SIZE - 1) && Latest(0, t.seen[0]) == BUFFER_SIZE
  {
    hide Consistent, CoversRing, ReadsFrame, Holds, Slot;
    t := new ThreadLog(0, 0);
    assert t.marks == [0];
    PutMany(t, Other(1), BUFFER_SIZE - 1);
    QuietFlip(t);
    assert t.marks == [0, BUFFER_SIZE - 1];
    PutMany(t, Other(2), 2);
    assert t.history == Repeat(Other(1), BUFFER_SIZE - 1) + Repeat(Other(2), 2);
    QuietFlip(t);
    QuietFlip(t);
    first := ReadFirst(t);
  }

  method ReadFirst(t: ThreadLog) returns (first: Entry)
    requires t.Valid() && t.seen == [] && t.flips == 3 && |t.marks| == 4 && 0 < t.marks[1] <= |t.history|
    modifies t`framePut, t`logStart, t`get, t`marks, t`flips, t`seen
    ensures t.Valid() && t.seen == Repeat<nat>(|t.history|, old(t.marks)[1])
    ensures first == t.history[Latest(0, |t.history|)]
  {
    hide Consistent, CoversRing, ReadsFrame, Holds, Slot;
    ghost var to := t.marks[1];
    t.BeginFlip();
    assert Mark(t.marks, 1) == to;
    hide Mark;
    var a0, a1, b0, b1 := t.NextFrame();
    assert t.seen == Repeat<nat>(|t.history|, to);
    FirstRead(InRanges(t.log[..], a0, a1, b0, b1), t.history, to);
    first := if a0 < a1 then t.log[a0] else t.log[b0];
  }

  lemma FirstRead(w: seq<Entry>, history: seq<Entry>, to: nat)
    requires ReadsFrame(w, history, 0, to) && to > 0
    ensures |w| == to && w[0] == history[Latest(0, |history|)]
  {
  }
}
