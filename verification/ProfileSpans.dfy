/** What the accounts of a replay mean: the log of a thread is the trace of a forest of nested spans, and
    every total is a sum over that forest. */
module ProfileSpans {
  import opened ProfileLog
  import opened ProfileReplay

  /** A span with its children and the span that follows it. */
  datatype Forest = Nil | Span(timer: nat, start: int, end: int, children: Forest, next: Forest)

  predicate ForestOk(groups: seq<nat>, f: Forest) {
    f.Nil? || (&& f.timer < |groups| && 0 <= f.start < TICKS && 0 <= f.end < TICKS
               && ForestOk(groups, f.children) && ForestOk(groups, f.next))
  }

  function Trace(f: Forest): seq<Entry> {
    match f
    case Nil => []
    case Span(t, a, b, children, next) => [Enter(t, a)] + Trace(children) + [Leave(t, b)] + Trace(next)
  }

  function Depth(f: Forest): nat {
    match f
    case Nil => 0
    case Span(_, _, _, children, next) =>
      if 1 + Depth(children) >= Depth(next) then 1 + Depth(children) else Depth(next)
  }

  function Duration(groups: seq<nat>, f: Forest): int
    requires ForestOk(groups, f) && f.Span?
  {
    TickDifference(f.start, f.end)
  }

  /** The time of the top spans of a forest. */
  function TopTime(groups: seq<nat>, f: Forest): int
    requires ForestOk(groups, f)
  {
    if f.Nil? then 0 else Duration(groups, f) + TopTime(groups, f.next)
  }

  /** The time of all spans of a timer. */
  function Inclusive(groups: seq<nat>, f: Forest, t: nat): int
    requires ForestOk(groups, f)
  {
    if f.Nil? then 0
    else
      (if f.timer == t then Duration(groups, f) else 0)
      + Inclusive(groups, f.children, t) + Inclusive(groups, f.next, t)
  }

  /** The same, less the time of their direct children. */
  function Exclusive(groups: seq<nat>, f: Forest, t: nat): int
    requires ForestOk(groups, f)
  {
    if f.Nil? then 0
    else (if f.timer == t then Duration(groups, f) - TopTime(groups, f.children) else 0)
         + Exclusive(groups, f.children, t) + Exclusive(groups, f.next, t)
  }

  function Count(f: Forest, t: nat): int {
    if f.Nil? then 0 else (if f.timer == t then 1 else 0) + Count(f.children, t) + Count(f.next, t)
  }

  /** The time of the spans of a group that are not inside another span of the group. */
  function GroupTime(groups: seq<nat>, f: Forest, g: nat, inside: bool): int
    requires ForestOk(groups, f)
  {
    if f.Nil? then 0
    else if groups[f.timer] == g then
      (if inside then 0 else Duration(groups, f))
      + GroupTime(groups, f.children, g, true) + GroupTime(groups, f.next, g, inside)
    else GroupTime(groups, f.children, g, inside) + GroupTime(groups, f.next, g, inside)
  }

  // ---------- replaying one log after the other ----------

  lemma {:induction false} ReplayAppend(groups: seq<nat>, s: State, a: seq<Entry>, b: seq<Entry>)
    requires StateOk(groups, s) && LogOk(groups, a) && LogOk(groups, b) && Shallow(|s.stack|, a)
    ensures LogOk(groups, a + b) && Replay(groups, s, a + b) == Replay(groups, Replay(groups, s, a), b)
    decreases |a|
  {
    if a == [] {
      assert a + b == b;
    } else {
      assert EntryOk(groups, a[0]);
      assert (a + b)[1..] == a[1..] + b;
      ReplayAppend(groups, Step(groups, s, a[0]), a[1..], b);
    }
  }

  lemma {:induction false} TraceOk(groups: seq<nat>, f: Forest)
    requires ForestOk(groups, f)
    ensures LogOk(groups, Trace(f))
  {
    if f.Span? {
      TraceOk(groups, f.children);
      TraceOk(groups, f.next);
    }
  }

  lemma {:induction false} ShallowAppend(d: nat, a: seq<Entry>, e: nat, b: seq<Entry>)
    requires Shallow(d, a) && DepthAfter(d, a) == e && Shallow(e, b)
    ensures Shallow(d, a + b) && DepthAfter(d, a + b) == DepthAfter(e, b)
    decreases |a|
  {
    if a == [] {
      assert a + b == b;
    } else {
      assert (a + b)[1..] == a[1..] + b;
      ShallowAppend(DepthStep(d, a[0]), a[1..], e, b);
    }
  }

  lemma {:induction false} TraceIsShallow(f: Forest, d: nat)
    requires d + Depth(f) < STACK_MAX
    ensures Shallow(d, Trace(f)) && DepthAfter(d, Trace(f)) == d
  {
    if f.Span? {
      var enter, leave := [Enter(f.timer, f.start)], [Leave(f.timer, f.end)];
      TraceIsShallow(f.children, d + 1);
      TraceIsShallow(f.next, d);
      assert enter[1..] == [] && leave[1..] == [];
      ShallowAppend(d, enter, d + 1, Trace(f.children));
      ShallowAppend(d, enter + Trace(f.children), d + 1, leave);
      ShallowAppend(d, enter + Trace(f.children) + leave, d, Trace(f.next));
    }
  }

  // ---------- the accounts of a forest ----------

  /** `r` is `s` with the forest's totals added, and nothing left open. */
  ghost predicate Accounts(groups: seq<nat>, s: State, f: Forest, r: State)
    requires StateOk(groups, s) && ForestOk(groups, f)
  {
    var n := |s.stack|;
    && StateOk(groups, r) && r.stack == s.stack && r.groupPos == s.groupPos
    && r.child == s.child[n := s.child[n] + TopTime(groups, f)]
    && (forall t :: 0 <= t < |groups| ==> r.ticks[t] == s.ticks[t] + Inclusive(groups, f, t))
    && (forall t :: 0 <= t < |groups| ==> r.exclusive[t] == s.exclusive[t] + Exclusive(groups, f, t))
    && (forall t :: 0 <= t < |groups| ==> r.counts[t] == s.counts[t] + Count(f, t))
    && (forall g :: 0 <= g < |s.groupPos| ==>
          r.groupTicks[g] == s.groupTicks[g] + GroupTime(groups, f, g, s.groupPos[g] > 0))
  }

  /** No group has more open entries than the stack. */
  predicate GroupsBounded(s: State) {
    forall g :: 0 <= g < |s.groupPos| ==> s.groupPos[g] <= |s.stack|
  }

  lemma SpanTimer(groups: seq<nat>, s: State, f: Forest, inner: State, t: nat)
    requires StateOk(groups, s) && ForestOk(groups, f) && f.Span? && t < |groups|
    requires Accounts(groups, Push(groups, s, Enter(f.timer, f.start)), f.children, inner)
    ensures inner.stack != []
    ensures var r, one := Pop(groups, inner, Leave(f.timer, f.end)), f.(next := Nil);
            && r.ticks[t] == s.ticks[t] + Inclusive(groups, one, t)
            && r.exclusive[t] == s.exclusive[t] + Exclusive(groups, one, t)
            && r.counts[t] == s.counts[t] + Count(one, t)
  {
    assert inner.stack[|s.stack|] == Enter(f.timer, f.start);
    hide TickDifference, GroupTime;
  }

  lemma SpanGroup(groups: seq<nat>, s: State, f: Forest, inner: State, g: nat)
    requires StateOk(groups, s) && ForestOk(groups, f) && f.Span? && GroupsBounded(s) && |s.stack| < STACK_MAX
    requires Accounts(groups, Push(groups, s, Enter(f.timer, f.start)), f.children, inner) && g < |s.groupPos|
    ensures inner.stack != []
    ensures var r, one := Pop(groups, inner, Leave(f.timer, f.end)), f.(next := Nil);
            && |r.groupPos| == |s.groupPos| && r.groupPos[g] == s.groupPos[g]
            && r.groupTicks[g] == s.groupTicks[g] + GroupTime(groups, one, g, s.groupPos[g] > 0)
  {
    assert inner.stack[|s.stack|] == Enter(f.timer, f.start);
    assert s.groupPos[groups[f.timer]] + 1 < 256;
    hide TickDifference, Inclusive, Exclusive, Count, TopTime;
  }

  lemma SpanChild(groups: seq<nat>, s: State, f: Forest, inner: State)
    requires StateOk(groups, s) && ForestOk(groups, f) && f.Span?
    requires Accounts(groups, Push(groups, s, Enter(f.timer, f.start)), f.children, inner)
    ensures inner.stack != []
    ensures var r, n := Pop(groups, inner, Leave(f.timer, f.end)), |s.stack|;
            && StateOk(groups, r) && r.stack == s.stack
            && r.child == s.child[n := s.child[n] + TopTime(groups, f.(next := Nil))]
  {
    assert inner.stack[|s.stack|] == Enter(f.timer, f.start);
    hide TickDifference, Inclusive, Exclusive, Count, GroupTime;
  }

  /** One span: entering, its children, leaving. */
  lemma SpanAccounts(groups: seq<nat>, s: State, f: Forest, inner: State)
    requires StateOk(groups, s) && ForestOk(groups, f) && f.Span? && GroupsBounded(s) && |s.stack| < STACK_MAX
    requires Accounts(groups, Push(groups, s, Enter(f.timer, f.start)), f.children, inner)
    ensures Accounts(groups, s, f.(next := Nil), Pop(groups, inner, Leave(f.timer, f.end)))
  {
    var r, one := Pop(groups, inner, Leave(f.timer, f.end)), f.(next := Nil);
    hide Inclusive, Exclusive, Count, GroupTime, TopTime, Push, Pop;
    SpanChild(groups, s, f, inner);
    forall t | 0 <= t < |groups|
      ensures r.ticks[t] == s.ticks[t] + Inclusive(groups, one, t)
      ensures r.exclusive[t] == s.exclusive[t] + Exclusive(groups, one, t)
      ensures r.counts[t] == s.counts[t] + Count(one, t)
    {
      SpanTimer(groups, s, f, inner, t);
    }
    forall g | 0 <= g < |s.groupPos|
      ensures |r.groupPos| == |s.groupPos| && r.groupPos[g] == s.groupPos[g]
      ensures r.groupTicks[g] == s.groupTicks[g] + GroupTime(groups, one, g, s.groupPos[g] > 0)
    {
      SpanGroup(groups, s, f, inner, g);
    }
    assert r.groupPos == s.groupPos;
  }

  lemma TotalsSplit(groups: seq<nat>, f: Forest, t: nat)
    requires ForestOk(groups, f) && f.Span?
    ensures var one := f.(next := Nil);
            && Inclusive(groups, f, t) == Inclusive(groups, one, t) + Inclusive(groups, f.next, t)
            && Exclusive(groups, f, t) == Exclusive(groups, one, t) + Exclusive(groups, f.next, t)
            && Count(f, t) == Count(one, t) + Count(f.next, t)
  {
  }

  lemma GroupSplits(groups: seq<nat>, f: Forest, g: nat, inside: bool)
    requires ForestOk(groups, f) && f.Span?
    ensures GroupTime(groups, f, g, inside)
      == GroupTime(groups, f.(next := Nil), g, inside) + GroupTime(groups, f.next, g, inside)
  {
  }

  lemma NextTimer(groups: seq<nat>, s: State, f: Forest, m: State, r: State, t: nat)
    requires StateOk(groups, s) && StateOk(groups, m) && ForestOk(groups, f) && f.Span? && t < |groups|
    requires Accounts(groups, s, f.(next := Nil), m) && Accounts(groups, m, f.next, r)
    ensures r.ticks[t] == s.ticks[t] + Inclusive(groups, f, t)
    ensures r.exclusive[t] == s.exclusive[t] + Exclusive(groups, f, t)
    ensures r.counts[t] == s.counts[t] + Count(f, t)
  {
    TotalsSplit(groups, f, t);
    hide Inclusive, Exclusive, Count, GroupTime, TopTime;
  }

  lemma NextGroup(groups: seq<nat>, s: State, f: Forest, m: State, r: State, g: nat)
    requires StateOk(groups, s) && StateOk(groups, m) && ForestOk(groups, f) && f.Span? && g < |s.groupPos|
    requires Accounts(groups, s, f.(next := Nil), m) && Accounts(groups, m, f.next, r)
    ensures r.groupTicks[g] == s.groupTicks[g] + GroupTime(groups, f, g, s.groupPos[g] > 0)
  {
    GroupSplits(groups, f, g, s.groupPos[g] > 0);
    hide Inclusive, Exclusive, Count, GroupTime, TopTime;
  }

  lemma NextChild(groups: seq<nat>, s: State, f: Forest, m: State, r: State)
    requires StateOk(groups, s) && StateOk(groups, m) && ForestOk(groups, f) && f.Span?
    requires Accounts(groups, s, f.(next := Nil), m) && Accounts(groups, m, f.next, r)
    ensures r.child == s.child[|s.stack| := s.child[|s.stack|] + TopTime(groups, f)]
  {
    assert TopTime(groups, f) == TopTime(groups, f.(next := Nil)) + TopTime(groups, f.next);
    hide Inclusive, Exclusive, Count, GroupTime, TopTime, ForestOk;
  }

  lemma NextAccounts(groups: seq<nat>, s: State, f: Forest, m: State, r: State)
    requires StateOk(groups, s) && StateOk(groups, m) && ForestOk(groups, f) && f.Span?
    requires Accounts(groups, s, f.(next := Nil), m) && Accounts(groups, m, f.next, r)
    ensures Accounts(groups, s, f, r)
  {
    hide Inclusive, Exclusive, Count, GroupTime, TopTime, ForestOk;
    NextChild(groups, s, f, m, r);
    forall t | 0 <= t < |groups|
      ensures r.ticks[t] == s.ticks[t] + Inclusive(groups, f, t)
      ensures r.exclusive[t] == s.exclusive[t] + Exclusive(groups, f, t)
      ensures r.counts[t] == s.counts[t] + Count(f, t)
    {
      NextTimer(groups, s, f, m, r, t);
    }
    forall g | 0 <= g < |s.groupPos|
      ensures r.groupTicks[g] == s.groupTicks[g] + GroupTime(groups, f, g, s.groupPos[g] > 0)
    {
      NextGroup(groups, s, f, m, r, g);
    }
  }

  lemma NoSpans(groups: seq<nat>, s: State)
    requires StateOk(groups, s)
    ensures Accounts(groups, s, Nil, s)
  {
  }

  lemma PushIsBounded(groups: seq<nat>, s: State, e: Entry)
    requires StateOk(groups, s) && e.Enter? && EntryOk(groups, e) && GroupsBounded(s)
    ensures StateOk(groups, Push(groups, s, e)) && GroupsBounded(Push(groups, s, e))
  {
  }

  lemma ReplayFirst(groups: seq<nat>, s: State, e: Entry, rest: seq<Entry>)
    requires StateOk(groups, s) && EntryOk(groups, e) && LogOk(groups, rest) && (e.Enter? ==> |s.stack| < STACK_MAX)
    ensures LogOk(groups, [e] + rest)
    ensures Replay(groups, s, [e] + rest) == Replay(groups, Step(groups, s, e), rest)
  {
    assert ([e] + rest)[1..] == rest;
  }

  lemma PushIsDeeper(groups: seq<nat>, s: State, e: Entry)
    requires StateOk(groups, s) && e.Enter? && EntryOk(groups, e)
    ensures |Push(groups, s, e).stack| == |s.stack| + 1
  {
  }

  /** The replay of a span goes through the states of its parts. */
  lemma ReplayBracket(groups: seq<nat>, s: State, enter: Entry, mid: seq<Entry>, leave: Entry, tail: seq<Entry>,
                      p: State, inner: State)
    requires StateOk(groups, s) && enter.Enter? && leave.Leave? && |s.stack| < STACK_MAX
    requires EntryOk(groups, enter) && EntryOk(groups, leave) && LogOk(groups, mid) && LogOk(groups, tail)
    requires Shallow(|s.stack| + 1, mid) && p == Push(groups, s, enter) && StateOk(groups, p)
    requires inner == Replay(groups, p, mid) && inner.stack != []
    ensures LogOk(groups, [enter] + (mid + ([leave] + tail))) && StateOk(groups, Pop(groups, inner, leave))
    ensures Replay(groups, s, [enter] + (mid + ([leave] + tail))) == Replay(groups, Pop(groups, inner, leave), tail)
  {
    hide Replay, Shallow, StateOk, LogOk, EntryOk, Push, Pop;
    PushIsDeeper(groups, s, enter);
    ReplayFirst(groups, inner, leave, tail);
    ReplayAppend(groups, p, mid, [leave] + tail);
    ReplayFirst(groups, s, enter, mid + ([leave] + tail));
  }

  lemma TraceShape(f: Forest)
    requires f.Span?
    ensures Trace(f) == [Enter(f.timer, f.start)] + (Trace(f.children) + ([Leave(f.timer, f.end)] + Trace(f.next)))
  {
  }

  lemma ChildrenAreShallow(f: Forest, d: nat)
    requires f.Span? && d + Depth(f) < STACK_MAX
    ensures d + 1 < STACK_MAX && Shallow(d + 1, Trace(f.children)) && d + Depth(f.next) < STACK_MAX
  {
    TraceIsShallow(f.children, d + 1);
  }

  lemma SpanEntries(groups: seq<nat>, f: Forest)
    requires ForestOk(groups, f) && f.Span?
    ensures EntryOk(groups, Enter(f.timer, f.start)) && EntryOk(groups, Leave(f.timer, f.end))
    ensures ForestOk(groups, f.children) && ForestOk(groups, f.next) && ForestOk(groups, f.(next := Nil))
  {
  }

  lemma AccountsStack(groups: seq<nat>, s: State, f: Forest, r: State)
    requires StateOk(groups, s) && ForestOk(groups, f) && Accounts(groups, s, f, r)
    ensures StateOk(groups, r) && r.stack == s.stack && (GroupsBounded(s) ==> GroupsBounded(r))
  {
  }

  lemma ReplayTrace(groups: seq<nat>, s: State, f: Forest, p: State, inner: State)
    requires StateOk(groups, s) && f.Span? && |s.stack| < STACK_MAX && Shallow(|s.stack| + 1, Trace(f.children))
    requires EntryOk(groups, Enter(f.timer, f.start)) && EntryOk(groups, Leave(f.timer, f.end))
    requires LogOk(groups, Trace(f.children)) && LogOk(groups, Trace(f.next)) && LogOk(groups, Trace(f))
    requires p == Push(groups, s, Enter(f.timer, f.start)) && StateOk(groups, p)
    requires inner == Replay(groups, p, Trace(f.children)) && inner.stack != []
    ensures StateOk(groups, Pop(groups, inner, Leave(f.timer, f.end)))
    ensures Replay(groups, s, Trace(f)) == Replay(groups, Pop(groups, inner, Leave(f.timer, f.end)), Trace(f.next))
  {
    hide Replay, Trace, Shallow, LogOk, EntryOk, StateOk, Push, Pop;
    TraceShape(f);
    var enter, leave := Enter(f.timer, f.start), Leave(f.timer, f.end);
    ReplayBracket(groups, s, enter, Trace(f.children), leave, Trace(f.next), p, inner);
  }

  /** One span of a trace: its accounts, and the replay goes on behind it. */
  lemma {:induction false} ReplaySpan(groups: seq<nat>, s: State, f: Forest, p: State, inner: State)
    requires StateOk(groups, s) && ForestOk(groups, f) && f.Span? && GroupsBounded(s)
    requires |s.stack| + Depth(f) < STACK_MAX
    requires LogOk(groups, Trace(f.children)) && LogOk(groups, Trace(f.next)) && LogOk(groups, Trace(f))
    requires p == Push(groups, s, Enter(f.timer, f.start)) && StateOk(groups, p)
    requires inner == Replay(groups, p, Trace(f.children)) && Accounts(groups, p, f.children, inner)
    ensures inner.stack != [] && |s.stack| + Depth(f.next) < STACK_MAX
    ensures var m := Pop(groups, inner, Leave(f.timer, f.end));
            && StateOk(groups, m) && m.stack == s.stack && GroupsBounded(m) && Accounts(groups, s, f.(next := Nil), m)
            && Replay(groups, s, Trace(f)) == Replay(groups, m, Trace(f.next))
  {
    var enter, leave := Enter(f.timer, f.start), Leave(f.timer, f.end);
    hide Replay, Trace, Shallow, LogOk, EntryOk, StateOk, Accounts, Push, Pop, GroupsBounded, ForestOk, Depth;
    SpanEntries(groups, f);
    PushIsDeeper(groups, s, enter);
    AccountsStack(groups, p, f.children, inner);
    SpanAccounts(groups, s, f, inner);
    AccountsStack(groups, s, f.(next := Nil), Pop(groups, inner, leave));
    ChildrenAreShallow(f, |s.stack|);
    ReplayTrace(groups, s, f, p, inner);
  }

  /** Replaying the trace of any forest of spans, from any state with room on the stack, adds to every timer
      and every group exactly what the forest defines. */
  lemma {:induction false} ReplayAccounts(groups: seq<nat>, s: State, f: Forest)
    requires StateOk(groups, s) && ForestOk(groups, f) && GroupsBounded(s) && |s.stack| + Depth(f) < STACK_MAX
    ensures LogOk(groups, Trace(f)) && Accounts(groups, s, f, Replay(groups, s, Trace(f)))
    decreases f
  {
    TraceOk(groups, f);
    if f.Nil? {
      NoSpans(groups, s);
    } else {
      TraceOk(groups, f.children);
      TraceOk(groups, f.next);
      var enter, leave := Enter(f.timer, f.start), Leave(f.timer, f.end);
      PushIsBounded(groups, s, enter);
      var p := Push(groups, s, enter);
      ReplayAccounts(groups, p, f.children);
      var inner := Replay(groups, p, Trace(f.children));
      hide Accounts, Replay, Trace, LogOk, Depth;
      ReplaySpan(groups, s, f, p, inner);
      var m := Pop(groups, inner, leave);
      hide StateOk, ForestOk, Push, Pop;
      ReplayAccounts(groups, m, f.next);
      NextAccounts(groups, s, f, m, Replay(groups, m, Trace(f.next)));
    }
  }
}
