/** The pool of thread logs in MicroProfile (externals/microprofile/microprofile.h): logs of threads that
    have ended are kept on a free list, linked by their positions in the pool, and given to new threads. */
module ProfilePool {
  import opened Links

  const MAX_THREADS := 32
  const MAX_GROUPS := 48
  const FRAME_HISTORY := 512
  const NONE := -1

  /** `id` is the address of the log. */
  datatype Log = Log(id: int, put: nat, get: nat, active: bool, freeNext: int, groupPos: seq<int>, groupTicks: seq<int>)

  function Zeros(n: nat): seq<int> {
    seq(n, _ => 0)
  }

  function NewLog(id: int): Log {
    Log(id, 0, 0, true, NONE, Zeros(MAX_GROUPS), Zeros(MAX_GROUPS))
  }

  /** The links from `head` lead along `list`. */
  ghost predicate Path(logs: seq<Log>, head: int, list: seq<int>) {
    && list != [] && head == list[0]
    && (forall k :: 0 <= k < |list| ==> 0 <= list[k] < |logs|)
    && (forall k :: 0 <= k < |list| - 1 ==> logs[list[k]].freeNext == After(list, k, NONE))
  }

  /** Following the links from `head` visits `free`, each log once, and then ends. */
  ghost predicate Chain(logs: seq<Log>, head: int, free: seq<int>) {
    && Distinct(free)
    && (forall k :: 0 <= k < |free| ==> 0 <= free[k] < |logs|)
    && head == After(free, -1, NONE)
    && (forall k :: 0 <= k < |free| ==> logs[free[k]].freeNext == After(free, k, NONE))
  }

  /** The free list has exactly the logs no thread uses, all emptied; the first log is the GPU's. */
  ghost predicate PoolOk(logs: seq<Log>, head: int, free: seq<int>) {
    && Chain(logs, head, free)
    && 0 < |logs| <= MAX_THREADS && logs[0].active
    && (forall i :: 0 <= i < |logs| ==> (i in free <==> !logs[i].active))
    && (forall i :: 0 <= i < |logs| && !logs[i].active ==> logs[i].put == 0 && logs[i].get == 0)
  }

  /** No two logs have the same address. */
  ghost predicate Addressed(logs: seq<Log>) {
    forall i, j :: 0 <= i < j < |logs| ==> logs[i].id != logs[j].id
  }

  /** Each live thread has an active log, no two the same, and every active log but the GPU's is some
      thread's. */
  ghost predicate Owned(logs: seq<Log>, held: map<nat, nat>) {
    && (forall t :: t in held ==> 0 < held[t] < |logs| && logs[held[t]].active)
    && (forall t, u :: t in held && u in held && t != u ==> held[t] != held[u])
    && (forall i :: 0 < i < |logs| && logs[i].active ==> i in held.Values)
  }

  /** The threads that do not have log `i`. */
  ghost function Others(held: map<nat, nat>, i: nat): map<nat, nat> {
    map t | t in held && held[t] != i :: held[t]
  }

  /** What the end of a thread does to the log `i`. */
  function Released(logs: seq<Log>, head: int, i: nat): seq<Log>
    requires i < |logs|
  {
    logs[i := Log(logs[i].id, 0, 0, false, head, Zeros(MAX_GROUPS), Zeros(MAX_GROUPS))]
  }

  lemma TakeChain(logs: seq<Log>, head: int, free: seq<int>, log: Log)
    requires Chain(logs, head, free) && free != []
    ensures 0 <= head < |logs| && Chain(logs[head := log], logs[head].freeNext, free[1..])
  {
    var after, rest := logs[head := log], free[1..];
    assert logs[free[0]].freeNext == After(free, 0, NONE) == After(rest, -1, NONE);
    forall k | 0 <= k < |rest|
      ensures after[rest[k]].freeNext == After(rest, k, NONE)
    {
      assert rest[k] == free[k + 1] && free[0] != free[k + 1];
      assert After(free, k + 1, NONE) == After(rest, k, NONE);
    }
  }

  lemma TakeKeeps(logs: seq<Log>, head: int, free: seq<int>, log: Log)
    requires PoolOk(logs, head, free) && head != NONE && log.active
    ensures 0 < head < |logs| && !logs[head].active && logs[head].put == 0 && logs[head].get == 0
    ensures PoolOk(logs[head := log], logs[head].freeNext, free[1..])
  {
    var after := logs[head := log];
    assert free[0] == head && head in free;
    forall i | 0 <= i < |after|
      ensures i in free[1..] <==> !after[i].active
    {
      assert i in free <==> i == head || i in free[1..];
      assert head !in free[1..];
    }
    TakeChain(logs, head, free, log);
    hide Chain;
  }

  lemma GrowKeeps(logs: seq<Log>, head: int, free: seq<int>, log: Log)
    requires PoolOk(logs, head, free) && |logs| < MAX_THREADS && log.active
    ensures PoolOk(logs + [log], head, free)
  {
    assert forall k :: 0 <= k < |free| ==> (logs + [log])[free[k]] == logs[free[k]];
  }

  lemma ReleaseKeeps(logs: seq<Log>, head: int, free: seq<int>, i: nat)
    requires PoolOk(logs, head, free) && 0 < i < |logs| && logs[i].active
    ensures PoolOk(Released(logs, head, i), i, [i] + free)
  {
    var after, list := Released(logs, head, i), [i] + free;
    assert i !in free;
    forall k | 0 <= k < |list|
      ensures after[list[k]].freeNext == After(list, k, NONE)
    {
      if k > 0 {
        assert list[k] == free[k - 1] && After(free, k - 1, NONE) == After(list, k, NONE);
      } else {
        assert After(free, -1, NONE) == After(list, 0, NONE);
      }
    }
  }

  // ---------- a thread that ends twice ----------

  /** If the log is on the list already, the walk from it leads along the old list back to it. */
  lemma {:induction false} WalkRepeats(logs: seq<Log>, head: int, free: seq<int>, i: nat, m: nat,
                                       list: seq<int>, k: nat)
    requires Chain(logs, head, free) && i < |logs| && m < |free| && free[m] == i && k <= m
    requires Path(Released(logs, head, i), i, list) && k + 1 < |list|
    ensures list[k + 1] == free[k]
  {
    var after := Released(logs, head, i);
    assert after[list[k]].freeNext == After(list, k, NONE);
    if k > 0 {
      WalkRepeats(logs, head, free, i, m, list, k - 1);
      assert free[k - 1] != free[m];
      assert logs[free[k - 1]].freeNext == After(free, k - 1, NONE);
    } else {
      assert After(free, -1, NONE) == free[0];
    }
  }

  /** The walk comes back before it ends, so no list is visited by it. */
  lemma NeverEnds(logs: seq<Log>, head: int, free: seq<int>, i: nat, m: nat, list: seq<int>)
    requires Chain(logs, head, free) && i < |logs| && m < |free| && free[m] == i
    ensures !Chain(Released(logs, head, i), i, list)
  {
    var after := Released(logs, head, i);
    if Path(after, i, list) {
      var n := |list|;
      if n >= m + 2 {
        WalkRepeats(logs, head, free, i, m, list, m);
        assert list[0] == list[m + 1];
      } else if n == 1 {
        assert after[list[0]].freeNext == head == free[0] && After(list, 0, NONE) == NONE;
      } else {
        WalkRepeats(logs, head, free, i, m, list, n - 2);
        assert free[n - 2] != free[m] && logs[free[n - 2]].freeNext == After(free, n - 2, NONE);
        assert after[list[n - 1]].freeNext == free[n - 1] && After(list, n - 1, NONE) == NONE;
      }
    }
  }

  /** The end of a thread leaves a free list that ends, exactly if its log was in use: a thread that ends
      twice closes the list to a ring. */
  lemma ReleaseEnds(logs: seq<Log>, head: int, free: seq<int>, i: nat)
    requires PoolOk(logs, head, free) && 0 < i < |logs|
    ensures (exists list :: Chain(Released(logs, head, i), i, list)) <==> logs[i].active
  {
    if logs[i].active {
      ReleaseKeeps(logs, head, free, i);
    } else {
      var m :| 0 <= m < |free| && free[m] == i;
      forall list
        ensures !Chain(Released(logs, head, i), i, list)
      {
        NeverEnds(logs, head, free, i, m, list);
      }
    }
  }

  // ---------- the pool ----------

  /** The frame table: where each log stood at each of the last 512 flips. */
  predicate FramesOk(frames: seq<seq<nat>>) {
    |frames| == FRAME_HISTORY && forall f :: 0 <= f < |frames| ==> |frames[f]| == MAX_THREADS
  }

  ghost predicate Cleared(before: seq<seq<nat>>, after: seq<seq<nat>>, i: nat) {
    && FramesOk(before) && FramesOk(after) && i < MAX_THREADS
    && forall f :: 0 <= f < FRAME_HISTORY ==> after[f] == before[f][i := 0]
  }

  lemma PoolFits(logs: seq<Log>, head: int, free: seq<int>)
    requires PoolOk(logs, head, free)
    ensures |logs| <= MAX_THREADS
  {
  }

  class Pool {
    var logs: seq<Log>
    var head: int
    var frames: seq<seq<nat>>
    ghost var free: seq<int>
    ghost var held: map<nat, nat>

    ghost predicate Valid()
      reads this
    {
      PoolOk(logs, head, free) && Owned(logs, held) && Addressed(logs) && FramesOk(frames)
    }

    constructor (gpu: int)
      ensures Valid() && held == map[] && head == NONE && logs == [NewLog(gpu)]
    {
      logs, head, frames := [NewLog(gpu)], NONE, seq(FRAME_HISTORY, _ => seq(MAX_THREADS, _ => 0));
      free, held := [], map[];
    }

    /** A new thread gets a log that no live thread has, an emptied one from the free list if there is one.
        `id` is the address of a log that is allocated.  If the pool is full and no log is free, the pool's
        array is written past its end (`outside`), and nothing is promised. */
    method CreateThreadLog(ghost thread: nat, id: int) returns (i: nat, outside: bool)
      requires Valid() && thread !in held && forall j :: 0 <= j < |logs| ==> logs[j].id != id
      modifies this
      ensures outside <==> old(head) == NONE && old(|logs|) == MAX_THREADS
      ensures !outside ==>
        && Valid() && held == old(held)[thread := i] && i !in old(held).Values && frames == old(frames)
        && (old(head) == NONE ==> head == NONE)
        && (old(head) != NONE ==> i == old(head) && |logs| == old(|logs|) && logs[i] == NewLog(old(logs)[i].id))
        && (old(head) == NONE ==> i == old(|logs|) && |logs| == i + 1 && logs[i] == NewLog(id))
        && (forall j :: 0 <= j < |logs| && j != i ==> logs[j] == old(logs)[j])
    {
      outside := false;
      if head != NONE {
        i := head;
        TakeKeeps(logs, head, free, NewLog(logs[i].id));
        assert logs[i].put == 0 && logs[i].get == 0;
        head := logs[i].freeNext;
        logs := logs[i := NewLog(logs[i].id)];
        free := free[1..];
      } else {
        i := |logs|;
        if i == MAX_THREADS {
          outside := true;
          return;
        }
        GrowKeeps(logs, head, free, NewLog(id));
        logs := logs + [NewLog(id)];
      }
      OwnedByNew(old(logs), logs, held, thread, i);
      held := held[thread := i];
    }

    /** Only a log in use is written to. */
    method Advance(i: nat, put: nat)
      requires Valid() && i < |logs| && logs[i].active
      modifies `logs
      ensures Valid() && logs == old(logs)[i := old(logs)[i].(put := put)]
    {
      CountersOnly(logs, logs[i := logs[i].(put := put)], head, free, held);
      logs := logs[i := logs[i].(put := put)];
    }

    /** A flip catches up every log in the pool, whether in use or not. */
    method Flip()
      requires Valid()
      modifies `logs
      ensures Valid() && |logs| == old(|logs|)
      ensures forall i :: 0 <= i < |logs| ==> logs[i] == old(logs)[i].(get := old(logs)[i].put)
    {
      hide PoolOk, Owned, Addressed;
      var i := 0;
      while i < |logs|
        invariant Valid() && i <= |logs| == |old(logs)|
        invariant forall j :: 0 <= j < i ==> logs[j] == old(logs)[j].(get := old(logs)[j].put)
        invariant forall j :: i <= j < |logs| ==> logs[j] == old(logs)[j]
      {
        CaughtUp(logs, i, head, free, held);
        logs := logs[i := logs[i].(get := logs[i].put)];
        i := i + 1;
      }
    }

    /** The position of the log at an address. */
    method Find(id: int) returns (i: nat)
      requires exists j :: 0 <= j < |logs| && logs[j].id == id
      ensures i < |logs| && logs[i].id == id
    {
      i := 0;
      while logs[i].id != id
        invariant i < |logs| && forall j :: 0 <= j < i ==> logs[j].id != id
        decreases |logs| - i
      {
        i := i + 1;
      }
    }

    /** The log at `id` is emptied and becomes the first of the free list, and its starts in the frame table
        become 0.  If no thread was using it, the list does not end any more. */
    method OnThreadExit(id: int) returns (i: nat)
      requires Valid() && (exists j :: 0 <= j < |logs| && logs[j].id == id) && logs[0].id != id
      modifies this
      ensures 0 < i < |old(logs)| && old(logs)[i].id == id && head == i && logs == Released(old(logs), old(head), i)
      ensures Cleared(old(frames), frames, i)
      ensures old(logs)[i].active ==> Valid() && held == Others(old(held), i)
      ensures !old(logs)[i].active ==> forall list :: !Chain(logs, head, list)
    {
      hide PoolOk, Owned, Chain, Addressed, Others, FramesOk, Cleared, Released;
      PoolFits(logs, head, free);
      i := Find(id);
      ReleaseEnds(logs, head, free, i);
      ReleaseAll(logs, head, free, held, i);
      PutInFront(i);
      ClearFrames(i);
    }

    method PutInFront(i: nat)
      requires i < |logs|
      modifies `logs, `head, `free, `held
      ensures logs == Released(old(logs), old(head), i) && head == i
      ensures free == [i] + old(free) && held == Others(old(held), i)
    {
      logs := logs[i := Log(logs[i].id, 0, 0, false, head, Zeros(MAX_GROUPS), Zeros(MAX_GROUPS))];
      head := i;
      free, held := [i] + free, Others(held, i);
    }

    method ClearFrames(i: nat)
      requires FramesOk(frames) && i < MAX_THREADS
      modifies `frames
      ensures FramesOk(frames) && Cleared(old(frames), frames, i)
    {
      var f := 0;
      while f < FRAME_HISTORY
        invariant 0 <= f <= FRAME_HISTORY && FramesOk(frames)
        invariant forall g :: 0 <= g < f ==> frames[g] == old(frames)[g][i := 0]
        invariant forall g :: f <= g < FRAME_HISTORY ==> frames[g] == old(frames)[g]
      {
        frames := frames[f := frames[f][i := 0]];
        f := f + 1;
      }
    }
  }

  lemma CountersOnly(before: seq<Log>, after: seq<Log>, head: int, free: seq<int>, held: map<nat, nat>)
    requires PoolOk(before, head, free) && Owned(before, held) && Addressed(before) && |before| == |after|
    requires forall i :: 0 <= i < |after| ==>
      after[i].active == before[i].active && after[i].freeNext == before[i].freeNext && after[i].id == before[i].id
    requires forall i :: 0 <= i < |after| && !after[i].active ==> after[i].put == 0 && after[i].get == 0
    ensures PoolOk(after, head, free) && Owned(after, held) && Addressed(after)
  {
  }

  lemma CaughtUp(logs: seq<Log>, i: nat, head: int, free: seq<int>, held: map<nat, nat>)
    requires PoolOk(logs, head, free) && Owned(logs, held) && Addressed(logs) && i < |logs|
    ensures var after := logs[i := logs[i].(get := logs[i].put)];
            PoolOk(after, head, free) && Owned(after, held) && Addressed(after)
  {
    CountersOnly(logs, logs[i := logs[i].(get := logs[i].put)], head, free, held);
  }

  lemma OwnedByNew(before: seq<Log>, after: seq<Log>, held: map<nat, nat>, thread: nat, i: nat)
    requires Owned(before, held) && thread !in held && 0 < i < |after| && after[i].active
    requires |before| <= |after| && (i < |before| ==> !before[i].active)
    requires forall j :: 0 <= j < |after| && j != i ==> j < |before| && after[j] == before[j]
    ensures i !in held.Values && Owned(after, held[thread := i])
  {
    var now := held[thread := i];
    forall j | 0 < j < |after| && after[j].active
      ensures j in now.Values
    {
      if j == i {
        assert now[thread] == j;
      } else {
        var t :| t in held && held[t] == j;
        assert now[t] == j;
      }
    }
  }

  lemma ReleasedFrom(logs: seq<Log>, head: int, held: map<nat, nat>, i: nat)
    requires Owned(logs, held) && 0 < i < |logs|
    ensures Owned(Released(logs, head, i), Others(held, i))
  {
    var after, now := Released(logs, head, i), Others(held, i);
    forall j | 0 < j < |after| && after[j].active
      ensures j in now.Values
    {
      var t :| t in held && held[t] == j;
      assert now[t] == j;
    }
  }

  lemma ReleaseAll(logs: seq<Log>, head: int, free: seq<int>, held: map<nat, nat>, i: nat)
    requires PoolOk(logs, head, free) && Owned(logs, held) && Addressed(logs) && 0 < i < |logs|
    ensures Addressed(Released(logs, head, i))
    ensures Owned(Released(logs, head, i), Others(held, i))
    ensures logs[i].active ==> PoolOk(Released(logs, head, i), i, [i] + free)
  {
    ReleasedFrom(logs, head, held, i);
    if logs[i].active {
      hide Owned;
      ReleaseKeeps(logs, head, free, i);
    }
  }

  /** 31 threads, whose logs are at the addresses 1 to 31, fill the pool. */
  method FillPool() returns (p: Pool)
    ensures fresh(p) && p.Valid() && p.head == NONE && |p.logs| == MAX_THREADS && MAX_THREADS !in p.held
    ensures forall j :: 0 <= j < MAX_THREADS ==> p.logs[j].id == j
  {
    p := new Pool(0);
    hide PoolOk, Owned, Addressed, FramesOk;
    var n := 1;
    while n < MAX_THREADS
      invariant fresh(p) && p.Valid() && p.head == NONE && |p.logs| == n <= MAX_THREADS
      invariant forall j :: 0 <= j < n ==> p.logs[j].id == j
      invariant forall t :: t in p.held ==> t < n
    {
      var i, outside := p.CreateThreadLog(n, n);
      n := n + 1;
    }
  }

  /** The next thread writes past the end of the pool. */
  method OverfillPool() returns (outside: bool)
    ensures outside
  {
    hide PoolOk, Owned, Addressed, FramesOk;
    var p := FillPool();
    var i;
    i, outside := p.CreateThreadLog(MAX_THREADS, MAX_THREADS);
  }

  /** A thread that ends twice: the free list becomes a ring. */
  method ExitTwice() returns (p: Pool)
    ensures fresh(p) && p.head == 1 && |p.logs| == 2 && p.logs[1].freeNext == 1
    ensures forall list :: !Chain(p.logs, p.head, list)
  {
    p := new Pool(1000);
    hide PoolOk, Owned, Chain, Addressed, FramesOk;
    var i, outside := p.CreateThreadLog(7, 2000);
    assert i == 1 && p.logs[0] == NewLog(1000) && p.logs[1] == NewLog(2000);
    i := p.OnThreadExit(2000);
    assert i == 1 && p.logs[0] == NewLog(1000) && p.logs[1].id == 2000 && !p.logs[1].active;
    i := p.OnThreadExit(2000);
  }
}
