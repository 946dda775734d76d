/** The bump allocator of the demangler (externals/demangle/ItaniumDemangle.cpp): memory is handed out from the
    first of a list of blocks, oversized requests get a block of their own behind it, and a reset frees
    all blocks but the one inside the allocator.  What malloc returns is a parameter. */
module BumpAllocator {
  import opened Links

  const ALLOC_SIZE := 4096
  const META_SIZE := 16
  const USABLE := ALLOC_SIZE - META_SIZE

  datatype BlockMeta = BlockMeta(next: int, current: nat)

  /** A range handed out, and the block it is in. */
  datatype Span = Span(start: int, len: nat, block: int)

  // ---------- rounding ----------

  /** The request rounded up to 16 bytes, by a mask of 32 bits. */
  function Round(n: nat): (r: nat)
    ensures Multiple(r)
  {
    (n + 15) % 0x1_0000_0000 / 16 * 16
  }

  /** The rounded size has room for the request, and is less than 16 more, exactly for requests below
      2^32 - 15. */
  lemma RoundCovers(n: nat)
    ensures n <= Round(n) < n + 16 <==> n <= 0x1_0000_0000 - 16
  {
  }

  lemma RoundTruncates()
    ensures Round(0x1_0000_0000) == 0
  {
  }

  // ---------- the blocks ----------

  /** Following the links from `head` visits `order`, each block once. */
  ghost predicate Linked(meta: map<int, BlockMeta>, head: int, order: seq<int>) {
    && Distinct(order) && head == After(order, -1, 0)
    && (forall k :: 0 <= k < |order| ==> order[k] != 0 && order[k] in meta)
    && (forall k :: 0 <= k < |order| ==> meta[order[k]].next == After(order, k, 0))
  }

  /** No block is missing from the list. */
  ghost predicate Complete(meta: map<int, BlockMeta>, order: seq<int>) {
    forall b :: b in meta ==> b in order
  }

  ghost predicate Apart(a: int, aSize: nat, b: int, bSize: nat) {
    a + aSize <= b || b + bSize <= a
  }

  /** The blocks do not overlap and none is smaller than usual. */
  ghost predicate Sized(sizes: map<int, nat>) {
    && (forall b :: b in sizes ==> sizes[b] >= ALLOC_SIZE)
    && (forall a, b :: a in sizes && b in sizes && a != b ==> Apart(a, sizes[a], b, sizes[b]))
  }

  /** How much of a block is handed out: an oversized one entirely. */
  ghost function Used(meta: map<int, BlockMeta>, sizes: map<int, nat>, b: int): int
    requires b in meta && b in sizes
  {
    if sizes[b] == ALLOC_SIZE then meta[b].current else sizes[b] - META_SIZE
  }

  /** A range lies in the part of its block that is handed out. */
  ghost predicate Inside(meta: map<int, BlockMeta>, sizes: map<int, nat>, s: Span) {
    && s.block in meta && s.block in sizes
    && s.block + META_SIZE <= s.start && s.start + s.len <= s.block + META_SIZE + Used(meta, sizes, s.block)
    && Used(meta, sizes, s.block) <= sizes[s.block] - META_SIZE
  }

  ghost predicate AllInside(meta: map<int, BlockMeta>, sizes: map<int, nat>, live: seq<Span>) {
    forall k :: 0 <= k < |live| ==> Inside(meta, sizes, live[k])
  }

  ghost predicate AllApart(live: seq<Span>) {
    forall j, k :: 0 <= j < k < |live| ==> Apart(live[j].start, live[j].len, live[k].start, live[k].len)
  }

  ghost predicate Limited(meta: map<int, BlockMeta>) {
    forall b :: b in meta ==> meta[b].current <= USABLE
  }

  predicate Multiple(n: int) {
    n % 16 == 0
  }

  ghost predicate Aligned(meta: map<int, BlockMeta>) {
    forall b :: b in meta ==> Multiple(meta[b].current)
  }

  lemma AlignedStays(meta: map<int, BlockMeta>, b: int, m: BlockMeta)
    requires Aligned(meta) && Multiple(m.current)
    ensures Aligned(meta[b := m])
  {
  }

  lemma AlignedAt(meta: map<int, BlockMeta>, b: int)
    requires Aligned(meta) && b in meta
    ensures Multiple(meta[b].current)
  {
  }

  lemma Multiples(a: int, b: int)
    requires Multiple(a) && Multiple(b)
    ensures Multiple(a + b) && Multiple(META_SIZE + a) && Multiple(0)
  {
  }

  /** The blocks and what is handed out of them; the first block is of the usual size. */
  ghost predicate Consistent(meta: map<int, BlockMeta>, head: int, order: seq<int>, sizes: map<int, nat>,
      live: seq<Span>)
  {
    && Linked(meta, head, order) && Complete(meta, order) && Limited(meta) && Aligned(meta)
    && Sized(sizes) && meta.Keys == sizes.Keys && head in sizes && sizes[head] == ALLOC_SIZE
    && AllInside(meta, sizes, live) && AllApart(live)
  }

  lemma HeadAligned(meta: map<int, BlockMeta>, head: int, order: seq<int>, sizes: map<int, nat>, live: seq<Span>)
    requires Consistent(meta, head, order, sizes, live)
    ensures head in meta && Multiple(META_SIZE + meta[head].current)
  {
    hide AllInside, AllApart, Sized, Aligned, Limited, Complete, Multiple;
    AlignedAt(meta, head);
    Multiples(meta[head].current, 0);
  }

  /** malloc returned a range that overlaps no block. */
  ghost predicate Fresh(sizes: map<int, nat>, p: int, size: nat) {
    p != 0 && p !in sizes && forall b :: b in sizes ==> Apart(p, size, b, sizes[b])
  }

  // ---------- handing out from the first block ----------

  lemma BumpLinks(meta: map<int, BlockMeta>, head: int, order: seq<int>, c: nat)
    requires Linked(meta, head, order) && Complete(meta, order) && head in meta
    ensures Linked(meta[head := meta[head].(current := c)], head, order)
    ensures Complete(meta[head := meta[head].(current := c)], order)
  {
  }

  lemma BumpSpans(meta: map<int, BlockMeta>, head: int, sizes: map<int, nat>, live: seq<Span>, n: nat)
    requires Sized(sizes) && meta.Keys == sizes.Keys && head in sizes && sizes[head] == ALLOC_SIZE
    requires AllInside(meta, sizes, live) && AllApart(live) && meta[head].current + n <= USABLE
    ensures var c := meta[head].current;
            var s := Span(head + META_SIZE + c, n, head);
            AllInside(meta[head := meta[head].(current := c + n)], sizes, live + [s]) && AllApart(live + [s])
  {
    var c := meta[head].current;
    var after, s := meta[head := meta[head].(current := c + n)], Span(head + META_SIZE + c, n, head);
    forall k | 0 <= k < |live|
      ensures Inside(after, sizes, live[k]) && Apart(live[k].start, live[k].len, s.start, s.len)
    {
      var b := live[k].block;
      assert Inside(meta, sizes, live[k]);
      if b != head {
        assert Apart(b, sizes[b], head, sizes[head]);
      }
    }
    assert Inside(after, sizes, s);
  }

  lemma BumpKeeps(meta: map<int, BlockMeta>, head: int, order: seq<int>, sizes: map<int, nat>, live: seq<Span>, n: nat)
    requires Consistent(meta, head, order, sizes, live)
    requires meta[head].current + n <= USABLE && Multiple(n)
    ensures var c := meta[head].current;
            Consistent(meta[head := meta[head].(current := c + n)], head, order, sizes,
                       live + [Span(head + META_SIZE + c, n, head)])
  {
    var c := meta[head].current;
    hide Linked, Complete, AllInside, AllApart, Sized, Aligned, Multiple;
    AlignedAt(meta, head);
    Multiples(c, n);
    AlignedStays(meta, head, meta[head].(current := c + n));
    BumpLinks(meta, head, order, c + n);
    BumpSpans(meta, head, sizes, live, n);
  }

  // ---------- new blocks ----------

  lemma SizedMore(sizes: map<int, nat>, p: int, size: nat)
    requires Sized(sizes) && Fresh(sizes, p, size) && size >= ALLOC_SIZE
    ensures Sized(sizes[p := size])
  {
  }

  /** What was handed out stays where it is. */
  lemma InsideStays(meta: map<int, BlockMeta>, sizes: map<int, nat>, after: map<int, BlockMeta>, now: map<int, nat>,
      live: seq<Span>)
    requires AllInside(meta, sizes, live)
    requires forall b :: b in meta ==> b in after && after[b].current == meta[b].current
    requires forall b :: b in sizes ==> b in now && now[b] == sizes[b]
    ensures AllInside(after, now, live)
  {
    forall k | 0 <= k < |live|
      ensures Inside(after, now, live[k])
    {
      assert Inside(meta, sizes, live[k]);
    }
  }

  lemma GrowLinks(meta: map<int, BlockMeta>, head: int, order: seq<int>, p: int)
    requires Linked(meta, head, order) && Complete(meta, order) && p != 0 && p !in meta
    ensures Linked(meta[p := BlockMeta(head, 0)], p, [p] + order)
      && Complete(meta[p := BlockMeta(head, 0)], [p] + order)
  {
    var after, list := meta[p := BlockMeta(head, 0)], [p] + order;
    forall k | 0 <= k < |list|
      ensures list[k] != 0 && list[k] in after && after[list[k]].next == After(list, k, 0)
    {
      if k > 0 {
        assert list[k] == order[k - 1] && After(order, k - 1, 0) == After(list, k, 0);
      } else {
        assert After(order, -1, 0) == After(list, 0, 0);
      }
    }
  }

  lemma GrowKeeps(meta: map<int, BlockMeta>, head: int, order: seq<int>, sizes: map<int, nat>, live: seq<Span>, p: int)
    requires Consistent(meta, head, order, sizes, live) && Fresh(sizes, p, ALLOC_SIZE)
    ensures Consistent(meta[p := BlockMeta(head, 0)], p, [p] + order, sizes[p := ALLOC_SIZE], live)
  {
    hide Linked, Complete, AllInside, AllApart, Sized, Aligned;
    AlignedStays(meta, p, BlockMeta(head, 0));
    GrowLinks(meta, head, order, p);
    SizedMore(sizes, p, ALLOC_SIZE);
    InsideStays(meta, sizes, meta[p := BlockMeta(head, 0)], sizes[p := ALLOC_SIZE], live);
  }

  /** The block `p` put behind the first. */
  ghost function Behind(order: seq<int>, p: int): (list: seq<int>)
    requires order != []
    ensures |list| == |order| + 1 && list[0] == order[0] && list[1] == p
    ensures forall k :: 2 <= k < |list| ==> list[k] == order[k - 1]
  {
    [order[0], p] + order[1..]
  }

  function InsertMeta(meta: map<int, BlockMeta>, head: int, p: int): map<int, BlockMeta>
    requires head in meta
  {
    meta[head := meta[head].(next := p)][p := BlockMeta(meta[head].next, 0)]
  }

  lemma MassiveLinks(meta: map<int, BlockMeta>, head: int, order: seq<int>, p: int)
    requires Linked(meta, head, order) && head in meta && order != [] && p != 0 && p !in meta
    ensures Linked(InsertMeta(meta, head, p), head, Behind(order, p))
  {
    var after, list := InsertMeta(meta, head, p), Behind(order, p);
    hide Behind;
    assert head == order[0];
    forall k | 0 <= k < |list|
      ensures list[k] != 0 && list[k] in after && after[list[k]].next == After(list, k, 0)
    {
      if k == 0 {
        assert After(list, 0, 0) == p;
      } else if k == 1 {
        assert meta[order[0]].next == After(order, 0, 0) == After(list, 1, 0);
      } else {
        assert list[k] == order[k - 1] && After(order, k - 1, 0) == After(list, k, 0);
      }
    }
  }

  lemma MassiveComplete(meta: map<int, BlockMeta>, head: int, order: seq<int>, p: int)
    requires Complete(meta, order) && head in meta && order != []
    ensures Complete(InsertMeta(meta, head, p), Behind(order, p))
  {
    var list := Behind(order, p);
    forall b | b in meta
      ensures b in list
    {
      var k :| 0 <= k < |order| && order[k] == b;
      assert k == 0 || list[k + 1] == b;
    }
    assert list[1] == p;
  }

  lemma MassiveApart(meta: map<int, BlockMeta>, sizes: map<int, nat>, live: seq<Span>, p: int, n: nat)
    requires AllInside(meta, sizes, live) && AllApart(live) && Fresh(sizes, p, n + META_SIZE)
    ensures AllApart(live + [Span(p + META_SIZE, n, p)])
  {
    forall k | 0 <= k < |live|
      ensures Apart(live[k].start, live[k].len, p + META_SIZE, n)
    {
      assert Inside(meta, sizes, live[k]);
      assert Apart(p, n + META_SIZE, live[k].block, sizes[live[k].block]);
    }
  }

  lemma MassiveInside(meta: map<int, BlockMeta>, head: int, sizes: map<int, nat>, live: seq<Span>, p: int, n: nat)
    requires head in meta && p !in meta && p !in sizes && n > USABLE && AllInside(meta, sizes, live)
    ensures AllInside(InsertMeta(meta, head, p), sizes[p := n + META_SIZE], live + [Span(p + META_SIZE, n, p)])
  {
    var after, now := InsertMeta(meta, head, p), sizes[p := n + META_SIZE];
    InsideStays(meta, sizes, after, now, live);
    assert Inside(after, now, Span(p + META_SIZE, n, p));
  }

  lemma MassiveMeta(meta: map<int, BlockMeta>, head: int, sizes: map<int, nat>, p: int, size: nat)
    requires meta.Keys == sizes.Keys && head in meta && p !in sizes && Aligned(meta) && Limited(meta)
    ensures InsertMeta(meta, head, p).Keys == sizes[p := size].Keys
    ensures Aligned(InsertMeta(meta, head, p)) && Limited(InsertMeta(meta, head, p))
  {
    var after := InsertMeta(meta, head, p);
    assert forall b :: b in after <==> b in meta || b == p;
    assert Multiple(0) && forall b :: b in after ==> after[b].current == if b == p then 0 else meta[b].current;
    hide InsertMeta, Multiple;
  }

  lemma OrderIsNotEmpty(meta: map<int, BlockMeta>, head: int, order: seq<int>)
    requires Complete(meta, order) && head in meta
    ensures order != []
  {
    assert head in order;
  }

  lemma FreshIsNew(sizes: map<int, nat>, p: int, size: nat)
    requires Fresh(sizes, p, size)
    ensures p != 0 && p !in sizes
  {
  }

  lemma MassiveKeeps(meta: map<int, BlockMeta>, head: int, order: seq<int>, sizes: map<int, nat>, live: seq<Span>,
      p: int, n: nat)
    requires Consistent(meta, head, order, sizes, live) && n > USABLE && Fresh(sizes, p, n + META_SIZE)
    ensures head in meta && order != []
    ensures Consistent(InsertMeta(meta, head, p), head, Behind(order, p), sizes[p := n + META_SIZE],
                       live + [Span(p + META_SIZE, n, p)])
  {
    hide Behind, AllInside, AllApart, Sized, Linked, Complete, Aligned, Fresh, Limited, InsertMeta;
    OrderIsNotEmpty(meta, head, order);
    FreshIsNew(sizes, p, n + META_SIZE);
    MassiveMeta(meta, head, sizes, p, n + META_SIZE);
    MassiveLinks(meta, head, order, p);
    MassiveComplete(meta, head, order, p);
    MassiveApart(meta, sizes, live, p, n);
    SizedMore(sizes, p, n + META_SIZE);
    MassiveInside(meta, head, sizes, live, p, n);
  }

  // ---------- the allocator ----------

  class Allocator {
    /** The address of the block inside the allocator. */
    const initial: int
    var meta: map<int, BlockMeta>
    var blockList: int
    /** What has been given back to free, in order. */
    var freed: seq<int>
    ghost var order: seq<int>
    ghost var sizes: map<int, nat>
    ghost var live: seq<Span>

    ghost predicate Valid()
      reads this
    {
      Consistent(meta, blockList, order, sizes, live) && initial in meta && initial != 0
    }

    constructor (initial: int)
      requires initial != 0
      ensures Valid() && this.initial == initial && Pristine() && freed == []
    {
      this.initial, meta, blockList, freed := initial, map[initial := BlockMeta(0, 0)], initial, [];
      order, sizes, live := [initial], map[initial := ALLOC_SIZE], [];
    }

    /** The state before any request. */
    ghost predicate Pristine()
      reads this
    {
      && meta == map[initial := BlockMeta(0, 0)] && blockList == initial
      && order == [initial] && sizes == map[initial := ALLOC_SIZE] && live == []
    }

    method Grow(p: int)
      requires Valid() && Fresh(sizes, p, ALLOC_SIZE)
      modifies `meta, `blockList, `order, `sizes
      ensures Valid() && blockList == p && meta == old(meta)[p := BlockMeta(old(blockList), 0)]
      ensures order == [p] + old(order) && sizes == old(sizes)[p := ALLOC_SIZE]
    {
      hide Consistent, Fresh;
      GrowKeeps(meta, blockList, order, sizes, live, p);
      meta := meta[p := BlockMeta(blockList, 0)];
      blockList := p;
      order, sizes := [p] + order, sizes[p := ALLOC_SIZE];
    }

    /** The new block does not become the first. */
    method AllocateMassive(n: nat, p: int) returns (address: int)
      requires Valid() && n > USABLE && Fresh(sizes, p, n + META_SIZE)
      modifies `meta, `order, `sizes, `live
      ensures Valid() && Multiple(address - p) && old(order) != [] && order == Behind(old(order), p)
      ensures sizes == old(sizes)[p := n + META_SIZE] && live == old(live) + [Span(address, n, p)]
    {
      hide Consistent, Behind, Fresh;
      MassiveKeeps(meta, blockList, order, sizes, live, p, n);
      order := Behind(order, p);
      meta := InsertMeta(meta, blockList, p);
      sizes, live := sizes[p := n + META_SIZE], live + [Span(p + META_SIZE, n, p)];
      return p + META_SIZE;
    }

    /** For every request: the range handed out is of the rounded size, lies in one of the blocks and
        overlaps nothing handed out before.  `p` is what malloc returns if it is asked. */
    method Allocate(n: nat, p: int) returns (address: int)
      requires Valid()
      requires Fresh(sizes, p, if Round(n) > USABLE then Round(n) + META_SIZE else ALLOC_SIZE)
      modifies `meta, `blockList, `order, `sizes, `live
      ensures Valid() && |live| == |old(live)| + 1 && live[..|old(live)|] == old(live)
      ensures var s := live[|old(live)|];
              && s.start == address && s.len == Round(n) && Multiple(address - s.block)
              && (s.block in old(meta) || s.block == p)
    {
      hide Linked, Complete, Sized, AllInside, AllApart, Aligned, Fresh, Round, Multiple;
      var size := Round(n);
      if size + meta[blockList].current >= USABLE {
        if size > USABLE {
          address := AllocateMassive(size, p);
          return;
        }
        Grow(p);
      }
      hide Consistent;
      address := Bump(size);
    }

    method Bump(size: nat) returns (address: int)
      requires Valid() && blockList in meta && meta[blockList].current + size <= USABLE && Multiple(size)
      modifies `meta, `live
      ensures Valid() && live == old(live) + [Span(address, size, blockList)] && Multiple(address - blockList)
    {
      hide Consistent, Multiple;
      HeadAligned(meta, blockList, order, sizes, live);
      ghost var c := meta[blockList].current;
      BumpKeeps(meta, blockList, order, sizes, live, size);
      meta := meta[blockList := meta[blockList].(current := meta[blockList].current + size)];
      address := blockList + META_SIZE + meta[blockList].current - size;
      assert address - blockList == META_SIZE + c && address == blockList + META_SIZE + c;
      live := live + [Span(address, size, blockList)];
    }

    method FreeAll()
      requires Linked(meta, blockList, order)
      modifies `blockList, `freed
      ensures freed == old(freed) + Without(order, initial)
    {
      ghost var k, head := 0, blockList;
      assert head == After(order, -1, 0);
      assert order[..0] == [];
      assert freed + Without([], initial) == freed;
      hide Linked, Without;
      while blockList != 0
        invariant Linked(meta, head, order) && k <= |order| && blockList == After(order, k - 1, 0)
        invariant freed == old(freed) + Without(order[..k], initial)
        decreases |order| - k
      {
        NextBlock(meta, head, order, k);
        var tmp := blockList;
        blockList := meta[blockList].next;
        if tmp != initial {
          freed := freed + [tmp];
        }
        WithoutMore(order[..k], tmp, initial);
        k := k + 1;
      }
      LastBlock(meta, head, order, k);
    }

    /** Every block but the one inside the allocator is freed, each once, and all is as in the beginning. */
    method Reset()
      requires Valid()
      modifies this
      ensures Valid() && Pristine()
      ensures exists gone :: freed == old(freed) + gone && FreesAll(gone, old(meta).Keys - {initial})
    {
      hide Linked, Complete, Limited, Aligned, Sized, AllInside, AllApart, FreesAll, Without;
      AllFreed(meta, blockList, order, initial);
      ghost var gone := Without(order, initial);
      FreeAll();
      InitialIsConsistent(initial);
      hide Consistent;
      assert freed == old(freed) + gone && FreesAll(gone, old(meta).Keys - {initial});
      meta, blockList := map[initial := BlockMeta(0, 0)], initial;
      order, sizes, live := [initial], map[initial := ALLOC_SIZE], [];
    }
  }

  /** Exactly these blocks, each once. */
  ghost predicate FreesAll(gone: seq<int>, blocks: set<int>) {
    Distinct(gone) && forall b :: b in gone <==> b in blocks
  }

  lemma AllFreed(meta: map<int, BlockMeta>, head: int, order: seq<int>, initial: int)
    requires Linked(meta, head, order) && Complete(meta, order)
    ensures FreesAll(Without(order, initial), meta.Keys - {initial})
  {
    FreedOnce(order, initial);
  }

  lemma NextBlock(meta: map<int, BlockMeta>, head: int, order: seq<int>, k: nat)
    requires Linked(meta, head, order) && k <= |order| && After(order, k - 1, 0) != 0
    ensures k < |order| && order[k] == After(order, k - 1, 0) && order[k] in meta
    ensures meta[order[k]].next == After(order, k, 0) && order[..k + 1] == order[..k] + [order[k]]
  {
  }

  lemma LastBlock(meta: map<int, BlockMeta>, head: int, order: seq<int>, k: nat)
    requires Linked(meta, head, order) && k <= |order| && After(order, k - 1, 0) == 0
    ensures order[..k] == order
  {
  }

  lemma InitialIsConsistent(initial: int)
    requires initial != 0
    ensures Consistent(map[initial := BlockMeta(0, 0)], initial, [initial], map[initial := ALLOC_SIZE], [])
  {
  }

  ghost function Without(order: seq<int>, b: int): (r: seq<int>)
    ensures forall a :: a in r <==> a in order && a != b
  {
    if order == [] then []
    else Without(order[..|order| - 1], b) + (if order[|order| - 1] == b then [] else [order[|order| - 1]])
  }

  /** What a reset frees it frees once. */
  lemma {:induction false} FreedOnce(order: seq<int>, b: int)
    requires Distinct(order)
    ensures Distinct(Without(order, b))
  {
    if order != [] {
      var front, last := order[..|order| - 1], order[|order| - 1];
      FreedOnce(front, b);
      assert last !in front;
      assert last !in Without(front, b);
    }
  }

  lemma WithoutMore(order: seq<int>, a: int, b: int)
    ensures Without(order + [a], b) == Without(order, b) + (if a == b then [] else [a])
  {
    assert (order + [a])[..|order|] == order;
  }
}
