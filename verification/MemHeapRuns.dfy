/**
 What every sequence of calls on a memory heap keeps: counters, the high-water
 mark, undoing, and complete recovery once everything has been released.
 */
module MemHeapRuns {
  import opened Tiling
  import opened MemHeapModel
  import opened Arithmetic
  import opened Sequences

  // ---- Live pointers and allocated blocks ----

  lemma LiveIff(h: Heap, ptr: nat)
    requires WellFormed(h)
    ensures Live(h, ptr) <==> exists b :: b in UsedBlocks(h.blocks) && b.size > 0 && b.addr + HEADER == ptr
  {
    if Live(h, ptr) {
      assert h.blocks[LiveIndex(h, ptr)] in UsedBlocks(h.blocks);
    }
    if b :| b in UsedBlocks(h.blocks) && b.size > 0 && b.addr + HEADER == ptr {
      var i :| 0 <= i < |h.blocks| && h.blocks[i] == b;
      assert i < |h.blocks| - 1;
    }
  }

  /** The allocated block a live pointer belongs to. */
  ghost function BlockOf(h: Heap, ptr: nat): (b: Block)
    requires Live(h, ptr)
    ensures b in UsedBlocks(h.blocks) && b.addr + HEADER == ptr
  {
    h.blocks[LiveIndex(h, ptr)]
  }

  lemma BlockOfUnique(h: Heap, ptr: nat, b: Block)
    requires WellFormed(h) && Live(h, ptr)
    requires b in UsedBlocks(h.blocks) && b.addr + HEADER == ptr
    ensures b == BlockOf(h, ptr)
  {
    var i :| 0 <= i < |h.blocks| && h.blocks[i] == b;
    SameAddrSameIndex(HEADER, h.start, h.start + h.pool, h.blocks, i, LiveIndex(h, ptr));
  }

  // ---- Allocation ----

  lemma FirstFitUnique(h: Heap, size: nat, k: nat, l: nat)
    requires FirstFit(h, size, k) && FirstFit(h, size, l)
    ensures k == l
  {
  }

  /** Where some ring entry fits, one of them is the first. */
  lemma {:induction false} FirstFitExists(h: Heap, size: nat, j: nat)
    requires j < |h.ring| && Fits(h, size, h.ring[j])
    ensures exists k: nat :: FirstFit(h, size, k)
    decreases j
  {
    if i :| 0 <= i < j && Fits(h, size, h.ring[i]) {
      FirstFitExists(h, size, i);
    } else {
      assert FirstFit(h, size, j);
    }
  }

  /** An allocation that succeeds takes the first fitting entry of the free ring. */
  lemma AllocTakes(h: Heap, size: nat) returns (k: nat, i: nat)
    requires WellFormed(h) && Alloc(h, size).ptr != 0
    ensures FirstFit(h, Request(size), k) && FitsAt(h, k, i, Request(size))
    ensures Alloc(h, size) == Outcome(Take(h, k, i, Request(size)), h.ring[k] + HEADER)
  {
    var s := Request(size);
    k :| FirstFit(h, s, k);
    RingAddrs(h, k);
    i := IndexOf(h.blocks, h.ring[k]);
    FitAt(h, s, k, i);
    AlignedMultiple(size);
    forall l: nat | FirstFit(h, s, l)
      ensures l == k
    {
      FirstFitUnique(h, s, k, l);
    }
  }

  lemma AllocWellFormed(h: Heap, size: nat)
    requires WellFormed(h)
    ensures WellFormed(Alloc(h, size).heap)
  {
    if Alloc(h, size).ptr != 0 {
      var k, i := AllocTakes(h, size);
      if h.blocks[i].size >= Request(size) + HEADER + MINIALLOC {
        SplitTakeWellFormed(h, k, i, Request(size));
      } else {
        WholeTakeWellFormed(h, k, i, Request(size));
      }
    }
  }

  /**
   A successful allocation adds exactly one allocated block, aligned, at least as
   large as asked, wasting less than one header plus a minimal block.
   */
  lemma AllocAdds(h: Heap, size: nat) returns (b: Block)
    requires WellFormed(h) && Alloc(h, size).ptr != 0
    ensures b !in UsedBlocks(h.blocks)
    ensures UsedBlocks(Alloc(h, size).heap.blocks) == UsedBlocks(h.blocks) + {b}
    ensures b.used && b.addr + HEADER == Alloc(h, size).ptr
    ensures size <= Request(size) <= b.size < Request(size) + HEADER + MINIALLOC && Alloc(h, size).ptr % 4 == 0
  {
    hide Alloc, Take, FreeBytes, WellFormed, UsedBlocks, FirstFit;
    var s := Request(size);
    var k, i := AllocTakes(h, size);
    AlignedMultiple(size);
    if h.blocks[i].size >= s + HEADER + MINIALLOC {
      SplitTakeEffect(h, k, i, s);
      b := Block(h.ring[k], s, true);
    } else {
      WholeTakeEffect(h, k, i, s);
      b := Block(h.ring[k], h.blocks[i].size, true);
    }
    NewBlockIsNew(h, i, b);
  }

  /** A block that starts where a free one was is not among the allocated ones. */
  lemma NewBlockIsNew(h: Heap, i: nat, b: Block)
    requires WellFormed(h) && i < |h.blocks| && !h.blocks[i].used && b.addr == h.blocks[i].addr
    ensures b !in UsedBlocks(h.blocks) && h.blocks[i].addr % 4 == 0
  {
    if j :| 0 <= j < |h.blocks| && h.blocks[j] == b && b.used {
      SameAddrSameIndex(HEADER, h.start, h.start + h.pool, h.blocks, i, j);
    }
  }

  /**
   Exactly when an allocation fails: no free block is large enough, or the request
   equals the whole of the free memory (the entry test is strict). It then changes nothing.
   */
  lemma AllocFails(h: Heap, size: nat)
    requires WellFormed(h)
    ensures Alloc(h, size).ptr == 0 <==>
      (forall b :: b in h.blocks && !b.used ==> b.size < Request(size)) || FreeBytes(h.blocks) == Request(size)
    ensures Alloc(h, size).ptr == 0 ==> Alloc(h, size).heap == h
  {
    var s := Request(size);
    if b :| b in h.blocks && !b.used && b.size >= s {
      var i :| 0 <= i < |h.blocks| && h.blocks[i] == b;
      FreeBlockCounts(h.blocks, i);
      FreeAddrsMember(h.blocks, b.addr);
      assert b.addr in h.ring;
      var j :| 0 <= j < |h.ring| && h.ring[j] == b.addr;
      assert Fits(h, s, h.ring[j]);
      FirstFitExists(h, s, j);
    } else if k: nat :| FirstFit(h, s, k) {
      RingAddrs(h, k);
      FitAt(h, s, k, IndexOf(h.blocks, h.ring[k]));
    }
  }

  /** The strict entry test refuses the last free block when it fits exactly. */
  lemma ExactLastBlockRefused(start: nat, size: nat)
    requires start > 0 && start % 4 == 0 && size >= 2 * HEADER + MINIALLOC
    ensures var h := Init(start, size);
      && WellFormed(h)
      && h.blocks[0].size == h.pool - 2 * HEADER && !h.blocks[0].used
      && Request(h.pool - 2 * HEADER) == h.blocks[0].size
      && Alloc(h, h.pool - 2 * HEADER).ptr == 0
  {
    InitWellFormed(start, size);
    FreshSized(start, size);
    AllocFails(Init(start, size), Init(start, size).pool - 2 * HEADER);
  }

  // ---- Undoing and reordering ----

  lemma FreeWellFormed(h: Heap, ptr: nat)
    requires WellFormed(h) && Live(h, ptr)
    ensures WellFormed(Free(h, ptr))
    ensures UsedBlocks(Free(h, ptr).blocks) == UsedBlocks(h.blocks) - {BlockOf(h, ptr)}
    ensures Free(h, ptr).peak == h.peak
    ensures FreeBytes(Free(h, ptr).blocks) >= FreeBytes(h.blocks) + BlockOf(h, ptr).size
    ensures Free(h, ptr).start == h.start && Free(h, ptr).pool == h.pool
  {
    FreeAtWellFormed(h, LiveIndex(h, ptr));
    FreeAtUsed(h, LiveIndex(h, ptr));
    FreeAtPeak(h, LiveIndex(h, ptr));
    FreeAtBytes(h, LiveIndex(h, ptr));
  }

  /** A block that is still allocated in another state of the same heap is live there too. */
  lemma LiveTransfer(h: Heap, h': Heap, q: nat)
    requires WellFormed(h) && WellFormed(h') && Live(h, q)
    requires BlockOf(h, q) in UsedBlocks(h'.blocks)
    ensures Live(h', q) && BlockOf(h', q) == BlockOf(h, q)
  {
    assert BlockOf(h, q).size > 0;
    LiveIff(h', q);
    BlockOfUnique(h', q, BlockOf(h, q));
  }

  /**
   The block list depends only on what is allocated: two histories of the same pool
   that end with the same blocks allocated have the same splits and merges.
   */
  lemma SameUsedSameBlocks(g: Heap, h: Heap)
    requires WellFormed(g) && WellFormed(h) && g.start == h.start && g.pool == h.pool
    requires UsedBlocks(g.blocks) == UsedBlocks(h.blocks)
    ensures g.blocks == h.blocks
  {
    CanonicalForm(HEADER, h.start, h.start + h.pool, g.blocks, h.blocks);
  }

  lemma AllocSamePool(h: Heap, size: nat)
    requires WellFormed(h)
    ensures Alloc(h, size).heap.start == h.start && Alloc(h, size).heap.pool == h.pool
  {
    if Alloc(h, size).ptr != 0 {
      var k, i := AllocTakes(h, size);
    }
  }

  /** Releasing what was just allocated restores the block list, splits and merges included. */
  lemma AllocThenFree(h: Heap, size: nat)
    requires WellFormed(h) && Alloc(h, size).ptr != 0
    ensures Live(Alloc(h, size).heap, Alloc(h, size).ptr)
    ensures Free(Alloc(h, size).heap, Alloc(h, size).ptr).blocks == h.blocks
  {
    var o := Alloc(h, size);
    var b := AllocAdds(h, size);
    AllocWellFormed(h, size);
    AlignedMultiple(size);
    LiveIff(o.heap, o.ptr);
    BlockOfUnique(o.heap, o.ptr, b);
    AllocSamePool(h, size);
    FreeWellFormed(o.heap, o.ptr);
    SameUsedSameBlocks(Free(o.heap, o.ptr), h);
  }

  // ---- Which block an allocation takes ----

  /** The first entry of the free ring is taken if it is large enough. */
  lemma FirstOfRing(h: Heap, size: nat)
    requires WellFormed(h) && h.ring != [] && Fits(h, Request(size), h.ring[0]) && Request(size) < FreeBytes(h.blocks)
    ensures Alloc(h, size).ptr == h.ring[0] + HEADER
  {
    hide WellFormed, Take, FreeBytes, Fits;
    FirstFitExists(h, Request(size), 0);
    assert FirstFit(h, Request(size), 0);
    SomethingTaken(h, size);
    var k, i := AllocTakes(h, size);
    FirstFitUnique(h, Request(size), 0, k);
  }

  lemma SomethingTaken(h: Heap, size: nat)
    requires WellFormed(h) && Request(size) < FreeBytes(h.blocks) && exists k: nat :: FirstFit(h, Request(size), k)
    ensures Alloc(h, size).ptr != 0
  {
  }

  lemma ReleasedBlock(bs: seq<Block>, i: nat)
    requires i + 1 < |bs| && (i > 0 ==> bs[i - 1].used)
    ensures var r := Release(HEADER, bs, i);
      i < |r| && r[i].addr == bs[i].addr && r[i].size >= bs[i].size
  {
  }

  /** The left neighbour of the block at ptr is not free. */
  ghost predicate NothingFreeBefore(h: Heap, ptr: nat) {
    forall c :: c in h.blocks && !c.used ==> End(HEADER, c) + HEADER != ptr
  }

  /** A block that was just released, and not merged to the left, is the next one to go. */
  lemma FreedGoesFirst(h: Heap, ptr: nat, size: nat)
    requires WellFormed(h) && Live(h, ptr) && NothingFreeBefore(h, ptr)
    requires Request(size) <= BlockOf(h, ptr).size && Request(size) < FreeBytes(Free(h, ptr).blocks)
    ensures WellFormed(Free(h, ptr)) && Alloc(Free(h, ptr), size).ptr == ptr
  {
    var i := LiveIndex(h, ptr);
    assert i > 0 ==> End(HEADER, h.blocks[i - 1]) == h.blocks[i].addr;
    hide WellFormed, Alloc, Release, FreeBytes;
    FreeWellFormed(h, ptr);
    ReleasedBlock(h.blocks, i);
    FirstOfRing(Free(h, ptr), size);
  }

  /** What was left of a block that was just cut is the next one to go. */
  lemma RestGoesFirst(h: Heap, size: nat, size': nat, c: Block)
    requires WellFormed(h) && Alloc(h, size).ptr != 0 && c in h.blocks && c.addr + HEADER == Alloc(h, size).ptr
    requires c.size >= Request(size) + HEADER + MINIALLOC && Request(size') <= c.size - Request(size) - HEADER
    requires Request(size') < FreeBytes(Alloc(h, size).heap.blocks)
    ensures WellFormed(Alloc(h, size).heap)
    ensures Alloc(Alloc(h, size).heap, size').ptr == Alloc(h, size).ptr + Request(size) + HEADER
  {
    hide Alloc, FreeBytes, Request, FirstFit;
    var s, o := Request(size), Alloc(h, size).heap;
    AllocWellFormed(h, size);
    var k, i := AllocTakes(h, size);
    var j :| 0 <= j < |h.blocks| && h.blocks[j] == c;
    SameAddrSameIndex(HEADER, h.start, h.start + h.pool, h.blocks, i, j);
    assert o.blocks == Split(HEADER, h.blocks, i, s, false);
    assert o.blocks[i + 1].addr == o.ring[0] && o.blocks[i + 1].size == c.size - s - HEADER;
    FirstOfRing(o, size');
  }

  // ---- Runs ----

  /** One locked section: what a thread can do to the heap between taking and releasing its lock. */
  datatype Action = Allocate(size: nat) | Deallocate(ptr: nat) | Resize(ptr: nat, size: nat)

  /** Callers release and resize live pointers only; moving resizes are an Allocate and a Deallocate. */
  ghost predicate Enabled(h: Heap, a: Action) {
    match a
    case Allocate(_) => true
    case Deallocate(ptr) => Live(h, ptr)
    case Resize(ptr, size) => Live(h, ptr) && PlanFor(h.blocks, LiveIndex(h, ptr), Request(size)) != Move
  }

  ghost function ResizeInPlace(h: Heap, i: nat, size: nat): Heap
    requires i + 1 < |h.blocks| && PlanFor(h.blocks, i, size) != Move
  {
    match PlanFor(h.blocks, i, size)
    case InPlaceGrow => Grow(h, i, size)
    case InPlaceShrink => Shrink(h, i, size)
    case Keep => h
  }

  ghost function Act(h: Heap, a: Action): Heap
    requires WellFormed(h) && Enabled(h, a)
  {
    match a
    case Allocate(size) => Alloc(h, size).heap
    case Deallocate(ptr) => Free(h, ptr)
    case Resize(ptr, size) => ResizeInPlace(h, LiveIndex(h, ptr), Request(size))
  }

  lemma ResizeWellFormed(h: Heap, i: nat, size: nat)
    requires WellFormed(h) && i + 1 < |h.blocks| && h.blocks[i].used
    requires size % 4 == 0 && size >= MINIALLOC && PlanFor(h.blocks, i, size) != Move
    ensures WellFormed(ResizeInPlace(h, i, size))
  {
    match PlanFor(h.blocks, i, size)
    case InPlaceGrow => GrowWellFormed(h, i, size);
    case InPlaceShrink => ShrinkWellFormed(h, i, size);
    case Keep =>
  }

  lemma ActWellFormed(h: Heap, a: Action)
    requires WellFormed(h) && Enabled(h, a)
    ensures WellFormed(Act(h, a))
  {
    match a
    case Allocate(size) => AllocWellFormed(h, size);
    case Deallocate(ptr) => FreeWellFormed(h, ptr);
    case Resize(ptr, size) =>
      AlignedMultiple(size);
      ResizeWellFormed(h, LiveIndex(h, ptr), Request(size));
  }

  /** Any interleaving of locked sections; sections that would break the caller's duties do not occur. */
  ghost function Run(h: Heap, actions: seq<Action>): (r: Heap)
    requires WellFormed(h)
    ensures WellFormed(r)
    decreases |actions|
  {
    if actions == [] then h
    else if Enabled(h, actions[0]) then
      ActWellFormed(h, actions[0]);
      Run(Act(h, actions[0]), actions[1..])
    else Run(h, actions[1..])
  }

  /** The largest amount of memory in use in any state of the run. */
  ghost function HighWater(h: Heap, actions: seq<Action>): int
    requires WellFormed(h)
    decreases |actions|
  {
    if actions == [] then InUse(h)
    else if Enabled(h, actions[0]) then
      ActWellFormed(h, actions[0]);
      Max(InUse(h), HighWater(Act(h, actions[0]), actions[1..]))
    else HighWater(h, actions[1..])
  }

  lemma PeakCovers(h: Heap)
    requires WellFormed(h)
    ensures InUse(h) <= h.peak
  {
  }

  /** One section moves the recorded maximum to the new amount in use if that is larger, and not otherwise. */
  lemma ActPeak(h: Heap, a: Action)
    requires WellFormed(h) && Enabled(h, a)
    ensures Act(h, a).peak == Max(h.peak, InUse(Act(h, a)))
  {
    hide Alloc, FreeBytes, Split, SetUsed, Replace, Release, FirstFit, Request;
    ActWellFormed(h, a);
    PeakCovers(h);
    match a
    case Allocate(size) =>
      if Alloc(h, size).ptr != 0 {
        var k, i := AllocTakes(h, size);
      } else {
        AllocFails(h, size);
      }
    case Deallocate(ptr) => FreeWellFormed(h, ptr);
    case Resize(ptr, size) =>
  }

  /** max_used_size is exactly the high-water mark, for every run from any state. */
  lemma {:induction false} PeakIsHighWater(h: Heap, actions: seq<Action>)
    requires WellFormed(h)
    ensures Run(h, actions).peak == Max(h.peak, HighWater(h, actions))
    decreases |actions|
  {
    if actions == [] {
    } else if Enabled(h, actions[0]) {
      ActWellFormed(h, actions[0]);
      ActPeak(h, actions[0]);
      PeakIsHighWater(Act(h, actions[0]), actions[1..]);
      HighWaterCoversStart(Act(h, actions[0]), actions[1..]);
    } else {
      PeakIsHighWater(h, actions[1..]);
    }
  }

  /** From initialisation on, the recorded maximum is the largest amount ever in use, no more. */
  lemma PeakSinceInit(start: nat, size: nat, actions: seq<Action>)
    requires start > 0 && start % 4 == 0 && size >= 2 * HEADER + MINIALLOC
    ensures WellFormed(Init(start, size))
    ensures Run(Init(start, size), actions).peak == HighWater(Init(start, size), actions)
  {
    InitWellFormed(start, size);
    PeakIsHighWater(Init(start, size), actions);
    HighWaterCoversStart(Init(start, size), actions);
  }

  lemma {:induction false} HighWaterCoversStart(h: Heap, actions: seq<Action>)
    requires WellFormed(h)
    ensures HighWater(h, actions) >= InUse(h)
    decreases |actions|
  {
    if actions != [] && !Enabled(h, actions[0]) {
      HighWaterCoversStart(h, actions[1..]);
    }
  }

  // ---- Releasing everything ----

  /** A heap whose only allocated block is the tailer is the freshly initialised one. */
  lemma EmptyIsFresh(h: Heap, start: nat, size: nat)
    requires start > 0 && start % 4 == 0 && size >= 2 * HEADER + MINIALLOC
    requires WellFormed(h) && h.start == start && h.pool == Init(start, size).pool
    requires forall p :: !Live(h, p)
    ensures h.blocks == Init(start, size).blocks
  {
    var f := Init(start, size);
    InitWellFormed(start, size);
    var tail := f.blocks[1];
    forall b
      ensures b in UsedBlocks(h.blocks) <==> b == tail
    {
      if b in UsedBlocks(h.blocks) {
        LiveIff(h, b.addr + HEADER);
        var i :| 0 <= i < |h.blocks| && h.blocks[i] == b;
      }
      assert h.blocks[|h.blocks| - 1] == tail;
    }
    assert UsedBlocks(f.blocks) == {tail} by {
      assert f.blocks[1] in f.blocks;
    }
    CanonicalForm(HEADER, start, start + h.pool, h.blocks, f.blocks);
  }

  function Releases(ptrs: seq<nat>): (r: seq<Action>)
    ensures |r| == |ptrs|
  {
    if ptrs == [] then [] else [Deallocate(ptrs[0])] + Releases(ptrs[1..])
  }

  /** `ptrs` names every live pointer exactly once. */
  ghost predicate NamesLive(h: Heap, ptrs: seq<nat>) {
    Distinct(ptrs) && forall p :: p in ptrs <==> Live(h, p)
  }

  /** With the first named block gone, the remaining names are the live pointers. */
  lemma AfterFirstRelease(h: Heap, h': Heap, ptrs: seq<nat>)
    requires WellFormed(h) && WellFormed(h') && NamesLive(h, ptrs) && ptrs != [] && Live(h, ptrs[0])
    requires UsedBlocks(h'.blocks) == UsedBlocks(h.blocks) - {BlockOf(h, ptrs[0])}
    ensures NamesLive(h', ptrs[1..])
  {
    var p := ptrs[0];
    forall q
      ensures q in ptrs[1..] <==> Live(h', q)
    {
      LiveIff(h', q);
      LiveIff(h, q);
      if q in ptrs[1..] {
        assert q in ptrs && q != p;
        LiveTransfer(h, h', q);
      }
      if Live(h', q) {
        assert q in ptrs;
        if q == p {
          BlockOfUnique(h, p, BlockOf(h', q));
        }
      }
    }
  }

  /** Releasing all live blocks, in any order, leaves one free block of all but two headers of the pool. */
  lemma {:induction false} ReleaseAll(h: Heap, start: nat, size: nat, ptrs: seq<nat>)
    requires start > 0 && start % 4 == 0 && size >= 2 * HEADER + MINIALLOC
    requires WellFormed(h) && h.start == start && h.pool == Init(start, size).pool
    requires NamesLive(h, ptrs)
    ensures Run(h, Releases(ptrs)).blocks == Init(start, size).blocks
    decreases |ptrs|
  {
    if ptrs == [] {
      forall p
        ensures !Live(h, p)
      {
        assert p !in ptrs;
      }
      EmptyIsFresh(h, start, size);
    } else {
      assert ptrs[0] in ptrs;
      FreeWellFormed(h, ptrs[0]);
      AfterFirstRelease(h, Free(h, ptrs[0]), ptrs);
      ReleaseAll(Free(h, ptrs[0]), start, size, ptrs[1..]);
      assert Releases(ptrs)[1..] == Releases(ptrs[1..]);
    }
  }

  // ---- Reallocation ----

  lemma AllocKeepsLive(h: Heap, size: nat, ptr: nat)
    requires WellFormed(h) && Live(h, ptr)
    ensures WellFormed(Alloc(h, size).heap)
    ensures Live(Alloc(h, size).heap, ptr) && BlockOf(Alloc(h, size).heap, ptr) == BlockOf(h, ptr)
  {
    hide Alloc, WellFormed, Live;
    AllocWellFormed(h, size);
    AllocSamePool(h, size);
    if Alloc(h, size).ptr == 0 {
      AllocFails(h, size);
    } else {
      var b := AllocAdds(h, size);
      LiveTransfer(h, Alloc(h, size).heap, ptr);
    }
  }

  /** rt_memheap_realloc on a live pointer or RT_NULL. */
  ghost function Realloc(h: Heap, ptr: nat, size: nat): Outcome
    requires WellFormed(h) && (ptr == 0 || Live(h, ptr))
  {
    if size == 0 then Outcome(if ptr == 0 then h else Free(h, ptr), 0)
    else if ptr == 0 then Alloc(h, Request(size))
    else if PlanFor(h.blocks, LiveIndex(h, ptr), Request(size)) != Move then
      Outcome(ResizeInPlace(h, LiveIndex(h, ptr), Request(size)), ptr)
    else if Alloc(h, Request(size)).ptr == 0 then Outcome(h, 0)
    else
      AllocKeepsLive(h, Request(size), ptr);
      Outcome(Free(Alloc(h, Request(size)).heap, ptr), Alloc(h, Request(size)).ptr)
  }

  /** The same block list change in terms of allocated blocks: `gone` leaves, `b` enters. */
  ghost predicate Exchanged(h: Heap, h': Heap, gone: set<Block>, b: Block) {
    UsedBlocks(h'.blocks) == (UsedBlocks(h.blocks) - gone) + {b}
  }

  /** What a block of `old'` bytes has when it stays: a rest too small for a block of its own is not cut off. */
  function SizeInPlace(old': nat, size: nat): nat {
    if size <= old' <= size + HEADER + MINIALLOC then old' else size
  }

  lemma ResizeExchanges(h: Heap, i: nat, size: nat) returns (b: Block)
    requires WellFormed(h) && i + 1 < |h.blocks| && h.blocks[i].used
    requires size % 4 == 0 && size >= MINIALLOC && PlanFor(h.blocks, i, size) != Move
    ensures Exchanged(h, ResizeInPlace(h, i, size), {h.blocks[i]}, b)
    ensures b.used && b.addr == h.blocks[i].addr && b.size == SizeInPlace(h.blocks[i].size, size) >= size
  {
    match PlanFor(h.blocks, i, size)
    case InPlaceGrow =>
      GrowEffect(h, i, size);
      b := Block(h.blocks[i].addr, size, true);
    case InPlaceShrink =>
      ShrinkUsed(h, i, size);
      b := Block(h.blocks[i].addr, size, true);
    case Keep =>
      b := h.blocks[i];
  }

  /** Moving: the new block enters, then the old one leaves. */
  lemma MoveExchanges(h: Heap, ptr: nat, size: nat) returns (b: Block)
    requires WellFormed(h) && Live(h, ptr) && Alloc(h, size).ptr != 0
    ensures WellFormed(Alloc(h, size).heap) && Live(Alloc(h, size).heap, ptr)
    ensures Exchanged(h, Free(Alloc(h, size).heap, ptr), {BlockOf(h, ptr)}, b)
    ensures b.used && b.addr + HEADER == Alloc(h, size).ptr && b.size >= size && b !in UsedBlocks(h.blocks)
  {
    hide Alloc, Free, WellFormed, Live;
    b := AllocAdds(h, size);
    AllocKeepsLive(h, size, ptr);
    FreeWellFormed(Alloc(h, size).heap, ptr);
  }

  /**
   A reallocation to a nonzero size either returns RT_NULL and changes nothing, or
   replaces exactly the old block by one that is large enough.
   */
  lemma ReallocMeaning(h: Heap, ptr: nat, size: nat)
    requires WellFormed(h) && Live(h, ptr) && size > 0
    ensures var r := Realloc(h, ptr, size);
      if r.ptr == 0 then r.heap == h
      else
        exists b :: Exchanged(h, r.heap, {BlockOf(h, ptr)}, b) && b.used && b.addr + HEADER == r.ptr && b.size >= size
  {
    hide Alloc, Free, ResizeInPlace, PlanFor, WellFormed, UsedBlocks, FreeBytes;
    AlignedMultiple(size);
    var s, i := Request(size), LiveIndex(h, ptr);
    if PlanFor(h.blocks, i, s) != Move {
      var b := ResizeExchanges(h, i, s);
    } else if Alloc(h, s).ptr != 0 {
      var b := MoveExchanges(h, ptr, s);
    }
  }

  /** Block b has a free right neighbour that lets it grow to `size` bytes. */
  ghost predicate RoomBehind(h: Heap, b: Block, size: nat) {
    exists c :: c in h.blocks && !c.used && c.addr == End(HEADER, b) && b.size + c.size > size + MINIALLOC
  }

  lemma RoomIsNext(h: Heap, i: nat, size: nat)
    requires WellFormed(h) && i + 1 < |h.blocks|
    ensures RoomBehind(h, h.blocks[i], size) <==> CanGrow(h.blocks, i, size)
  {
    var next := h.blocks[i + 1];
    assert next.addr == End(HEADER, h.blocks[i]);
    forall c | c in h.blocks && c.addr == End(HEADER, h.blocks[i])
      ensures c == next
    {
      var j :| 0 <= j < |h.blocks| && h.blocks[j] == c;
      SameAddrSameIndex(HEADER, h.start, h.start + h.pool, h.blocks, j, i + 1);
    }
  }

  /** The block stays where it is exactly if it is large enough or its right neighbour gives it the room. */
  lemma StaysIff(h: Heap, ptr: nat, size: nat)
    requires WellFormed(h) && Live(h, ptr)
    ensures PlanFor(h.blocks, LiveIndex(h, ptr), size) != Move
      <==> size <= BlockOf(h, ptr).size || RoomBehind(h, BlockOf(h, ptr), size)
  {
    RoomIsNext(h, LiveIndex(h, ptr), size);
  }

  lemma RequestTwice(size: nat)
    ensures Request(Request(size)) == Request(size)
  {
  }

  /**
   Exactly when a reallocation of a block returns RT_NULL: the block can neither stay nor move, because
   no free block is large enough or the request equals all that is free.
   */
  lemma ReallocFails(h: Heap, ptr: nat, size: nat)
    requires WellFormed(h) && Live(h, ptr) && size > 0
    ensures var s, b := Request(size), BlockOf(h, ptr);
      Realloc(h, ptr, size).ptr == 0 <==>
        && s > b.size && !RoomBehind(h, b, s)
        && ((forall c :: c in h.blocks && !c.used ==> c.size < s) || FreeBytes(h.blocks) == s)
    ensures Realloc(h, ptr, size).ptr == 0 ==> Realloc(h, ptr, size).heap == h
  {
    hide Alloc, Free, ResizeInPlace, PlanFor, RoomBehind, WellFormed, FreeBytes, Request;
    StaysIff(h, ptr, Request(size));
    RequestTwice(size);
    AllocFails(h, Request(size));
  }

  lemma LivePositive(h: Heap, ptr: nat)
    requires Live(h, ptr)
    ensures ptr > 0
  {
  }

  /** An allocation never returns a pointer that is live already. */
  lemma AllocElsewhere(h: Heap, ptr: nat, size: nat)
    requires WellFormed(h) && Live(h, ptr)
    ensures Alloc(h, size).ptr != ptr
  {
    hide Alloc, Free, WellFormed, UsedBlocks;
    LivePositive(h, ptr);
    if Alloc(h, size).ptr != 0 {
      var o := Alloc(h, size);
      var b := AllocAdds(h, size);
      AllocKeepsLive(h, size, ptr);
      AllocThenFree(h, size);
      BlockOfUnique(o.heap, o.ptr, b);
      assert BlockOf(h, ptr) in UsedBlocks(h.blocks);
    }
  }

  /**
   Exactly when the pointer comes back unchanged: the block is large enough, or its right neighbour
   gives it the room. It then has exactly the size asked for, or its own if too little would be cut off.
   */
  lemma ReallocStays(h: Heap, ptr: nat, size: nat)
    requires WellFormed(h) && Live(h, ptr) && size > 0
    ensures var s, b, r := Request(size), BlockOf(h, ptr), Realloc(h, ptr, size);
      && (r.ptr == ptr <==> s <= b.size || RoomBehind(h, b, s))
      && (r.ptr == ptr ==> Live(r.heap, ptr) && BlockOf(r.heap, ptr).size == SizeInPlace(b.size, s))
  {
    hide Alloc, Free, ResizeInPlace, PlanFor, RoomBehind, WellFormed, Request, UsedBlocks, Live, SizeInPlace;
    StaysIff(h, ptr, Request(size));
    AllocElsewhere(h, ptr, Request(size));
    LivePositive(h, ptr);
    if PlanFor(h.blocks, LiveIndex(h, ptr), Request(size)) != Move {
      ResizedBlock(h, ptr, size);
    }
  }

  lemma ResizedBlock(h: Heap, ptr: nat, size: nat)
    requires WellFormed(h) && Live(h, ptr) && PlanFor(h.blocks, LiveIndex(h, ptr), Request(size)) != Move
    ensures var h' := ResizeInPlace(h, LiveIndex(h, ptr), Request(size));
      Live(h', ptr) && BlockOf(h', ptr).size == SizeInPlace(BlockOf(h, ptr).size, Request(size))
  {
    hide ResizeInPlace, PlanFor, WellFormed, UsedBlocks, Live;
    AlignedMultiple(size);
    var h' := ResizeInPlace(h, LiveIndex(h, ptr), Request(size));
    ResizeWellFormed(h, LiveIndex(h, ptr), Request(size));
    var b := ResizeExchanges(h, LiveIndex(h, ptr), Request(size));
    LiveIff(h', ptr);
    BlockOfUnique(h', ptr, b);
  }

  /** A reallocation of RT_NULL is an allocation, and fails exactly where that does. */
  lemma ReallocNothing(h: Heap, size: nat)
    requires WellFormed(h) && size > 0
    ensures Realloc(h, 0, size).ptr == 0 <==>
      (forall c :: c in h.blocks && !c.used ==> c.size < Request(size)) || FreeBytes(h.blocks) == Request(size)
    ensures Realloc(h, 0, size) == Alloc(h, size)
  {
    RequestTwice(size);
    AllocFails(h, Request(size));
  }

  lemma RunOne(h: Heap, a: Action)
    requires WellFormed(h) && Enabled(h, a)
    ensures Run(h, [a]) == Act(h, a)
  {
    ActWellFormed(h, a);
    assert [a][1..] == [];
  }

  lemma RunTwo(h: Heap, a: Action, b: Action)
    requires WellFormed(h) && Enabled(h, a) && WellFormed(Act(h, a)) && Enabled(Act(h, a), b)
    ensures Run(h, [a, b]) == Act(Act(h, a), b)
  {
    hide Act, WellFormed, Enabled;
    assert [a, b][1..] == [b];
    RunOne(Act(h, a), b);
  }

  /** A reallocation is one or two locked sections of the kinds above. */
  lemma ReallocIsRun(h: Heap, ptr: nat, size: nat) returns (actions: seq<Action>)
    requires WellFormed(h) && (ptr == 0 || Live(h, ptr))
    ensures Realloc(h, ptr, size).heap == Run(h, actions) && |actions| <= 2
  {
    hide Alloc, Free, FreeAt, WellFormed, Live, ResizeInPlace;
    if size == 0 {
      actions := if ptr == 0 then [] else [Deallocate(ptr)];
      if ptr != 0 {
        RunOne(h, Deallocate(ptr));
      }
    } else if ptr == 0 {
      actions := [Allocate(Request(size))];
      RunOne(h, Allocate(Request(size)));
    } else if PlanFor(h.blocks, LiveIndex(h, ptr), Request(size)) != Move {
      actions := [Resize(ptr, size)];
      RunOne(h, Resize(ptr, size));
    } else if Alloc(h, Request(size)).ptr == 0 {
      actions := [];
    } else {
      AllocKeepsLive(h, Request(size), ptr);
      actions := [Allocate(Request(size)), Deallocate(ptr)];
      RunTwo(h, Allocate(Request(size)), Deallocate(ptr));
    }
  }

  lemma ReallocWellFormed(h: Heap, ptr: nat, size: nat)
    requires WellFormed(h) && (ptr == 0 || Live(h, ptr))
    ensures WellFormed(Realloc(h, ptr, size).heap)
  {
    var actions := ReallocIsRun(h, ptr, size);
  }
}
