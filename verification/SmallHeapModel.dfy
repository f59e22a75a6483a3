/**
 What the small system heap (mem.c) is, with the offsets taken away: blocks that
 tile the heap up to heap_end, and the high-water mark. The class in SmallHeap.dfy
 is proved to compute exactly these functions.
 */
module SmallHeapModel {
  import opened Tiling
  import opened Arithmetic

  const MIN_SIZE: nat := 12

  /** SIZEOF_STRUCT_MEM, the aligned size of a block header. */
  type HeaderSize = n: nat | 12 <= n <= 64 && n % 4 == 0 witness 12
  const HEADER: HeaderSize

  /** `size` is mem_size_aligned; `blocks` ends with heap_end, allocated and without payload. */
  datatype Heap = Heap(size: nat, blocks: seq<Block>, peak: nat)

  // ---- Well-formed heaps ----

  ghost predicate Aligned(bs: seq<Block>) {
    forall i :: 0 <= i < |bs| ==> bs[i].addr % 4 == 0 && bs[i].size % 4 == 0
  }

  /** used_mem: header and payload of every allocated block but heap_end. */
  ghost function InUse(h: Heap): int {
    UsedBytes(HEADER, h.blocks) - HEADER
  }

  /** Every allocated block but heap_end has a payload. */
  ghost predicate HavePayload(size: nat, bs: seq<Block>) {
    forall b :: b in UsedBlocks(bs) ==> b.size > 0 || b.addr == size + HEADER
  }

  ghost predicate WellFormed(h: Heap) {
    && Canonical(HEADER, 0, h.size + 2 * HEADER, h.blocks)
    && Aligned(h.blocks) && HavePayload(h.size, h.blocks)
    && |h.blocks| > 1 && h.blocks[|h.blocks| - 1].size == 0
    && InUse(h) <= h.peak
  }

  /** `ptr` is the payload of an allocated block other than heap_end. */
  ghost predicate Live(h: Heap, ptr: nat) {
    exists i :: 0 <= i < |h.blocks| - 1 && h.blocks[i].used && h.blocks[i].addr + HEADER == ptr
  }

  ghost function LiveIndex(h: Heap, ptr: nat): (i: nat)
    requires Live(h, ptr)
    ensures i < |h.blocks| - 1 && h.blocks[i].used && h.blocks[i].addr + HEADER == ptr
  {
    var i :| 0 <= i < |h.blocks| - 1 && h.blocks[i].used && h.blocks[i].addr + HEADER == ptr;
    i
  }

  ghost function BlockOf(h: Heap, ptr: nat): Block
    requires Live(h, ptr)
  {
    h.blocks[LiveIndex(h, ptr)]
  }

  /** The lowest free block, or heap_end: where lfree points. */
  ghost function FirstFree(bs: seq<Block>): (k: nat)
    requires |bs| > 0
    ensures k < |bs| && (k < |bs| - 1 ==> !bs[k].used)
    ensures forall j :: 0 <= j < k ==> bs[j].used
  {
    if |bs| == 1 || !bs[0].used then 0 else 1 + FirstFree(bs[1..])
  }

  lemma FirstFreeIs(bs: seq<Block>, k: nat)
    requires k < |bs| && (k < |bs| - 1 ==> !bs[k].used)
    requires forall j :: 0 <= j < k ==> bs[j].used
    ensures FirstFree(bs) == k
  {
  }

  // ---- Operations ----

  function AlignUp(size: nat): nat {
    (size + 3) / 4 * 4
  }

  function BeginAlign(begin: nat): nat {
    AlignUp(begin)
  }

  function EndAlign(end: nat): nat {
    end / 4 * 4
  }

  predicate Enough(begin: nat, end: nat) {
    EndAlign(end) > 2 * HEADER && EndAlign(end) - 2 * HEADER >= BeginAlign(begin)
  }

  /** rt_system_heap_init: one free block. */
  function Init(begin: nat, end: nat): Heap
    requires Enough(begin, end)
  {
    Empty(EndAlign(end) - BeginAlign(begin) - 2 * HEADER)
  }

  function Empty(size: nat): Heap {
    Heap(size, [Block(0, size, false), Block(size + HEADER, 0, true)], 0)
  }

  function Request(size: nat): nat {
    if AlignUp(size) < MIN_SIZE then MIN_SIZE else AlignUp(size)
  }

  /** What the search accepts: a free block that is large enough and starts below size - req. */
  predicate Fits(size: nat, b: Block, req: nat) {
    !b.used && b.size >= req && b.addr + req < size
  }

  function FirstFit(size: nat, bs: seq<Block>, req: nat): (k: nat)
    ensures k <= |bs| && (k < |bs| ==> Fits(size, bs[k], req))
    ensures forall j :: 0 <= j < k ==> !Fits(size, bs[j], req)
    decreases |bs|
  {
    if bs == [] || Fits(size, bs[0], req) then 0 else 1 + FirstFit(size, bs[1..], req)
  }

  ghost function WithBlocks(h: Heap, bs: seq<Block>): Heap {
    h.(blocks := bs)
  }

  /** Block k is allocated, cut to `req` bytes if the rest can hold a block of its own. */
  function Taken(bs: seq<Block>, k: nat, req: nat): seq<Block>
    requires k < |bs| && bs[k].size >= req
  {
    if bs[k].size >= req + HEADER + MIN_SIZE then Split(HEADER, bs, k, req, false) else SetUsed(bs, k, true)
  }

  ghost function Take(h: Heap, k: nat, req: nat): Heap
    requires k < |h.blocks| && h.blocks[k].size >= req
  {
    var bs := Taken(h.blocks, k, req);
    var used := UsedBytes(HEADER, bs) - HEADER;
    Heap(h.size, bs, if h.peak < used then used else h.peak)
  }

  datatype Outcome = Outcome(heap: Heap, ptr: nat)

  /** rt_malloc; the result is the offset of a payload, 0 for RT_NULL. */
  ghost function Alloc(h: Heap, size: nat): Outcome {
    if size == 0 || AlignUp(size) > h.size then Outcome(h, 0)
    else
      var k := FirstFit(h.size, h.blocks, Request(size));
      if k < |h.blocks| then Outcome(Take(h, k, Request(size)), h.blocks[k].addr + HEADER) else Outcome(h, 0)
  }

  /** rt_free on a live pointer. */
  ghost function Free(h: Heap, ptr: nat): Heap
    requires Live(h, ptr)
  {
    h.(blocks := Release(HEADER, h.blocks, LiveIndex(h, ptr)))
  }

  /** The shrinking branch of rt_realloc: the end of block i is cut off and merged to the right. */
  function Shrink(h: Heap, i: nat, size: nat): Heap
    requires i < |h.blocks| && h.blocks[i].size >= size + HEADER
  {
    h.(blocks := Release(HEADER, Split(HEADER, h.blocks, i, size, true), i + 1))
  }

  predicate Shrinks(b: Block, size: nat) {
    size + HEADER + MIN_SIZE < b.size
  }

  // ---- Every operation keeps the heap well formed ----

  lemma EmptyWellFormed(size: nat)
    requires size % 4 == 0
    ensures WellFormed(Empty(size)) && InUse(Empty(size)) == 0
  {
    var b, e := Block(0, size, false), Block(size + HEADER, 0, true);
    SumsOfTwo(HEADER, b, e);
    SumsOfOne(HEADER, b);
    SumsOfOne(HEADER, e);
  }

  lemma InitWellFormed(begin: nat, end: nat)
    requires Enough(begin, end)
    ensures WellFormed(Init(begin, end)) && InUse(Init(begin, end)) == 0
  {
    EmptyWellFormed(Init(begin, end).size);
  }

  /** heap_end counts with its header, so used_mem is never negative. */
  lemma {:induction false} LastCounts(bs: seq<Block>)
    requires |bs| > 0 && bs[|bs| - 1].used
    ensures UsedBytes(HEADER, bs) >= HEADER
    decreases |bs|
  {
    if |bs| > 1 {
      LastCounts(bs[1..]);
    }
  }

  lemma Assemble(h: Heap, bs: seq<Block>)
    requires WellFormed(h) && Canonical(HEADER, 0, h.size + 2 * HEADER, bs) && Aligned(bs)
    requires |bs| > 1 && bs[|bs| - 1].size == 0 && UsedBytes(HEADER, bs) <= UsedBytes(HEADER, h.blocks)
    requires HavePayload(h.size, bs)
    ensures WellFormed(WithBlocks(h, bs))
  {
  }

  lemma ReplaceAligned(bs: seq<Block>, i: nat, n: nat, new': seq<Block>)
    requires Aligned(bs) && Aligned(new') && i + n <= |bs|
    ensures Aligned(Replace(bs, i, n, new'))
  {
  }

  /** What taking a free block does: it is the only new allocated block. */
  lemma TakenMeaning(h: Heap, k: nat, req: nat) returns (b: Block)
    requires WellFormed(h) && k < |h.blocks| - 1 && !h.blocks[k].used && h.blocks[k].size >= req && req % 4 == 0
    ensures var bs := Taken(h.blocks, k, req);
      && Canonical(HEADER, 0, h.size + 2 * HEADER, bs) && Aligned(bs)
      && |bs| > 1 && bs[|bs| - 1] == h.blocks[|h.blocks| - 1]
      && UsedBlocks(bs) == UsedBlocks(h.blocks) + {b} && b !in UsedBlocks(h.blocks)
      && UsedBytes(HEADER, bs) == UsedBytes(HEADER, h.blocks) + HEADER + b.size
    ensures b.used && b.addr == h.blocks[k].addr && req <= b.size < req + HEADER + MIN_SIZE
    ensures b.size == if h.blocks[k].size >= req + HEADER + MIN_SIZE then req else h.blocks[k].size
  {
    if h.blocks[k].size >= req + HEADER + MIN_SIZE {
      b := SplitTaken(h, k, req);
    } else {
      b := WholeTaken(h, k, req);
    }
  }

  lemma SplitTaken(h: Heap, k: nat, req: nat) returns (b: Block)
    requires WellFormed(h) && k < |h.blocks| - 1 && !h.blocks[k].used && req % 4 == 0
    requires h.blocks[k].size >= req + HEADER
    ensures var bs := Split(HEADER, h.blocks, k, req, false);
      && Canonical(HEADER, 0, h.size + 2 * HEADER, bs) && Aligned(bs)
      && |bs| > 1 && bs[|bs| - 1] == h.blocks[|h.blocks| - 1]
      && UsedBlocks(bs) == UsedBlocks(h.blocks) + {b} && b !in UsedBlocks(h.blocks)
      && UsedBytes(HEADER, bs) == UsedBytes(HEADER, h.blocks) + HEADER + b.size
    ensures b == Block(h.blocks[k].addr, req, true)
  {
    hide UsedBytes, UsedBlocks, Tiled, Aligned, Replace, InUse, HavePayload;
    var bs, lo, hi := h.blocks, 0, h.size + 2 * HEADER;
    var new' := Halves(HEADER, bs[k], req, false);
    b := new'[0];
    SplitMeaning(HEADER, lo, hi, bs, k, req, false);
    FreeIsIsolated(bs, k);
    ReplaceNoAdjacentFree(bs, k, 1, new');
    SplitUsed(h, k, req);
    NewBlock(h, k, b);
    AlignedHalves(bs, k, req, false);
    ReplaceLength(bs, k, 1, new');
  }

  lemma SplitUsed(h: Heap, k: nat, req: nat)
    requires WellFormed(h) && k < |h.blocks| && !h.blocks[k].used && h.blocks[k].size >= req + HEADER
    ensures UsedBlocks(Split(HEADER, h.blocks, k, req, false))
      == UsedBlocks(h.blocks) + {Block(h.blocks[k].addr, req, true)}
  {
    var new' := Halves(HEADER, h.blocks[k], req, false);
    ReplaceUsedBlocks(HEADER, 0, h.size + 2 * HEADER, h.blocks, k, new');
    assert UsedBlocks(new') == {new'[0]};
  }

  lemma AlignedHalves(bs: seq<Block>, k: nat, req: nat, restUsed: bool)
    requires Aligned(bs) && k < |bs| && bs[k].size >= req + HEADER && req % 4 == 0
    ensures Aligned(Split(HEADER, bs, k, req, restUsed))
  {
    ReplaceAligned(bs, k, 1, Halves(HEADER, bs[k], req, restUsed));
  }

  lemma NewBlock(h: Heap, k: nat, b: Block)
    requires WellFormed(h) && k < |h.blocks| && !h.blocks[k].used && b.used && b.addr == h.blocks[k].addr
    ensures b !in UsedBlocks(h.blocks)
  {
    if j :| 0 <= j < |h.blocks| && h.blocks[j] == b {
      SameAddrSameIndex(HEADER, 0, h.size + 2 * HEADER, h.blocks, j, k);
    }
  }

  lemma WholeTaken(h: Heap, k: nat, req: nat) returns (b: Block)
    requires WellFormed(h) && k < |h.blocks| - 1 && !h.blocks[k].used
    ensures var bs := SetUsed(h.blocks, k, true);
      && Canonical(HEADER, 0, h.size + 2 * HEADER, bs) && Aligned(bs)
      && |bs| > 1 && bs[|bs| - 1] == h.blocks[|h.blocks| - 1]
      && UsedBlocks(bs) == UsedBlocks(h.blocks) + {b} && b !in UsedBlocks(h.blocks)
      && UsedBytes(HEADER, bs) == UsedBytes(HEADER, h.blocks) + HEADER + b.size
    ensures b == h.blocks[k].(used := true)
  {
    hide UsedBytes;
    var bs, lo, hi := h.blocks, 0, h.size + 2 * HEADER;
    b := bs[k].(used := true);
    SetUsedMeaning(HEADER, lo, hi, bs, k, true);
    ReplaceNoAdjacentFree(bs, k, 1, [b]);
    NewBlock(h, k, b);
    ReplaceAligned(bs, k, 1, [b]);
  }

  /** A block that fits is not heap_end. */
  lemma FitIsInner(h: Heap, req: nat)
    requires WellFormed(h) && FirstFit(h.size, h.blocks, req) < |h.blocks|
    ensures FirstFit(h.size, h.blocks, req) < |h.blocks| - 1
  {
  }

  lemma FitOf(h: Heap, req: nat)
    ensures var k := FirstFit(h.size, h.blocks, req);
      k <= |h.blocks| && (k < |h.blocks| ==> !h.blocks[k].used && h.blocks[k].size >= req)
  {
  }

  lemma BlockInside(h: Heap, k: nat)
    requires WellFormed(h) && k < |h.blocks| - 1
    ensures h.blocks[k].addr < h.size + HEADER && h.blocks[|h.blocks| - 1].used
  {
    var last := |h.blocks| - 1;
    assert End(HEADER, h.blocks[last]) == h.size + 2 * HEADER;
    Ordered(HEADER, 0, h.size + 2 * HEADER, h.blocks, k, last);
  }

  lemma RequestAligned(size: nat)
    ensures Request(size) % 4 == 0 && Request(size) >= MIN_SIZE && Request(size) >= size
  {
  }

  /** Exactly what a successful malloc adds: one block, first fit, at least as large as asked for. */
  lemma AllocAdds(h: Heap, size: nat) returns (b: Block)
    requires WellFormed(h) && Alloc(h, size).ptr != 0
    ensures WellFormed(Alloc(h, size).heap) && Alloc(h, size).heap.size == h.size
    ensures Live(Alloc(h, size).heap, Alloc(h, size).ptr) && b == BlockOf(Alloc(h, size).heap, Alloc(h, size).ptr)
    ensures b.addr + HEADER == Alloc(h, size).ptr && Request(size) <= b.size < Request(size) + HEADER + MIN_SIZE
    ensures UsedBlocks(Alloc(h, size).heap.blocks) == UsedBlocks(h.blocks) + {b} && b !in UsedBlocks(h.blocks)
    ensures InUse(Alloc(h, size).heap) == InUse(h) + HEADER + b.size
    ensures Alloc(h, size).heap.peak == Max(h.peak, InUse(h) + HEADER + b.size)
  {
    hide UsedBytes, FirstFit, Taken, UsedBlocks, Canonical, Aligned;
    RequestAligned(size);
    var req := Request(size);
    var k := FirstFit(h.size, h.blocks, req);
    FitIsInner(h, req);
    FitOf(h, req);
    b := TakenMeaning(h, k, req);
    var o := Alloc(h, size);
    BlockInside(h, k);
    LastCounts(o.heap.blocks);
    assert o.ptr == b.addr + HEADER && b in UsedBlocks(o.heap.blocks);
    NamesBlock(o.heap, o.ptr, b);
  }

  /** Of the free blocks it accepts, malloc takes the lowest. */
  lemma AllocLowest(h: Heap, size: nat, i: nat)
    requires WellFormed(h) && Alloc(h, size).ptr != 0
    requires i < |h.blocks| && Fits(h.size, h.blocks[i], Request(size))
    ensures Alloc(h, size).ptr <= h.blocks[i].addr + HEADER
  {
    var k := FirstFit(h.size, h.blocks, Request(size));
    if k < i {
      Ordered(HEADER, 0, h.size + 2 * HEADER, h.blocks, k, i);
    }
  }

  /** The offset test only ever rejects the last block of the heap, and that only when it fits exactly. */
  lemma FitsIff(h: Heap, i: nat, req: nat)
    requires WellFormed(h) && i < |h.blocks| && req > 0
    ensures Fits(h.size, h.blocks[i], req) <==>
      !h.blocks[i].used && h.blocks[i].size >= req && !(i == |h.blocks| - 2 && h.blocks[i].size == req)
  {
    var bs, last := h.blocks, |h.blocks| - 1;
    assert End(HEADER, bs[last]) == h.size + 2 * HEADER;
    assert bs[last].addr == End(HEADER, bs[last - 1]);
    if i < last - 1 {
      Ordered(HEADER, 0, h.size + 2 * HEADER, bs, i, last - 1);
    }
  }

  /**
   Exactly when malloc fails: nothing asked for, or no free block is large enough but the last one
   fitting exactly.
   */
  lemma AllocFails(h: Heap, size: nat)
    requires WellFormed(h)
    ensures Alloc(h, size).ptr == 0 <==>
      size == 0 || AlignUp(size) > h.size
      || forall i :: 0 <= i < |h.blocks| && !h.blocks[i].used && h.blocks[i].size >= Request(size) ==>
           i == |h.blocks| - 2 && h.blocks[i].size == Request(size)
    ensures Alloc(h, size).ptr == 0 ==> Alloc(h, size).heap == h
  {
    var req, k := Request(size), FirstFit(h.size, h.blocks, Request(size));
    RequestAligned(size);
    if k < |h.blocks| {
      FitsIff(h, k, req);
    } else {
      forall i | 0 <= i < |h.blocks| && !h.blocks[i].used && h.blocks[i].size >= req
        ensures i == |h.blocks| - 2 && h.blocks[i].size == req
      {
        FitsIff(h, i, req);
      }
    }
  }

  /** The whole of a fresh heap cannot be allocated, though it is free. */
  lemma WholeHeapRefused(size: nat)
    requires size % 4 == 0 && size >= MIN_SIZE
    ensures Alloc(Empty(size), size).ptr == 0
    ensures size > MIN_SIZE ==> Alloc(Empty(size), size - 4).ptr == HEADER
  {
    EmptyWellFormed(size);
    AllocFails(Empty(size), size);
    if size > MIN_SIZE {
      AllocFails(Empty(size), size - 4);
      assert Empty(size).blocks[0].size >= Request(size - 4);
      var k := FirstFit(size, Empty(size).blocks, Request(size - 4));
      assert k == 0;
    }
  }

  // ---- Pointers name blocks ----

  lemma NamesBlock(h: Heap, ptr: nat, b: Block)
    requires WellFormed(h) && b in UsedBlocks(h.blocks) && b.addr + HEADER == ptr && b.addr < h.size + HEADER
    ensures Live(h, ptr) && BlockOf(h, ptr) == b
  {
    var i :| 0 <= i < |h.blocks| && h.blocks[i] == b;
    var last := |h.blocks| - 1;
    assert End(HEADER, h.blocks[last]) == h.size + 2 * HEADER;
    assert i < last;
    SameAddrSameIndex(HEADER, 0, h.size + 2 * HEADER, h.blocks, i, LiveIndex(h, ptr));
  }

  lemma LiveIsUsed(h: Heap, ptr: nat)
    requires WellFormed(h) && Live(h, ptr)
    ensures BlockOf(h, ptr) in UsedBlocks(h.blocks) && BlockOf(h, ptr).addr + HEADER == ptr
    ensures BlockOf(h, ptr).addr < h.size + HEADER && End(HEADER, BlockOf(h, ptr)) <= h.size + HEADER
    ensures BlockOf(h, ptr).size > 0 && ptr < h.size + HEADER
  {
    var i, last := LiveIndex(h, ptr), |h.blocks| - 1;
    assert End(HEADER, h.blocks[last]) == h.size + 2 * HEADER;
    Ordered(HEADER, 0, h.size + 2 * HEADER, h.blocks, i, last);
  }

  /** A block that is still allocated in another state is live there too. */
  lemma LiveTransfer(h: Heap, h': Heap, q: nat)
    requires WellFormed(h) && WellFormed(h') && h.size == h'.size && Live(h, q)
    requires BlockOf(h, q) in UsedBlocks(h'.blocks)
    ensures Live(h', q) && BlockOf(h', q) == BlockOf(h, q)
  {
    LiveIsUsed(h, q);
    NamesBlock(h', q, BlockOf(h, q));
  }

  // ---- Release and shrink ----

  lemma MergeAligned(bs: seq<Block>, j: nat)
    requires Aligned(bs) && j + 1 < |bs|
    ensures Aligned(MergeAt(HEADER, bs, j))
  {
    hide Replace;
    var m := Block(bs[j].addr, bs[j].size + HEADER + bs[j + 1].size, false);
    assert m.size % 4 == 0;
    ReplaceAligned(bs, j, 2, [m]);
  }

  lemma ReleaseAligned(bs: seq<Block>, i: nat)
    requires Aligned(bs) && i < |bs|
    ensures Aligned(Release(HEADER, bs, i))
  {
    hide MergeAt, SetUsed, Aligned;
    SetUsedAligned(bs, i);
    var f := SetUsed(bs, i, false);
    if i + 1 < |f| && !f[i + 1].used {
      MergeAligned(f, i);
    }
    var r := MergeRight(HEADER, f, i);
    MergedLength(f, i);
    if i > 0 && !r[i - 1].used {
      MergeAligned(r, i - 1);
    }
  }

  lemma SetUsedAligned(bs: seq<Block>, i: nat)
    requires Aligned(bs) && i < |bs|
    ensures |SetUsed(bs, i, false)| == |bs| && Aligned(SetUsed(bs, i, false))
  {
    hide Replace;
    ReplaceAligned(bs, i, 1, [bs[i].(used := false)]);
    ReplaceLength(bs, i, 1, [bs[i].(used := false)]);
  }

  lemma ReplaceLength(bs: seq<Block>, i: nat, n: nat, new': seq<Block>)
    requires i + n <= |bs|
    ensures |Replace(bs, i, n, new')| == |bs| - n + |new'|
    ensures i + n < |bs| ==> Replace(bs, i, n, new')[|bs| - n + |new'| - 1] == bs[|bs| - 1]
  {
  }

  lemma MergedLength(f: seq<Block>, i: nat)
    requires i < |f|
    ensures i < |MergeRight(HEADER, f, i)|
  {
    hide Replace;
    if i + 1 < |f| && !f[i + 1].used {
      ReplaceLength(f, i, 2, [Block(f[i].addr, f[i].size + HEADER + f[i + 1].size, false)]);
    }
  }

  lemma MergeLast(f: seq<Block>, j: nat)
    requires j + 2 < |f|
    ensures var r := MergeAt(HEADER, f, j); |r| == |f| - 1 && r[|r| - 1] == f[|f| - 1]
  {
    hide Replace;
    ReplaceLength(f, j, 2, [Block(f[j].addr, f[j].size + HEADER + f[j + 1].size, false)]);
  }

  lemma SetUsedLast(bs: seq<Block>, i: nat)
    requires i + 1 < |bs|
    ensures var f := SetUsed(bs, i, false); |f| == |bs| && f[|f| - 1] == bs[|bs| - 1]
  {
    hide Replace;
    ReplaceLength(bs, i, 1, [bs[i].(used := false)]);
  }

  /** A release keeps the last block, since that is allocated. */
  lemma ReleaseLast(bs: seq<Block>, i: nat)
    requires i + 1 < |bs| && bs[|bs| - 1].used
    ensures var r := Release(HEADER, bs, i);
      |r| > 1 && r[|r| - 1] == bs[|bs| - 1]
  {
    hide SetUsed, MergeAt;
    var f := SetUsed(bs, i, false);
    SetUsedLast(bs, i);
    if !f[i + 1].used {
      MergeLast(f, i);
    }
    var r := MergeRight(HEADER, f, i);
    if i > 0 && !r[i - 1].used {
      MergeLast(r, i - 1);
    }
  }

  /** Releasing block i of an intermediate block list of h. */
  lemma ReleaseWellFormed(h: Heap, bs: seq<Block>, i: nat)
    requires WellFormed(h) && Canonical(HEADER, 0, h.size + 2 * HEADER, bs) && Aligned(bs)
    requires i < |bs| - 1 && bs[i].used && bs[|bs| - 1].size == 0
    requires UsedBytes(HEADER, bs) == UsedBytes(HEADER, h.blocks) && HavePayload(h.size, bs)
    ensures WellFormed(WithBlocks(h, Release(HEADER, bs, i)))
    ensures UsedBlocks(Release(HEADER, bs, i)) == UsedBlocks(bs) - {bs[i]}
    ensures InUse(WithBlocks(h, Release(HEADER, bs, i))) + HEADER + bs[i].size == InUse(h)
  {
    ReleaseMeaning(HEADER, 0, h.size + 2 * HEADER, bs, i);
    ReleaseAligned(bs, i);
    ReleaseLast(bs, i);
    hide Release, UsedBytes, UsedBlocks;
    Assemble(h, Release(HEADER, bs, i));
  }

  /** Releasing one block takes exactly that block out; no two free blocks end up as neighbours. */
  lemma FreeWellFormed(h: Heap, ptr: nat)
    requires WellFormed(h) && Live(h, ptr)
    ensures WellFormed(Free(h, ptr))
    ensures UsedBlocks(Free(h, ptr).blocks) == UsedBlocks(h.blocks) - {BlockOf(h, ptr)}
    ensures InUse(Free(h, ptr)) + HEADER + BlockOf(h, ptr).size == InUse(h)
  {
    hide Release, UsedBytes, UsedBlocks;
    ReleaseWellFormed(h, h.blocks, LiveIndex(h, ptr));
  }

  /** Shrinking exchanges block i for its first `size` bytes. */
  lemma ShrinkWellFormed(h: Heap, i: nat, size: nat) returns (b: Block)
    requires WellFormed(h) && i < |h.blocks| - 1 && h.blocks[i].used && Shrinks(h.blocks[i], size)
    requires size % 4 == 0 && size > 0
    ensures WellFormed(Shrink(h, i, size)) && b == Block(h.blocks[i].addr, size, true)
    ensures UsedBlocks(Shrink(h, i, size).blocks) == (UsedBlocks(h.blocks) - {h.blocks[i]}) + {b}
    ensures InUse(Shrink(h, i, size)) == InUse(h) - (h.blocks[i].size - size)
  {
    hide Release, UsedBytes, UsedBlocks, Split, Canonical, Aligned;
    b := Block(h.blocks[i].addr, size, true);
    var cut := CutMeaning(h, i, size);
    ReleaseWellFormed(h, cut, i + 1);
  }

  lemma CutMeaning(h: Heap, i: nat, size: nat) returns (cut: seq<Block>)
    requires WellFormed(h) && i < |h.blocks| - 1 && h.blocks[i].used && Shrinks(h.blocks[i], size)
    requires size % 4 == 0 && size > 0
    ensures cut == Split(HEADER, h.blocks, i, size, true)
    ensures Canonical(HEADER, 0, h.size + 2 * HEADER, cut) && Aligned(cut) && i + 2 < |cut| && cut[i + 1].used
    ensures cut[|cut| - 1] == h.blocks[|h.blocks| - 1] && cut[i + 1].size + size + HEADER == h.blocks[i].size
    ensures UsedBlocks(cut) - {cut[i + 1]}
      == (UsedBlocks(h.blocks) - {h.blocks[i]}) + {Block(h.blocks[i].addr, size, true)}
    ensures UsedBytes(HEADER, cut) == UsedBytes(HEADER, h.blocks) && HavePayload(h.size, cut)
  {
    hide UsedBlocks, UsedBytes, Replace, Canonical;
    cut := Split(HEADER, h.blocks, i, size, true);
    CutTiled(h, i, size);
    CutUsed(h, i, size);
    AlignedHalves(h.blocks, i, size, true);
  }

  lemma CutTiled(h: Heap, i: nat, size: nat)
    requires WellFormed(h) && i < |h.blocks| - 1 && h.blocks[i].used && h.blocks[i].size >= size + HEADER
    ensures var cut := Split(HEADER, h.blocks, i, size, true);
      && Canonical(HEADER, 0, h.size + 2 * HEADER, cut) && UsedBytes(HEADER, cut) == UsedBytes(HEADER, h.blocks)
      && i + 2 < |cut| && cut[i + 1] == Halves(HEADER, h.blocks[i], size, true)[1]
      && cut[|cut| - 1] == h.blocks[|h.blocks| - 1]
  {
    hide UsedBytes;
    SplitMeaning(HEADER, 0, h.size + 2 * HEADER, h.blocks, i, size, true);
    ReplaceNoAdjacentFree(h.blocks, i, 1, Halves(HEADER, h.blocks[i], size, true));
  }

  lemma CutUsed(h: Heap, i: nat, size: nat)
    requires WellFormed(h) && i < |h.blocks| - 1 && h.blocks[i].used && Shrinks(h.blocks[i], size) && size > 0
    ensures var cut, new' := Split(HEADER, h.blocks, i, size, true), Halves(HEADER, h.blocks[i], size, true);
      && UsedBlocks(cut) - {new'[1]} == (UsedBlocks(h.blocks) - {h.blocks[i]}) + {new'[0]}
      && HavePayload(h.size, cut)
  {
    hide Replace;
    var bs, lo, hi := h.blocks, 0, h.size + 2 * HEADER;
    var new' := Halves(HEADER, bs[i], size, true);
    ReplaceUsedBlocks(HEADER, lo, hi, bs, i, new');
    assert UsedBlocks(new') == {new'[0], new'[1]};
    NoBlockInside(HEADER, lo, hi, bs, i, new'[1].addr);
    assert new'[1] !in UsedBlocks(bs);
  }

  // ---- Undoing and reordering ----

  /** The block list is determined by what is allocated. */
  lemma SameUsedSameBlocks(g: Heap, h: Heap)
    requires WellFormed(g) && WellFormed(h) && g.size == h.size && UsedBlocks(g.blocks) == UsedBlocks(h.blocks)
    ensures g.blocks == h.blocks
  {
    CanonicalForm(HEADER, 0, h.size + 2 * HEADER, g.blocks, h.blocks);
  }

  /** Releasing what was just allocated restores the block list. */
  lemma AllocThenFree(h: Heap, size: nat)
    requires WellFormed(h) && Alloc(h, size).ptr != 0
    ensures Live(Alloc(h, size).heap, Alloc(h, size).ptr)
    ensures Free(Alloc(h, size).heap, Alloc(h, size).ptr).blocks == h.blocks
  {
    hide Alloc, WellFormed, UsedBlocks;
    var o := Alloc(h, size);
    var b := AllocAdds(h, size);
    FreeWellFormed(o.heap, o.ptr);
    SameUsedSameBlocks(Free(o.heap, o.ptr), h);
  }

  lemma UsedIsLive(h: Heap, b: Block)
    requires b in h.blocks && b.used
    ensures b == h.blocks[|h.blocks| - 1] || Live(h, b.addr + HEADER)
  {
    var i :| 0 <= i < |h.blocks| && h.blocks[i] == b;
  }

  /** When nothing is live, in whatever order it was released, the heap is as fresh. */
  lemma EmptyIsFresh(h: Heap)
    requires WellFormed(h) && h.size % 4 == 0 && forall ptr: nat :: !Live(h, ptr)
    ensures h.blocks == Empty(h.size).blocks
  {
    EmptyWellFormed(h.size);
    var last := |h.blocks| - 1;
    forall b | b in h.blocks && b.used
      ensures b == h.blocks[last]
    {
      UsedIsLive(h, b);
    }
    assert UsedBlocks(h.blocks) == {h.blocks[last]};
    assert h.blocks[last] == Block(h.size + HEADER, 0, true);
    assert UsedBlocks(Empty(h.size).blocks) == {h.blocks[last]};
    SameUsedSameBlocks(h, Empty(h.size));
  }

  // ---- When malloc returns ----

  /** rt_malloc subtracts the raised request from mem_size_aligned in an unsigned word. */
  predicate SearchEnds(hsize: nat, size: nat) {
    size == 0 || AlignUp(size) > hsize || hsize >= MIN_SIZE
  }

  /** The block the search is at after n steps: heap_end links to itself. */
  ghost function SearchedAfter(h: Heap, n: nat): nat
    requires |h.blocks| > 0
  {
    if FirstFree(h.blocks) + n < |h.blocks| then FirstFree(h.blocks) + n else |h.blocks| - 1
  }

  /**
   In a heap smaller than MIN_SIZE a request that is not turned away at once is raised
   above the heap size; the limit of the search wraps around and it never stops.
   */
  lemma SearchNeverEnds(h: Heap, size: nat, n: nat)
    requires WellFormed(h) && !SearchEnds(h.size, size)
    ensures var b := h.blocks[SearchedAfter(h, n)];
      b.addr < (h.size - Request(size)) % 0x1_0000_0000 && !(!b.used && b.size >= Request(size))
  {
    var i, last := SearchedAfter(h, n), |h.blocks| - 1;
    assert End(HEADER, h.blocks[last]) == h.size + 2 * HEADER;
    if i < last {
      Ordered(HEADER, 0, h.size + 2 * HEADER, h.blocks, i, last);
    }
    assert (h.size - Request(size)) % 0x1_0000_0000 == h.size - Request(size) + 0x1_0000_0000;
  }

  // ---- Realloc ----

  lemma AllocKeepsLive(h: Heap, size: nat, ptr: nat)
    requires WellFormed(h) && Live(h, ptr)
    ensures WellFormed(Alloc(h, size).heap) && Alloc(h, size).heap.size == h.size
    ensures Live(Alloc(h, size).heap, ptr) && BlockOf(Alloc(h, size).heap, ptr) == BlockOf(h, ptr)
  {
    if Alloc(h, size).ptr == 0 {
      AllocFails(h, size);
    } else {
      var b := AllocAdds(h, size);
      LiveIsUsed(h, ptr);
      LiveTransfer(h, Alloc(h, size).heap, ptr);
    }
  }

  /** rt_realloc on RT_NULL (0) or a live pointer. */
  ghost function Realloc(h: Heap, ptr: nat, newsize: nat): Outcome
    requires WellFormed(h) && (ptr == 0 || Live(h, ptr))
  {
    var size := AlignUp(newsize);
    if size > h.size then Outcome(h, 0)
    else if size == 0 then Outcome(if ptr == 0 then h else Free(h, ptr), 0)
    else if ptr == 0 then Alloc(h, size)
    else if BlockOf(h, ptr).size == size then Outcome(h, ptr)
    else if Shrinks(BlockOf(h, ptr), size) then Outcome(Shrink(h, LiveIndex(h, ptr), size), ptr)
    else
      AllocKeepsLive(h, size, ptr);
      var o := Alloc(h, size);
      if o.ptr == 0 then o else Outcome(Free(o.heap, ptr), o.ptr)
  }

  /**
   A realloc that returns a pointer exchanges the old block for one of at least the new size and
   touches no other; one that returns null without releasing leaves the heap as it was.
   */
  lemma ReallocMeaning(h: Heap, ptr: nat, newsize: nat)
    requires WellFormed(h) && Live(h, ptr)
    ensures var o := Realloc(h, ptr, newsize);
      && WellFormed(o.heap) && o.heap.size == h.size
      && (newsize == 0 ==> o.ptr == 0 && UsedBlocks(o.heap.blocks) == UsedBlocks(h.blocks) - {BlockOf(h, ptr)})
      && (newsize > 0 && o.ptr == 0 ==> o.heap == h)
      && (newsize > 0 && o.ptr != 0 ==>
            Live(o.heap, o.ptr) && BlockOf(o.heap, o.ptr).size >= newsize
            && UsedBlocks(o.heap.blocks) == (UsedBlocks(h.blocks) - {BlockOf(h, ptr)}) + {BlockOf(o.heap, o.ptr)})
  {
    hide Alloc, WellFormed, UsedBlocks, Release, Split, Live;
    var size, i := AlignUp(newsize), LiveIndex(h, ptr);
    LiveIsUsed(h, ptr);
    if size > h.size {
    } else if size == 0 {
      FreeWellFormed(h, ptr);
    } else if BlockOf(h, ptr).size == size {
    } else if Shrinks(BlockOf(h, ptr), size) {
      var b := ShrinkWellFormed(h, i, size);
      NamesBlock(Shrink(h, i, size), ptr, b);
    } else {
      ReallocMoves(h, ptr, size);
    }
  }

  /** The moving branch: allocate, then release the old block. */
  lemma ReallocMoves(h: Heap, ptr: nat, size: nat)
    requires WellFormed(h) && Live(h, ptr) && size > 0
    ensures Live(Alloc(h, size).heap, ptr)
    ensures var o := Alloc(h, size);
      && (o.ptr == 0 ==> o.heap == h)
      && (o.ptr != 0 ==>
            var g := Free(o.heap, ptr);
            && WellFormed(g) && g.size == h.size && Live(g, o.ptr) && BlockOf(g, o.ptr).size >= size
            && UsedBlocks(g.blocks) == (UsedBlocks(h.blocks) - {BlockOf(h, ptr)}) + {BlockOf(g, o.ptr)})
  {
    hide Alloc, WellFormed, Live;
    AllocKeepsLive(h, size, ptr);
    AllocFails(h, size);
    var o := Alloc(h, size);
    if o.ptr != 0 {
      var b := AllocAdds(h, size);
      LiveIsUsed(h, ptr);
      FreeWellFormed(o.heap, ptr);
      RequestAligned(size);
      LiveTransfer(o.heap, Free(o.heap, ptr), o.ptr);
    }
  }

  /**
   Asking again for the size a block was allocated with can fail: the block got a
   few bytes more than requested, too few to cut off, and there is no room for a copy.
   */
  lemma ReallocSameRequestFails()
    ensures var o := Alloc(Empty(28), 24);
      && o.ptr == HEADER && WellFormed(o.heap) && Live(o.heap, HEADER) && BlockOf(o.heap, HEADER).size == 28
      && Realloc(o.heap, HEADER, 24) == Outcome(o.heap, 0)
  {
    var e := Empty(28);
    EmptyWellFormed(28);
    assert FirstFit(28, e.blocks, 24) == 0;
    var b := AllocAdds(e, 24);
    var o := Alloc(e, 24);
    assert o.heap.blocks == [Block(0, 28, true), e.blocks[1]];
    AllocFails(o.heap, 24);
  }

  lemma AlignedTwice(n: nat)
    ensures AlignUp(AlignUp(n)) == AlignUp(n) && AlignUp(n) % 4 == 0 && n <= AlignUp(n) < n + 4
  {
  }

  /**
   Exactly when a realloc to a nonzero size returns null: the size exceeds the heap, or the block
   neither has that size already nor is large enough to be cut, and no free block can take a copy.
   */
  lemma ReallocFails(h: Heap, ptr: nat, newsize: nat)
    requires WellFormed(h) && Live(h, ptr) && newsize > 0
    ensures var size := AlignUp(newsize);
      Realloc(h, ptr, newsize).ptr == 0 <==>
        size > h.size
        || (BlockOf(h, ptr).size != size && !Shrinks(BlockOf(h, ptr), size)
            && forall i :: 0 <= i < |h.blocks| && !h.blocks[i].used && h.blocks[i].size >= Request(size) ==>
                 i == |h.blocks| - 2 && h.blocks[i].size == Request(size))
    ensures Realloc(h, ptr, newsize).ptr == 0 ==> Realloc(h, ptr, newsize).heap == h
  {
    hide Alloc, WellFormed, Live;
    AlignedTwice(newsize);
    AllocFails(h, AlignUp(newsize));
    AllocKeepsLive(h, AlignUp(newsize), ptr);
  }

  /** Exactly when the pointer comes back unchanged: the block has the rounded size already, or can be cut to it. */
  lemma ReallocStays(h: Heap, ptr: nat, newsize: nat)
    requires WellFormed(h) && Live(h, ptr) && newsize > 0
    ensures var size, b := AlignUp(newsize), BlockOf(h, ptr);
      Realloc(h, ptr, newsize).ptr == ptr <==> size <= h.size && (b.size == size || Shrinks(b, size))
  {
    hide Alloc, WellFormed, Live, Free, Shrink;
    LiveIsUsed(h, ptr);
    AllocElsewhere(h, ptr, AlignUp(newsize));
  }

  /** An allocation never returns a pointer that is live already. */
  lemma AllocElsewhere(h: Heap, ptr: nat, size: nat)
    requires WellFormed(h) && Live(h, ptr)
    ensures Alloc(h, size).ptr != ptr && ptr > 0
  {
    hide Alloc, WellFormed, UsedBlocks, Live;
    LiveIsUsed(h, ptr);
    if Alloc(h, size).ptr != 0 {
      var o := Alloc(h, size);
      var b := AllocAdds(h, size);
      AllocKeepsLive(h, size, ptr);
    }
  }

  /** A realloc of RT_NULL is an allocation, and returns null exactly where that does. */
  lemma ReallocNothing(h: Heap, newsize: nat)
    requires WellFormed(h)
    ensures Realloc(h, 0, newsize) == Alloc(h, newsize)
  {
    hide WellFormed, FirstFit;
    AlignedTwice(newsize);
  }

  /**
   A realloc that cuts a block leaves it with exactly the rounded new size.
   */
  lemma ReallocCutsExactly(h: Heap, ptr: nat, newsize: nat)
    requires WellFormed(h) && Live(h, ptr) && 0 < newsize && AlignUp(newsize) <= h.size
    requires Shrinks(BlockOf(h, ptr), AlignUp(newsize)) && BlockOf(h, ptr).size != AlignUp(newsize)
    ensures Realloc(h, ptr, newsize).ptr == ptr && Live(Realloc(h, ptr, newsize).heap, ptr)
    ensures BlockOf(Realloc(h, ptr, newsize).heap, ptr).size == AlignUp(newsize)
  {
    hide WellFormed, Release, Split, UsedBlocks, Alloc;
    var i := LiveIndex(h, ptr);
    LiveIsUsed(h, ptr);
    AlignedTwice(newsize);
    var b := ShrinkWellFormed(h, i, AlignUp(newsize));
    NamesBlock(Shrink(h, i, AlignUp(newsize)), ptr, b);
  }

  /** A realloc that moves a block leaves it with at least the minimum that malloc observes. */
  lemma ReallocMovesRoomy(h: Heap, ptr: nat, newsize: nat)
    requires WellFormed(h) && Live(h, ptr) && newsize > 0 && Realloc(h, ptr, newsize).ptr != 0
    requires BlockOf(h, ptr).size != AlignUp(newsize) && !Shrinks(BlockOf(h, ptr), AlignUp(newsize))
    ensures Live(Realloc(h, ptr, newsize).heap, Realloc(h, ptr, newsize).ptr)
    ensures BlockOf(Realloc(h, ptr, newsize).heap, Realloc(h, ptr, newsize).ptr).size >= MIN_SIZE
  {
    hide Alloc, WellFormed, Live;
    var size := AlignUp(newsize);
    AlignedTwice(newsize);
    RequestAligned(size);
    AllocKeepsLive(h, size, ptr);
    AllocFails(h, size);
    var o := Alloc(h, size);
    var b := AllocAdds(h, size);
    LiveIsUsed(h, ptr);
    FreeWellFormed(o.heap, ptr);
    LiveTransfer(o.heap, Free(o.heap, ptr), o.ptr);
  }

  /**
   Exactly when a realloc leaves a block below the minimum that malloc observes: at most 8 bytes
   are asked for, and the block has that size already or is cut to it.
   */
  lemma ReallocBelowMinimum(h: Heap, ptr: nat, newsize: nat)
    requires WellFormed(h) && Live(h, ptr) && newsize > 0 && Realloc(h, ptr, newsize).ptr != 0
    ensures var o, size := Realloc(h, ptr, newsize), AlignUp(newsize);
      && Live(o.heap, o.ptr)
      && (BlockOf(o.heap, o.ptr).size < MIN_SIZE <==>
            newsize <= 8 && (BlockOf(h, ptr).size == size || Shrinks(BlockOf(h, ptr), size)))
  {
    hide Alloc, WellFormed, Live, Shrink;
    AlignedTwice(newsize);
    if BlockOf(h, ptr).size == AlignUp(newsize) {
    } else if Shrinks(BlockOf(h, ptr), AlignUp(newsize)) {
      ReallocCutsExactly(h, ptr, newsize);
    } else {
      ReallocMovesRoomy(h, ptr, newsize);
    }
  }

  // ---- Runs ----

  /** One locked section; a moving realloc is an Allocate and a Deallocate with an unlocked copy between them. */
  datatype Action = Allocate(size: nat) | Deallocate(ptr: nat) | Cut(ptr: nat, size: nat)

  ghost predicate Enabled(h: Heap, a: Action) {
    match a
    case Allocate(_) => true
    case Deallocate(ptr) => Live(h, ptr)
    case Cut(ptr, size) => Live(h, ptr) && size > 0 && size % 4 == 0 && Shrinks(BlockOf(h, ptr), size)
  }

  ghost function Act(h: Heap, a: Action): Heap
    requires Enabled(h, a)
  {
    match a
    case Allocate(size) => Alloc(h, size).heap
    case Deallocate(ptr) => Free(h, ptr)
    case Cut(ptr, size) => Shrink(h, LiveIndex(h, ptr), size)
  }

  /** One section keeps the heap well formed and moves max_mem exactly to the new amount in use, if larger. */
  lemma ActMeaning(h: Heap, a: Action)
    requires WellFormed(h) && Enabled(h, a)
    ensures WellFormed(Act(h, a)) && Act(h, a).size == h.size
    ensures Act(h, a).peak == Max(h.peak, InUse(Act(h, a)))
  {
    match a
    case Allocate(size) =>
      AllocFails(h, size);
      if Alloc(h, size).ptr != 0 {
        var b := AllocAdds(h, size);
      }
    case Deallocate(ptr) => FreeWellFormed(h, ptr);
    case Cut(ptr, size) => var b := ShrinkWellFormed(h, LiveIndex(h, ptr), size);
  }

  /** Any interleaving of locked sections; sections that would break the caller's duties do not occur. */
  ghost function Run(h: Heap, actions: seq<Action>): (r: Heap)
    decreases |actions|
  {
    if actions == [] then h
    else Run(if Enabled(h, actions[0]) then Act(h, actions[0]) else h, actions[1..])
  }

  /** The largest amount of memory in use in any state of the run. */
  ghost function HighWater(h: Heap, actions: seq<Action>): int
    decreases |actions|
  {
    if actions == [] then InUse(h)
    else Max(InUse(h), HighWater(if Enabled(h, actions[0]) then Act(h, actions[0]) else h, actions[1..]))
  }

  /** In every run the heap stays well formed and max_mem is exactly the high-water mark of used_mem. */
  lemma {:induction false} PeakIsHighWater(h: Heap, actions: seq<Action>)
    requires WellFormed(h)
    ensures WellFormed(Run(h, actions)) && Run(h, actions).size == h.size
    ensures Run(h, actions).peak == Max(h.peak, HighWater(h, actions))
    decreases |actions|
  {
    hide Act, Enabled, InUse;
    assert InUse(h) <= h.peak by {
      PeakCovers(h);
    }
    hide WellFormed;
    if actions != [] {
      if Enabled(h, actions[0]) {
        ActMeaning(h, actions[0]);
        PeakIsHighWater(Act(h, actions[0]), actions[1..]);
        HighWaterCovers(Act(h, actions[0]), actions[1..]);
      } else {
        PeakIsHighWater(h, actions[1..]);
      }
    }
  }

  lemma PeakCovers(h: Heap)
    requires WellFormed(h)
    ensures InUse(h) <= h.peak
  {
  }

  lemma HighWaterCovers(h: Heap, actions: seq<Action>)
    ensures InUse(h) <= HighWater(h, actions)
  {
  }

  /** A run from a fresh heap that ends with nothing allocated ends with one free block again. */
  lemma RunToEmpty(begin: nat, end: nat, actions: seq<Action>)
    requires Enough(begin, end)
    requires forall ptr: nat :: !Live(Run(Init(begin, end), actions), ptr)
    ensures Run(Init(begin, end), actions).blocks == Init(begin, end).blocks
  {
    InitWellFormed(begin, end);
    PeakIsHighWater(Init(begin, end), actions);
    EmptyIsFresh(Run(Init(begin, end), actions));
  }

  lemma RunOne(h: Heap, a: Action)
    requires Enabled(h, a)
    ensures Run(h, [a]) == Act(h, a)
  {
    hide Act, Enabled;
    assert [a][1..] == [];
  }

  lemma RunTwo(h: Heap, a: Action, b: Action)
    requires Enabled(h, a) && Enabled(Act(h, a), b)
    ensures Run(h, [a, b]) == Act(Act(h, a), b)
  {
    hide Act, Enabled;
    assert [a, b][1..] == [b];
    RunOne(Act(h, a), b);
  }

  /** Every realloc is a run of at most two locked sections, so that what holds of runs holds of it. */
  lemma ReallocIsRun(h: Heap, ptr: nat, newsize: nat) returns (actions: seq<Action>)
    requires WellFormed(h) && (ptr == 0 || Live(h, ptr))
    ensures Realloc(h, ptr, newsize).heap == Run(h, actions) && |actions| <= 2
  {
    hide Alloc, Free, Shrink, WellFormed, Live;
    var size := AlignUp(newsize);
    AlignedTwice(newsize);
    actions := [];
    if size > h.size {
    } else if size == 0 {
      if ptr != 0 {
        actions := [Deallocate(ptr)];
        RunOne(h, Deallocate(ptr));
      }
    } else if ptr == 0 {
      actions := [Allocate(size)];
      RunOne(h, Allocate(size));
    } else if BlockOf(h, ptr).size == size {
    } else if Shrinks(BlockOf(h, ptr), size) {
      actions := [Cut(ptr, size)];
      RunOne(h, Cut(ptr, size));
    } else {
      AllocKeepsLive(h, size, ptr);
      AllocFails(h, size);
      if Alloc(h, size).ptr != 0 {
        actions := [Allocate(size), Deallocate(ptr)];
        RunTwo(h, Allocate(size), Deallocate(ptr));
      }
    }
  }
}
