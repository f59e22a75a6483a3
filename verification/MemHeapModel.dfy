/**
 What a memory heap (memheap.c) is, with the pointers taken away: a tiled pool,
 the order of its free ring, and the high-water mark. The class MemHeap in
 MemHeap.dfy is proved to compute exactly these functions.
 */
module MemHeapModel {
  import opened Tiling
  import opened Sequences

  const MINIALLOC: nat := 12

  /** RT_MEMHEAP_SIZE, the aligned size of an item header. */
  type HeaderSize = n: nat | n > 0 && n % 4 == 0 witness 24
  const HEADER: HeaderSize

  /** `blocks` ends with the zero-length allocated tailer; `ring` lists the free blocks as the free ring does. */
  datatype Heap = Heap(start: nat, pool: nat, blocks: seq<Block>, ring: seq<nat>, peak: nat)

  // ---- Well-formed heaps ----

  ghost predicate Sized(bs: seq<Block>) {
    && (forall i :: 0 <= i < |bs| ==> bs[i].addr % 4 == 0 && bs[i].size % 4 == 0)
    && (forall i :: 0 <= i < |bs| - 1 ==> bs[i].size >= MINIALLOC)
  }

  /** The parts of well-formedness that speak of sizes only. */
  ghost predicate Shaped(bs: seq<Block>) {
    Sized(bs) && |bs| > 1 && bs[|bs| - 1].size == 0
  }

  ghost function FreeAddrs(bs: seq<Block>): set<nat> {
    if bs == [] then {} else FreeAddrs(bs[1..]) + if bs[0].used then {} else {bs[0].addr}
  }

  ghost predicate Lists(ring: seq<nat>, s: set<nat>) {
    && Distinct(ring)
    && forall a :: a in ring <==> a in s
  }

  /** The free ring holds exactly the free blocks, once each. */
  ghost predicate RingMatches(bs: seq<Block>, ring: seq<nat>) {
    Lists(ring, FreeAddrs(bs))
  }

  ghost function InUse(h: Heap): int {
    h.pool - FreeBytes(h.blocks)
  }

  ghost predicate WellFormed(h: Heap) {
    && h.start > 0
    && Canonical(HEADER, h.start, h.start + h.pool, h.blocks)
    && Shaped(h.blocks)
    && RingMatches(h.blocks, h.ring)
    && InUse(h) <= h.peak <= h.pool
  }

  /** `ptr` is the payload of an allocated block, the tailer excepted. */
  ghost predicate Live(h: Heap, ptr: nat) {
    exists i :: 0 <= i < |h.blocks| - 1 && h.blocks[i].used && h.blocks[i].addr + HEADER == ptr
  }

  ghost function IndexOf(bs: seq<Block>, addr: nat): (i: nat)
    requires exists i :: 0 <= i < |bs| && bs[i].addr == addr
    ensures i < |bs| && bs[i].addr == addr
  {
    var i :| 0 <= i < |bs| && bs[i].addr == addr;
    i
  }

  ghost function LiveIndex(h: Heap, ptr: nat): (i: nat)
    requires Live(h, ptr)
    ensures i < |h.blocks| - 1 && h.blocks[i].used && h.blocks[i].addr + HEADER == ptr
  {
    var i :| 0 <= i < |h.blocks| - 1 && h.blocks[i].used && h.blocks[i].addr + HEADER == ptr;
    i
  }

  // ---- Operations ----

  function Aligned(size: nat): nat {
    (size + 3) / 4 * 4
  }

  function Request(size: nat): nat {
    if Aligned(size) < MINIALLOC then MINIALLOC else Aligned(size)
  }

  /** pool_size and the single free block of a fresh heap. */
  function Init(start: nat, size: nat): Heap
    requires size >= 2 * HEADER + MINIALLOC
  {
    var pool := size / 4 * 4;
    Heap(start, pool,
         [Block(start, pool - 2 * HEADER, false), Block(start + pool - HEADER, 0, true)],
         [start], 2 * HEADER)
  }

  function RemoveAt(s: seq<nat>, k: nat): seq<nat>
    requires k < |s|
  {
    s[..k] + s[k + 1..]
  }

  /** s without the address a. */
  function Without(s: seq<nat>, a: nat): (r: seq<nat>)
  {
    if s == [] then [] else if s[0] == a then s[1..] else [s[0]] + Without(s[1..], a)
  }

  ghost function WithBlocks(h: Heap, blocks: seq<Block>, ring: seq<nat>): Heap {
    var used := h.pool - FreeBytes(blocks);
    h.(blocks := blocks, ring := ring, peak := if used > h.peak then used else h.peak)
  }

  /** k is the first place in the ring whose block can hold `size` bytes. */
  ghost predicate FirstFit(h: Heap, size: nat, k: nat) {
    && k < |h.ring|
    && Fits(h, size, h.ring[k])
    && forall j :: 0 <= j < k ==> !Fits(h, size, h.ring[j])
  }

  ghost predicate Fits(h: Heap, size: nat, addr: nat) {
    exists i :: 0 <= i < |h.blocks| && h.blocks[i].addr == addr && h.blocks[i].size >= size
  }

  /** Allocate `size` bytes at the front of block i, which is entry k of the ring. */
  ghost function Take(h: Heap, k: nat, i: nat, size: nat): Heap
    requires k < |h.ring| && i < |h.blocks| && size <= h.blocks[i].size
  {
    if h.blocks[i].size >= size + HEADER + MINIALLOC then
      WithBlocks(h, Split(HEADER, h.blocks, i, size, false),
                 [h.blocks[i].addr + HEADER + size] + RemoveAt(h.ring, k))
    else
      WithBlocks(h, SetUsed(h.blocks, i, true), RemoveAt(h.ring, k))
  }

  datatype Outcome = Outcome(heap: Heap, ptr: nat)

  /** rt_memheap_alloc; pointer 0 is RT_NULL. */
  ghost function Alloc(h: Heap, size: nat): Outcome
    requires WellFormed(h)
  {
    var s := Request(size);
    if s < FreeBytes(h.blocks) && exists k: nat :: FirstFit(h, s, k) then
      var k: nat :| FirstFit(h, s, k);
      RingAddrs(h, k);
      var i := IndexOf(h.blocks, h.ring[k]);
      FitAt(h, s, k, i);
      Outcome(Take(h, k, i, s), h.ring[k] + HEADER)
    else
      Outcome(h, 0)
  }

  /** The free ring after block i has been released. */
  ghost function ReleasedRing(bs: seq<Block>, ring: seq<nat>, i: nat): seq<nat>
    requires i < |bs| - 1
  {
    var rest := if bs[i + 1].used then ring else Without(ring, bs[i + 1].addr);
    if i > 0 && !bs[i - 1].used then rest else [bs[i].addr] + rest
  }

  ghost function FreeAt(h: Heap, i: nat): Heap
    requires i < |h.blocks| - 1
  {
    WithBlocks(h, Release(HEADER, h.blocks, i), ReleasedRing(h.blocks, h.ring, i))
  }

  /** rt_memheap_free on a live pointer. */
  ghost function Free(h: Heap, ptr: nat): Heap
    requires Live(h, ptr)
  {
    FreeAt(h, LiveIndex(h, ptr))
  }

  /** Whether block i can grow to `size` by moving the start of its free right neighbour. */
  predicate CanGrow(bs: seq<Block>, i: nat, size: nat)
    requires i + 1 < |bs|
  {
    !bs[i + 1].used && bs[i + 1].size + bs[i].size > size + MINIALLOC
  }

  function GrownPair(bs: seq<Block>, i: nat, size: nat): seq<Block>
    requires i + 1 < |bs| && CanGrow(bs, i, size)
  {
    var a := bs[i].addr;
    [Block(a, size, true), Block(a + HEADER + size, bs[i].size + bs[i + 1].size - size, false)]
  }

  ghost function Grow(h: Heap, i: nat, size: nat): Heap
    requires i + 1 < |h.blocks| && CanGrow(h.blocks, i, size)
  {
    WithBlocks(h, Replace(h.blocks, i, 2, GrownPair(h.blocks, i, size)),
               [h.blocks[i].addr + HEADER + size] + Without(h.ring, h.blocks[i + 1].addr))
  }

  /** Shrinking cuts the block in two allocated parts and releases the second. */
  ghost function Shrink(h: Heap, i: nat, size: nat): Heap
    requires i < |h.blocks| - 1 && h.blocks[i].size >= size + HEADER
  {
    var cut := Split(HEADER, h.blocks, i, size, true);
    WithBlocks(h, Release(HEADER, cut, i + 1), ReleasedRing(cut, h.ring, i + 1))
  }

  /** How a resize of block i to `size` (already rounded) bytes proceeds. */
  datatype Plan = InPlaceGrow | Keep | InPlaceShrink | Move

  function PlanFor(bs: seq<Block>, i: nat, size: nat): Plan
    requires i + 1 < |bs|
  {
    if size > bs[i].size then
      if CanGrow(bs, i, size) then InPlaceGrow else Move
    else if size + HEADER + MINIALLOC >= bs[i].size then Keep
    else InPlaceShrink
  }

  lemma RingAddrs(h: Heap, k: nat)
    requires RingMatches(h.blocks, h.ring) && k < |h.ring|
    ensures exists i :: 0 <= i < |h.blocks| && h.blocks[i].addr == h.ring[k]
  {
    assert h.ring[k] in FreeAddrs(h.blocks);
    FreeAddrsMember(h.blocks, h.ring[k]);
  }

  lemma {:induction false} FreeAddrsMember(bs: seq<Block>, a: nat)
    ensures a in FreeAddrs(bs) <==> exists i :: 0 <= i < |bs| && bs[i].addr == a && !bs[i].used
  {
    if bs != [] {
      FreeAddrsMember(bs[1..], a);
      if a in FreeAddrs(bs[1..]) {
        var i :| 0 <= i < |bs[1..]| && bs[1..][i].addr == a && !bs[1..][i].used;
        assert bs[i + 1].addr == a && !bs[i + 1].used;
      }
      if i :| 0 <= i < |bs| && bs[i].addr == a && !bs[i].used {
        if i > 0 {
          assert bs[1..][i - 1].addr == a && !bs[1..][i - 1].used;
        }
      }
    }
  }

  /** The block the ring entry names is free and large enough. */
  lemma FitAt(h: Heap, size: nat, k: nat, i: nat)
    requires WellFormed(h)
    requires FirstFit(h, size, k)
    requires i < |h.blocks| && h.blocks[i].addr == h.ring[k]
    ensures i < |h.blocks| - 1 && !h.blocks[i].used && h.blocks[i].size >= size
  {
    var j :| 0 <= j < |h.blocks| && h.blocks[j].addr == h.ring[k] && h.blocks[j].size >= size;
    SameAddrSameIndex(HEADER, h.start, h.start + h.pool, h.blocks, i, j);
    assert h.ring[k] in FreeAddrs(h.blocks);
    FreeAddrsMember(h.blocks, h.ring[k]);
    var l :| 0 <= l < |h.blocks| && h.blocks[l].addr == h.ring[k] && !h.blocks[l].used;
    SameAddrSameIndex(HEADER, h.start, h.start + h.pool, h.blocks, i, l);
  }

  lemma {:induction false} WithoutMembers(s: seq<nat>, a: nat)
    requires Distinct(s)
    ensures forall x :: x in Without(s, a) <==> x in s && x != a
    ensures Distinct(Without(s, a))
  {
    if s != [] {
      WithoutMembers(s[1..], a);
      assert s == [s[0]] + s[1..];
      assert s[0] !in s[1..];
    }
  }

  lemma RemoveLater(s: seq<nat>, k: nat)
    requires 0 < k < |s|
    ensures [s[0]] + RemoveAt(s[1..], k - 1) == RemoveAt(s, k)
  {
  }

  lemma {:induction false} WithoutAt(s: seq<nat>, k: nat)
    requires Distinct(s) && k < |s|
    ensures Without(s, s[k]) == RemoveAt(s, k)
  {
    if k == 0 {
      assert RemoveAt(s, 0) == s[1..];
    } else {
      var t := s[1..];
      assert t[k - 1] == s[k] && s[0] != s[k];
      WithoutAt(t, k - 1);
      RemoveLater(s, k);
    }
  }

  lemma {:induction false} WithoutAbsent(s: seq<nat>, a: nat)
    requires a !in s
    ensures Without(s, a) == s
  {
    if s != [] {
      WithoutAbsent(s[1..], a);
    }
  }

  lemma RemoveAtMembers(s: seq<nat>, k: nat)
    requires Distinct(s) && k < |s|
    ensures Distinct(RemoveAt(s, k))
    ensures forall x :: x in RemoveAt(s, k) <==> x in s && x != s[k]
  {
    WithoutMembers(s, s[k]);
    WithoutAt(s, k);
  }

  /** No address of the stretch i .. i+n starts a block elsewhere. */
  lemma StretchApart(lo: nat, hi: nat, bs: seq<Block>, i: nat, n: nat)
    requires Tiled(HEADER, lo, hi, bs)
    requires i + n <= |bs|
    ensures FreeAddrs(bs[i..i + n]) !! FreeAddrs(bs[..i])
    ensures FreeAddrs(bs[i..i + n]) !! FreeAddrs(bs[i + n..])
  {
    hide Tiled, FreeAddrs;
    forall a | a in FreeAddrs(bs[i..i + n])
      ensures a !in FreeAddrs(bs[..i]) && a !in FreeAddrs(bs[i + n..])
    {
      FreeAddrsMember(bs[i..i + n], a);
      var k :| 0 <= k < n && bs[i..i + n][k].addr == a;
      FreeAddrsMember(bs[..i], a);
      FreeAddrsMember(bs[i + n..], a);
      if a in FreeAddrs(bs[..i]) {
        var j :| 0 <= j < i && bs[..i][j].addr == a;
        SameAddrSameIndex(HEADER, lo, hi, bs, j, i + k);
      }
      if a in FreeAddrs(bs[i + n..]) {
        var j :| 0 <= j < |bs| - i - n && bs[i + n..][j].addr == a;
        SameAddrSameIndex(HEADER, lo, hi, bs, i + n + j, i + k);
      }
    }
  }

  /** What an exchange of blocks does to the set of free addresses. */
  lemma ReplaceFreeAddrs(lo: nat, hi: nat, bs: seq<Block>, i: nat, n: nat, new': seq<Block>)
    requires Tiled(HEADER, lo, hi, bs)
    requires i + n <= |bs|
    ensures FreeAddrs(Replace(bs, i, n, new')) == (FreeAddrs(bs) - FreeAddrs(bs[i..i + n])) + FreeAddrs(new')
  {
    hide FreeAddrs, Tiled;
    var a, o, c := bs[..i], bs[i..i + n], bs[i + n..];
    StretchApart(lo, hi, bs, i, n);
    FreeAddrsConcat(a + new', c);
    FreeAddrsConcat(a, new');
    FreeAddrsConcat(a + o, c);
    FreeAddrsConcat(a, o);
    assert bs == a + o + c;
  }

  lemma {:induction false} FreeAddrsConcat(a: seq<Block>, b: seq<Block>)
    ensures FreeAddrs(a + b) == FreeAddrs(a) + FreeAddrs(b)
  {
    if a == [] {
      assert a + b == b;
    } else {
      assert (a + b)[1..] == a[1..] + b;
      FreeAddrsConcat(a[1..], b);
    }
  }

  /** An address strictly inside a block is not the address of any block. */
  lemma InsideIsFresh(lo: nat, hi: nat, bs: seq<Block>, i: nat, a: nat)
    requires Tiled(HEADER, lo, hi, bs)
    requires i < |bs| && bs[i].addr < a < End(HEADER, bs[i])
    ensures forall j :: 0 <= j < |bs| ==> bs[j].addr != a
    ensures a !in FreeAddrs(bs)
  {
    FreeAddrsMember(bs, a);
    NoBlockInside(HEADER, lo, hi, bs, i, a);
  }

  // ---- Every operation keeps the heap well formed ----

  lemma InitWellFormed(start: nat, size: nat)
    requires start > 0 && start % 4 == 0
    requires size >= 2 * HEADER + MINIALLOC
    ensures WellFormed(Init(start, size))
    ensures FreeBytes(Init(start, size).blocks) == Init(start, size).pool - 2 * HEADER
  {
    var h := Init(start, size);
    var b, t := h.blocks[0], h.blocks[1];
    SumsOfTwo(HEADER, b, t);
    SumsOfOne(HEADER, b);
    SumsOfOne(HEADER, t);
    FreeAddrsOfTwo(b, t);
    FreshSized(start, size);
    Assemble(h, h.blocks, h.ring);
    assert WithBlocks(h, h.blocks, h.ring) == h;
  }

  lemma FreshSized(start: nat, size: nat)
    requires start > 0 && start % 4 == 0
    requires size >= 2 * HEADER + MINIALLOC
    ensures Shaped(Init(start, size).blocks)
    ensures Canonical(HEADER, start, start + Init(start, size).pool, Init(start, size).blocks)
  {
    hide FreeAddrs, FreeBytes;
    var pool := size / 4 * 4;
    WholePool(start, size, HEADER);
    assert Init(start, size).blocks == [Block(start, pool - 2 * HEADER, false), Block(start + pool - HEADER, 0, true)];
  }

  lemma FourDivides(x: int, k: int)
    requires x == 4 * k
    ensures x % 4 == 0
  {
  }

  /** The pool and its parts are whole words. */
  lemma WholePool(start: nat, size: nat, h: nat)
    requires start % 4 == 0 && h % 4 == 0 && size >= 2 * h + MINIALLOC
    ensures var pool := size / 4 * 4;
      (pool - 2 * h) % 4 == 0 && (start + pool - h) % 4 == 0 && pool - 2 * h >= MINIALLOC
  {
    var q: nat, r: nat, s: nat := size / 4, h / 4, start / 4;
    assert h == 4 * r && start == 4 * s && size - 4 * q < 4;
    FourDivides(4 * q - 2 * h, q - 2 * r);
    FourDivides(start + 4 * q - h, s + q - r);
    assert 4 * q > size - 4 && 4 * q - 2 * h > MINIALLOC - 4;
    assert 4 * (q - 2 * r) > 8;
  }

  /** Blocks and ring in order make a well-formed heap; the high-water mark follows the free total. */
  lemma Assemble(h: Heap, bs: seq<Block>, ring: seq<nat>)
    requires h.start > 0 && h.peak <= h.pool
    requires Canonical(HEADER, h.start, h.start + h.pool, bs) && Shaped(bs) && RingMatches(bs, ring)
    ensures WellFormed(WithBlocks(h, bs, ring))
  {
  }

  /** `new'` may stand in for the n blocks from i on without disturbing the rest of the heap. */
  ghost predicate FitsInto(bs: seq<Block>, i: nat, n: nat, new': seq<Block>) {
    && n > 0 && i + n < |bs| && |new'| > 0
    && new'[0].addr == bs[i].addr && End(HEADER, new'[|new'| - 1]) == End(HEADER, bs[i + n - 1])
    && Abutting(HEADER, new') && NoAdjacentFree(new')
    && (i > 0 && !new'[0].used ==> bs[i - 1].used)
    && (!new'[|new'| - 1].used ==> bs[i + n].used)
    && forall k :: 0 <= k < |new'| ==> new'[k].addr % 4 == 0 && new'[k].size % 4 == 0 && new'[k].size >= MINIALLOC
  }

  lemma ReplaceShaped(bs: seq<Block>, i: nat, n: nat, new': seq<Block>)
    requires Shaped(bs) && n > 0 && i + n < |bs| && |new'| > 0
    requires forall k :: 0 <= k < |new'| ==> new'[k].addr % 4 == 0 && new'[k].size % 4 == 0 && new'[k].size >= MINIALLOC
    ensures Shaped(Replace(bs, i, n, new'))
  {
    var r, d := Replace(bs, i, n, new'), |new'| - n;
    forall k | 0 <= k < |r|
      ensures r[k].addr % 4 == 0 && r[k].size % 4 == 0 && (k < |r| - 1 ==> r[k].size >= MINIALLOC)
    {
      if k < i {
        assert r[k] == bs[k];
      } else if k < i + |new'| {
        assert r[k] == new'[k - i];
      } else {
        assert r[k] == bs[k - d];
      }
    }
  }

  /** Exchanging a stretch of blocks, and the matching ring entries, keeps the heap well formed. */
  lemma ExchangeWellFormed(h: Heap, i: nat, n: nat, new': seq<Block>, ring': seq<nat>)
    requires WellFormed(h) && FitsInto(h.blocks, i, n, new')
    requires RingMatches(Replace(h.blocks, i, n, new'), ring')
    ensures WellFormed(WithBlocks(h, Replace(h.blocks, i, n, new'), ring'))
  {
    hide RingMatches, FreeBytes, FreeAddrs, Replace;
    ReplaceTiled(HEADER, h.start, h.start + h.pool, h.blocks, i, n, new');
    ReplaceNoAdjacentFree(h.blocks, i, n, new');
    ReplaceShaped(h.blocks, i, n, new');
    Assemble(h, Replace(h.blocks, i, n, new'), ring');
  }

  lemma AlignedMultiple(size: nat)
    ensures Request(size) % 4 == 0 && Request(size) >= MINIALLOC && Request(size) >= size
    ensures Request(size) < size + 4 || Request(size) == MINIALLOC
  {
  }

  /** Ring bookkeeping: `gone` leaves the ring, `fresh'` enters at its front. */
  lemma RingExchange(s: set<nat>, ring: seq<nat>, gone: nat, fresh': nat)
    requires Lists(ring, s)
    requires fresh' !in s || fresh' == gone
    ensures Lists([fresh'] + Without(ring, gone), (s - {gone}) + {fresh'})
  {
    WithoutMembers(ring, gone);
  }

  lemma FreeAddrsOfOne(b: Block)
    ensures FreeAddrs([b]) == if b.used then {} else {b.addr}
  {
    assert [b][1..] == [];
  }

  lemma FreeAddrsOfTwo(b: Block, c: Block)
    ensures FreeAddrs([b, c]) == (if b.used then {} else {b.addr}) + (if c.used then {} else {c.addr})
  {
    FreeAddrsConcat([b], [c]);
    assert [b] + [c] == [b, c];
    FreeAddrsOfOne(b);
    FreeAddrsOfOne(c);
  }

  /** Exchanging one block, in the set of free addresses. */
  lemma ReplaceOneFreeAddrs(lo: nat, hi: nat, bs: seq<Block>, i: nat, new': seq<Block>)
    requires Tiled(HEADER, lo, hi, bs) && i < |bs|
    ensures FreeAddrs(Replace(bs, i, 1, new'))
      == (FreeAddrs(bs) - (if bs[i].used then {} else {bs[i].addr})) + FreeAddrs(new')
  {
    ReplaceFreeAddrs(lo, hi, bs, i, 1, new');
    assert bs[i..i + 1] == [bs[i]];
    FreeAddrsOfOne(bs[i]);
  }

  /** Exchanging two neighbours, in the set of free addresses. */
  lemma ReplaceTwoFreeAddrs(lo: nat, hi: nat, bs: seq<Block>, i: nat, new': seq<Block>)
    requires Tiled(HEADER, lo, hi, bs) && i + 1 < |bs|
    ensures FreeAddrs(Replace(bs, i, 2, new'))
      == (FreeAddrs(bs) - (if bs[i].used then {} else {bs[i].addr}) - (if bs[i + 1].used then {} else {bs[i + 1].addr}))
         + FreeAddrs(new')
  {
    ReplaceFreeAddrs(lo, hi, bs, i, 2, new');
    assert bs[i..i + 2] == [bs[i], bs[i + 1]];
    FreeAddrsOfTwo(bs[i], bs[i + 1]);
  }

  /** Block i of a well-formed heap as an allocation sees it. */
  ghost predicate FitsAt(h: Heap, k: nat, i: nat, size: nat) {
    && k < |h.ring| && i < |h.blocks| - 1 && h.blocks[i].addr == h.ring[k]
    && !h.blocks[i].used && h.blocks[i].size >= size
    && size % 4 == 0 && size >= MINIALLOC
  }

  lemma SplitFreeAddrs(h: Heap, i: nat, size: nat)
    requires WellFormed(h) && i < |h.blocks| && !h.blocks[i].used
    requires h.blocks[i].size >= size + HEADER
    ensures FreeAddrs(Split(HEADER, h.blocks, i, size, false))
      == (FreeAddrs(h.blocks) - {h.blocks[i].addr}) + {h.blocks[i].addr + HEADER + size}
  {
    var new' := Halves(HEADER, h.blocks[i], size, false);
    ReplaceOneFreeAddrs(h.start, h.start + h.pool, h.blocks, i, new');
    FreeAddrsOfTwo(new'[0], new'[1]);
  }

  lemma SplitTakeRing(h: Heap, k: nat, i: nat, size: nat)
    requires WellFormed(h) && FitsAt(h, k, i, size)
    requires h.blocks[i].size >= size + HEADER + MINIALLOC
    ensures RingMatches(Split(HEADER, h.blocks, i, size, false),
                        [h.blocks[i].addr + HEADER + size] + RemoveAt(h.ring, k))
  {
    hide Split, FreeAddrs, Tiled, NoAdjacentFree, Shaped, Without;
    SplitFreeAddrs(h, i, size);
    InsideIsFresh(h.start, h.start + h.pool, h.blocks, i, h.blocks[i].addr + HEADER + size);
    WithoutAt(h.ring, k);
    RingExchange(FreeAddrs(h.blocks), h.ring, h.blocks[i].addr, h.blocks[i].addr + HEADER + size);
  }

  lemma HalvesFit(h: Heap, k: nat, i: nat, size: nat)
    requires WellFormed(h) && FitsAt(h, k, i, size)
    requires h.blocks[i].size >= size + HEADER + MINIALLOC
    ensures FitsInto(h.blocks, i, 1, Halves(HEADER, h.blocks[i], size, false))
  {
    hide FreeBytes, FreeAddrs, Tiled;
    FreeIsIsolated(h.blocks, i);
    assert h.blocks[i].addr % 4 == 0 && h.blocks[i].size % 4 == 0;
  }

  lemma SplitTakeWellFormed(h: Heap, k: nat, i: nat, size: nat)
    requires WellFormed(h) && FitsAt(h, k, i, size)
    requires h.blocks[i].size >= size + HEADER + MINIALLOC
    ensures WellFormed(Take(h, k, i, size))
  {
    HalvesFit(h, k, i, size);
    SplitTakeRing(h, k, i, size);
    ExchangeWellFormed(h, i, 1, Halves(HEADER, h.blocks[i], size, false),
                       [h.blocks[i].addr + HEADER + size] + RemoveAt(h.ring, k));
  }

  lemma SplitTakeEffect(h: Heap, k: nat, i: nat, size: nat)
    requires WellFormed(h) && FitsAt(h, k, i, size)
    requires h.blocks[i].size >= size + HEADER + MINIALLOC
    ensures UsedBlocks(Take(h, k, i, size).blocks) == UsedBlocks(h.blocks) + {Block(h.ring[k], size, true)}
    ensures FreeBytes(Take(h, k, i, size).blocks) == FreeBytes(h.blocks) - size - HEADER
  {
    SplitMeaning(HEADER, h.start, h.start + h.pool, h.blocks, i, size, false);
    assert UsedBlocks(Split(HEADER, h.blocks, i, size, false))
        == UsedBlocks(h.blocks) + {Block(h.ring[k], size, true)} by {
      var new' := Halves(HEADER, h.blocks[i], size, false);
      ReplaceUsedBlocks(HEADER, h.start, h.start + h.pool, h.blocks, i, new');
      assert UsedBlocks(new') == {new'[0]};
    }
  }

  lemma WholeTakeWellFormed(h: Heap, k: nat, i: nat, size: nat)
    requires WellFormed(h) && FitsAt(h, k, i, size)
    requires h.blocks[i].size < size + HEADER + MINIALLOC
    ensures WellFormed(Take(h, k, i, size))
  {
    var b := h.blocks[i];
    var new' := [b.(used := true)];
    FreeIsIsolated(h.blocks, i);
    assert RingMatches(Replace(h.blocks, i, 1, new'), RemoveAt(h.ring, k)) by {
      ReplaceOneFreeAddrs(h.start, h.start + h.pool, h.blocks, i, new');
      FreeAddrsOfOne(new'[0]);
      RemoveAtMembers(h.ring, k);
    }
    ExchangeWellFormed(h, i, 1, new', RemoveAt(h.ring, k));
  }

  lemma WholeTakeEffect(h: Heap, k: nat, i: nat, size: nat)
    requires WellFormed(h) && FitsAt(h, k, i, size)
    requires h.blocks[i].size < size + HEADER + MINIALLOC
    ensures UsedBlocks(Take(h, k, i, size).blocks) == UsedBlocks(h.blocks) + {Block(h.ring[k], h.blocks[i].size, true)}
    ensures FreeBytes(Take(h, k, i, size).blocks) == FreeBytes(h.blocks) - h.blocks[i].size
  {
    SetUsedMeaning(HEADER, h.start, h.start + h.pool, h.blocks, i, true);
  }

  // ---- Releasing ----

  lemma MergeFreeAddrs(lo: nat, hi: nat, bs: seq<Block>, i: nat)
    requires Tiled(HEADER, lo, hi, bs)
    requires i + 2 < |bs| && !bs[i].used && !bs[i + 1].used
    ensures FreeAddrs(MergeAt(HEADER, bs, i)) == FreeAddrs(bs) - {bs[i + 1].addr}
  {
    var m := Block(bs[i].addr, bs[i].size + HEADER + bs[i + 1].size, false);
    assert bs[i + 1].addr == End(HEADER, bs[i]);
    ReplaceTwoFreeAddrs(lo, hi, bs, i, [m]);
    FreeAddrsOfOne(m);
    FreeAddrsMember(bs, bs[i].addr);
  }

  lemma MergeShaped(bs: seq<Block>, i: nat)
    requires Shaped(bs)
    requires i + 2 < |bs|
    ensures Shaped(MergeAt(HEADER, bs, i))
  {
    var m := Block(bs[i].addr, bs[i].size + HEADER + bs[i + 1].size, false);
    assert m.size % 4 == 0 by {
      assert bs[i].size % 4 == 0 && bs[i + 1].size % 4 == 0;
    }
  }

  lemma SetUsedShaped(bs: seq<Block>, i: nat)
    requires Shaped(bs) && i < |bs| - 1
    ensures Shaped(SetUsed(bs, i, false))
  {
    ReplaceShaped(bs, i, 1, [bs[i].(used := false)]);
  }

  lemma FreeingShaped(lo: nat, hi: nat, bs: seq<Block>, i: nat)
    requires Tiled(HEADER, lo, hi, bs) && Shaped(bs)
    requires i < |bs| - 1 && bs[i].used
    ensures Shaped(SetUsed(bs, i, false))
    ensures FreeAddrs(SetUsed(bs, i, false)) == FreeAddrs(bs) + {bs[i].addr}
    ensures bs[i].addr !in FreeAddrs(bs)
  {
    hide FreeAddrs, Replace, Tiled;
    var m := bs[i].(used := false);
    SetUsedShaped(bs, i);
    ReplaceOneFreeAddrs(lo, hi, bs, i, [m]);
    FreeAddrsOfOne(m);
    FreeAddrsMember(bs, bs[i].addr);
    if bs[i].addr in FreeAddrs(bs) {
      var j :| 0 <= j < |bs| && bs[j].addr == bs[i].addr && !bs[j].used;
      SameAddrSameIndex(HEADER, lo, hi, bs, i, j);
    }
  }

  /** Free addresses and shape after freeing block i and merging to the right. */
  lemma ReleaseRightShaped(lo: nat, hi: nat, bs: seq<Block>, i: nat)
    requires Canonical(HEADER, lo, hi, bs) && Shaped(bs)
    requires i < |bs| - 1 && bs[i].used
    ensures var r := MergeRight(HEADER, SetUsed(bs, i, false), i);
      && Shaped(r)
      && FreeAddrs(r) == (FreeAddrs(bs) + {bs[i].addr}) - (if bs[i + 1].used then {} else {bs[i + 1].addr})
  {
    var f := SetUsed(bs, i, false);
    FreeingShaped(lo, hi, bs, i);
    SetUsedMeaning(HEADER, lo, hi, bs, i, false);
    if !f[i + 1].used {
      MergeShaped(f, i);
      MergeFreeAddrs(lo, hi, f, i);
    }
  }

  lemma MergeLeftShaped(lo: nat, hi: nat, bs: seq<Block>, i: nat)
    requires Tiled(HEADER, lo, hi, bs) && Shaped(bs)
    requires i < |bs| - 1 && !bs[i].used
    ensures Shaped(MergeLeft(HEADER, bs, i))
    ensures FreeAddrs(MergeLeft(HEADER, bs, i))
      == FreeAddrs(bs) - if i == 0 || bs[i - 1].used then {} else {bs[i].addr}
  {
    if i > 0 && !bs[i - 1].used {
      MergeShaped(bs, i - 1);
      MergeFreeAddrs(lo, hi, bs, i - 1);
    }
  }

  lemma ReleaseShaped(lo: nat, hi: nat, bs: seq<Block>, i: nat)
    requires Canonical(HEADER, lo, hi, bs) && Shaped(bs)
    requires i < |bs| - 1 && bs[i].used
    ensures Shaped(Release(HEADER, bs, i))
    ensures FreeAddrs(Release(HEADER, bs, i)) == (FreeAddrs(bs) + {bs[i].addr})
      - (if bs[i + 1].used then {} else {bs[i + 1].addr}) - (if i == 0 || bs[i - 1].used then {} else {bs[i].addr})
  {
    var r := MergeRight(HEADER, SetUsed(bs, i, false), i);
    ReleaseRightShaped(lo, hi, bs, i);
    ReleaseRightMeaning(HEADER, lo, hi, bs, i);
    MergeRightSeams(HEADER, bs, i);
    assert i > 0 ==> r[i - 1] == r[..i][i - 1] == bs[i - 1];
    assert r[i].addr == bs[i].addr;
    MergeLeftShaped(lo, hi, r, i);
  }

  /** What a release does to a ring listing `s`: a and the right neighbour b, if free, leave or enter. */
  lemma RingRelease(s: set<nat>, ring: seq<nat>, a: nat, b: nat, mergeLeft: bool, mergeRight: bool)
    requires Lists(ring, s) && a !in s && a != b
    ensures var rest := if mergeRight then Without(ring, b) else ring;
      Lists(if mergeLeft then rest else [a] + rest,
            (s + {a}) - (if mergeRight then {b} else {}) - (if mergeLeft then {a} else {}))
  {
    WithoutMembers(ring, b);
  }

  lemma ReleasedRingMatches(lo: nat, hi: nat, bs: seq<Block>, ring: seq<nat>, i: nat)
    requires Canonical(HEADER, lo, hi, bs) && Shaped(bs) && RingMatches(bs, ring)
    requires i < |bs| - 1 && bs[i].used
    ensures RingMatches(Release(HEADER, bs, i), ReleasedRing(bs, ring, i))
  {
    ReleaseShaped(lo, hi, bs, i);
    FreeingShaped(lo, hi, bs, i);
    assert bs[i + 1].addr == End(HEADER, bs[i]);
    RingRelease(FreeAddrs(bs), ring, bs[i].addr, bs[i + 1].addr, i > 0 && !bs[i - 1].used, !bs[i + 1].used);
  }

  lemma FreeAtWellFormed(h: Heap, i: nat)
    requires WellFormed(h) && i < |h.blocks| - 1 && h.blocks[i].used
    ensures WellFormed(FreeAt(h, i))
  {
    hide Release, ReleasedRing, Shaped, Canonical, RingMatches, UsedBlocks, FreeBytes, UsedBytes;
    ReleaseMeaning(HEADER, h.start, h.start + h.pool, h.blocks, i);
    ReleaseShaped(h.start, h.start + h.pool, h.blocks, i);
    ReleasedRingMatches(h.start, h.start + h.pool, h.blocks, h.ring, i);
    Assemble(h, Release(HEADER, h.blocks, i), ReleasedRing(h.blocks, h.ring, i));
  }

  /** Exactly the freed block is gone. */
  lemma FreeAtUsed(h: Heap, i: nat)
    requires WellFormed(h) && i < |h.blocks| - 1 && h.blocks[i].used
    ensures UsedBlocks(FreeAt(h, i).blocks) == UsedBlocks(h.blocks) - {h.blocks[i]}
  {
    ReleaseMeaning(HEADER, h.start, h.start + h.pool, h.blocks, i);
  }

  lemma FreeAtBytes(h: Heap, i: nat)
    requires WellFormed(h) && i < |h.blocks| - 1 && h.blocks[i].used
    ensures FreeBytes(FreeAt(h, i).blocks) == FreeBytes(h.blocks) + h.blocks[i].size
      + (if i == 0 || h.blocks[i - 1].used then 0 else HEADER) + (if h.blocks[i + 1].used then 0 else HEADER)
  {
    ReleaseMeaning(HEADER, h.start, h.start + h.pool, h.blocks, i);
  }

  /** A release only lowers the memory in use, so the high-water mark stays. */
  lemma FreeAtPeak(h: Heap, i: nat)
    requires WellFormed(h) && i < |h.blocks| - 1 && h.blocks[i].used
    ensures FreeAt(h, i).peak == h.peak
  {
    FreeAtBytes(h, i);
  }

  // ---- Resizing in place ----

  lemma GrownPairFits(h: Heap, i: nat, size: nat)
    requires WellFormed(h) && i + 1 < |h.blocks| && CanGrow(h.blocks, i, size)
    requires h.blocks[i].used && size > h.blocks[i].size && size % 4 == 0
    ensures i + 2 < |h.blocks|
    ensures FitsInto(h.blocks, i, 2, GrownPair(h.blocks, i, size))
  {
    hide RingMatches, FreeBytes, FreeAddrs;
    FreeIsIsolated(h.blocks, i + 1);
    assert h.blocks[i + 1].addr == End(HEADER, h.blocks[i]);
    assert h.blocks[i].addr % 4 == 0 && h.blocks[i].size % 4 == 0 && h.blocks[i + 1].size % 4 == 0;
  }

  lemma GrowRing(h: Heap, i: nat, size: nat)
    requires WellFormed(h) && i + 1 < |h.blocks| && CanGrow(h.blocks, i, size)
    requires h.blocks[i].used && size > h.blocks[i].size && size % 4 == 0
    ensures RingMatches(Replace(h.blocks, i, 2, GrownPair(h.blocks, i, size)),
                        [h.blocks[i].addr + HEADER + size] + Without(h.ring, h.blocks[i + 1].addr))
  {
    var bs, p := h.blocks, GrownPair(h.blocks, i, size);
    assert bs[i + 1].addr == End(HEADER, bs[i]);
    ReplaceTwoFreeAddrs(h.start, h.start + h.pool, bs, i, p);
    FreeAddrsOfTwo(p[0], p[1]);
    InsideIsFresh(h.start, h.start + h.pool, bs, i + 1, p[1].addr);
    RingExchange(FreeAddrs(bs), h.ring, bs[i + 1].addr, p[1].addr);
  }

  lemma GrowWellFormed(h: Heap, i: nat, size: nat)
    requires WellFormed(h) && i + 1 < |h.blocks| && CanGrow(h.blocks, i, size)
    requires h.blocks[i].used && size > h.blocks[i].size && size % 4 == 0
    ensures WellFormed(Grow(h, i, size))
  {
    GrownPairFits(h, i, size);
    GrowRing(h, i, size);
    ExchangeWellFormed(h, i, 2, GrownPair(h.blocks, i, size),
                       [h.blocks[i].addr + HEADER + size] + Without(h.ring, h.blocks[i + 1].addr));
  }

  /** Growing takes exactly the added bytes out of the free total and changes only this block. */
  lemma GrowEffect(h: Heap, i: nat, size: nat)
    requires WellFormed(h) && i + 1 < |h.blocks| && CanGrow(h.blocks, i, size)
    requires h.blocks[i].used && size > h.blocks[i].size
    ensures FreeBytes(Grow(h, i, size).blocks) == FreeBytes(h.blocks) - (size - h.blocks[i].size)
    ensures UsedBlocks(Grow(h, i, size).blocks)
      == (UsedBlocks(h.blocks) - {h.blocks[i]}) + {Block(h.blocks[i].addr, size, true)}
  {
    hide FreeBytes, UsedBytes, FreeAddrs, NoAdjacentFree, Shaped;
    var bs, p := h.blocks, GrownPair(h.blocks, i, size);
    ReplaceEffect(HEADER, bs, i, 2, p);
    assert bs[i..i + 2] == [bs[i], bs[i + 1]];
    SumsOfTwo(HEADER, bs[i], bs[i + 1]);
    SumsOfOne(HEADER, bs[i]);
    SumsOfOne(HEADER, bs[i + 1]);
    SumsOfTwo(HEADER, p[0], p[1]);
    SumsOfOne(HEADER, p[0]);
    SumsOfOne(HEADER, p[1]);
    ReplaceMembers(bs, i, 2, p);
    NotElsewhere(HEADER, h.start, h.start + h.pool, bs, i);
    assert bs[i + 1..] == [bs[i + 1]] + bs[i + 2..];
  }

  /** The intermediate heap of a shrink: the block cut in two allocated parts. */
  lemma CutWellFormed(h: Heap, i: nat, size: nat)
    requires WellFormed(h) && i < |h.blocks| - 1 && h.blocks[i].used
    requires size % 4 == 0 && size >= MINIALLOC && size + HEADER + MINIALLOC <= h.blocks[i].size
    ensures Canonical(HEADER, h.start, h.start + h.pool, Split(HEADER, h.blocks, i, size, true))
    ensures Shaped(Split(HEADER, h.blocks, i, size, true))
  {
    CutNoAdjacentFree(h.blocks, i, size);
    CutShaped(h.blocks, i, size);
    SplitMeaning(HEADER, h.start, h.start + h.pool, h.blocks, i, size, true);
  }

  lemma CutNoAdjacentFree(bs: seq<Block>, i: nat, size: nat)
    requires NoAdjacentFree(bs) && i < |bs| - 1 && size + HEADER <= bs[i].size
    ensures NoAdjacentFree(Split(HEADER, bs, i, size, true))
  {
    ReplaceNoAdjacentFree(bs, i, 1, Halves(HEADER, bs[i], size, true));
  }

  lemma CutShaped(bs: seq<Block>, i: nat, size: nat)
    requires Shaped(bs) && i < |bs| - 1
    requires size % 4 == 0 && size >= MINIALLOC && size + HEADER + MINIALLOC <= bs[i].size
    ensures Shaped(Split(HEADER, bs, i, size, true))
  {
    hide Replace;
    var new' := Halves(HEADER, bs[i], size, true);
    assert bs[i].addr % 4 == 0 && bs[i].size % 4 == 0 && HEADER % 4 == 0;
    ReplaceShaped(bs, i, 1, new');
  }

  lemma CutRing(h: Heap, i: nat, size: nat)
    requires WellFormed(h) && i < |h.blocks| - 1 && h.blocks[i].used
    requires size + HEADER <= h.blocks[i].size
    ensures RingMatches(Split(HEADER, h.blocks, i, size, true), h.ring)
  {
    var new' := Halves(HEADER, h.blocks[i], size, true);
    ReplaceOneFreeAddrs(h.start, h.start + h.pool, h.blocks, i, new');
    FreeAddrsOfTwo(new'[0], new'[1]);
  }

  lemma ShrinkWellFormed(h: Heap, i: nat, size: nat)
    requires WellFormed(h) && i < |h.blocks| - 1 && h.blocks[i].used
    requires size % 4 == 0 && size >= MINIALLOC && size + HEADER + MINIALLOC < h.blocks[i].size
    ensures WellFormed(Shrink(h, i, size))
  {
    var cut := Split(HEADER, h.blocks, i, size, true);
    CutWellFormed(h, i, size);
    CutRing(h, i, size);
    CutThenFree(h, cut, i + 1);
  }

  lemma CutThenFree(h: Heap, cut: seq<Block>, i: nat)
    requires h.start > 0 && h.peak <= h.pool
    requires Canonical(HEADER, h.start, h.start + h.pool, cut) && Shaped(cut) && RingMatches(cut, h.ring)
    requires i < |cut| - 1 && cut[i].used
    ensures WellFormed(WithBlocks(h, Release(HEADER, cut, i), ReleasedRing(cut, h.ring, i)))
  {
    ReleaseMeaning(HEADER, h.start, h.start + h.pool, cut, i);
    ReleaseShaped(h.start, h.start + h.pool, cut, i);
    ReleasedRingMatches(h.start, h.start + h.pool, cut, h.ring, i);
    Assemble(h, Release(HEADER, cut, i), ReleasedRing(cut, h.ring, i));
  }

  lemma CutUsed(h: Heap, i: nat, size: nat)
    requires WellFormed(h) && i < |h.blocks| - 1 && h.blocks[i].used
    requires size + HEADER <= h.blocks[i].size
    ensures var cut := Split(HEADER, h.blocks, i, size, true);
      && cut[i + 1].used && i + 1 < |cut| - 1 && cut[i].used && cut[i + 1].size == h.blocks[i].size - size - HEADER
      && cut[i + 2] == h.blocks[i + 1]
      && UsedBlocks(cut) - {cut[i + 1]}
         == (UsedBlocks(h.blocks) - {h.blocks[i]}) + {Block(h.blocks[i].addr, size, true)}
  {
    hide UsedBlocks, FreeBytes, FreeAddrs, RingMatches, Replace;
    SplitAt(h.blocks, i, size);
    CutUsedBlocks(h, i, size);
  }

  lemma SplitAt(bs: seq<Block>, i: nat, size: nat)
    requires i + 1 < |bs| && size + HEADER <= bs[i].size
    ensures var cut, new' := Split(HEADER, bs, i, size, true), Halves(HEADER, bs[i], size, true);
      |cut| == |bs| + 1 && cut[i] == new'[0] && cut[i + 1] == new'[1] && cut[i + 2] == bs[i + 1]
  {
  }

  lemma CutUsedBlocks(h: Heap, i: nat, size: nat)
    requires WellFormed(h) && i < |h.blocks| - 1 && h.blocks[i].used
    requires size + HEADER <= h.blocks[i].size
    ensures var cut, new' := Split(HEADER, h.blocks, i, size, true), Halves(HEADER, h.blocks[i], size, true);
      UsedBlocks(cut) - {new'[1]} == (UsedBlocks(h.blocks) - {h.blocks[i]}) + {new'[0]}
  {
    hide FreeBytes, FreeAddrs, RingMatches, Replace;
    var new' := Halves(HEADER, h.blocks[i], size, true);
    ReplaceUsedBlocks(HEADER, h.start, h.start + h.pool, h.blocks, i, new');
    NoBlockInside(HEADER, h.start, h.start + h.pool, h.blocks, i, new'[1].addr);
    assert UsedBlocks(new') == {new'[0], new'[1]};
  }

  /** Shrinking changes only this block, and keeps its front. */
  lemma ShrinkUsed(h: Heap, i: nat, size: nat)
    requires WellFormed(h) && i < |h.blocks| - 1 && h.blocks[i].used
    requires size % 4 == 0 && size >= MINIALLOC && size + HEADER + MINIALLOC < h.blocks[i].size
    ensures UsedBlocks(Shrink(h, i, size).blocks)
      == (UsedBlocks(h.blocks) - {h.blocks[i]}) + {Block(h.blocks[i].addr, size, true)}
  {
    CutWellFormed(h, i, size);
    CutUsed(h, i, size);
    ReleaseMeaning(HEADER, h.start, h.start + h.pool, Split(HEADER, h.blocks, i, size, true), i + 1);
  }

  /** The bytes cut off are free again; with a free right neighbour their header is saved as well. */
  lemma ShrinkBytes(h: Heap, i: nat, size: nat)
    requires WellFormed(h) && i < |h.blocks| - 1 && h.blocks[i].used
    requires size % 4 == 0 && size >= MINIALLOC && size + HEADER + MINIALLOC < h.blocks[i].size
    ensures FreeBytes(Shrink(h, i, size).blocks) == FreeBytes(h.blocks) + h.blocks[i].size - size
      - (if h.blocks[i + 1].used then HEADER else 0)
  {
    hide Tiling.Release, FreeBytes, Split, Tiled, NoAdjacentFree, Shaped;
    CutWellFormed(h, i, size);
    CutUsed(h, i, size);
    SplitMeaning(HEADER, h.start, h.start + h.pool, h.blocks, i, size, true);
    ReleaseMeaning(HEADER, h.start, h.start + h.pool, Split(HEADER, h.blocks, i, size, true), i + 1);
  }

  lemma ShrinkPeak(h: Heap, i: nat, size: nat)
    requires WellFormed(h) && i < |h.blocks| - 1 && h.blocks[i].used
    requires size % 4 == 0 && size >= MINIALLOC && size + HEADER + MINIALLOC < h.blocks[i].size
    ensures Shrink(h, i, size).peak == h.peak
  {
    ShrinkBytes(h, i, size);
  }
}
