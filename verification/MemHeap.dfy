/**
 memheap.c at the level of item headers: every link word is a table entry at the
 header's address, and every call rewrites them as the C code does.
 */
module MemHeap {
  import opened Tiling
  import opened Links
  import opened Bytes
  import opened MemHeapModel
  import opened MemHeapRuns
  import opened Arithmetic
  import opened Sequences

  // ---- Tables and blocks ----

  /** MEMITEM_SIZE reads a block's size off its link to the next header. */
  lemma ItemSize(lo: nat, hi: nat, bs: seq<Block>, next: Table, prev: Table, i: nat)
    requires Tiled(HEADER, lo, hi, bs) && Ring(next, prev, Addrs(bs)) && i < |bs| - 1
    ensures bs[i].addr in next && next[bs[i].addr] == bs[i + 1].addr == bs[i].addr + HEADER + bs[i].size
    ensures bs[i + 1].addr in prev && prev[bs[i + 1].addr] == bs[i].addr
  {
    assert next[Addrs(bs)[i]] == Addrs(bs)[i + 1];
  }

  /** All headers an operation between two states may write. */
  ghost function Headers(bs: seq<Block>, bs': seq<Block>, freeList: nat): set<nat> {
    AddrSet(bs) + AddrSet(bs') + {freeList}
  }

  ghost predicate OutsidePool(h: Heap, freeList: nat) {
    0 < freeList && (freeList + HEADER <= h.start || h.start + h.pool <= freeList)
  }

  lemma RingWithin(h: Heap)
    requires WellFormed(h)
    ensures Elements(h.ring) <= AddrSet(h.blocks)
  {
    forall x | x in h.ring
      ensures x in AddrSet(h.blocks)
    {
      FreeAddrsMember(h.blocks, x);
      var i :| 0 <= i < |h.blocks| && h.blocks[i].addr == x && !h.blocks[i].used;
      assert Addrs(h.blocks)[i] == x;
    }
  }

  /** A header built inside block i is new to both structures. */
  lemma NewHeader(h: Heap, i: nat, p: nat, freeList: nat)
    requires WellFormed(h) && OutsidePool(h, freeList)
    requires i < |h.blocks| && h.blocks[i].addr < p < End(HEADER, h.blocks[i])
    ensures p !in Addrs(h.blocks) && p !in h.ring && p != freeList
  {
    InsideIsFresh(h.start, h.start + h.pool, h.blocks, i, p);
    WithinPool(HEADER, h.start, h.start + h.pool, h.blocks, i);
  }

  /** The five words of all headers describe the heap h. */
  ghost predicate Represents(h: Heap, next: Table, prev: Table, nextFree: Table, prevFree: Table,
                             used: map<nat, bool>, freeList: nat) {
    && Ring(next, prev, Addrs(h.blocks))
    && Ring(nextFree, prevFree, [freeList] + h.ring)
    && Marks(used, h.blocks)
  }

  lemma HeadApart(next: Table, prev: Table, head: nat, members: seq<nat>)
    requires Ring(next, prev, [head] + members)
    ensures forall j :: 0 <= j < |members| ==> members[j] != head && members[j] == ([head] + members)[j + 1]
  {
    var s := [head] + members;
    assert forall j :: 0 <= j < |members| ==> members[j] == s[j + 1] && s[0] != s[j + 1];
  }

  /** The free ring behind its head without entry k, and with a new first entry. */
  lemma HeadRemoved(head: nat, ring: seq<nat>, k: nat, newPtr: nat)
    requires k < |ring|
    ensures var s := [head] + ring;
      var t := s[..k + 1] + s[k + 2..];
      && t == [head] + RemoveAt(ring, k) && t[0] == head
      && [head] + [newPtr] + t[1..] == [head] + ([newPtr] + RemoveAt(ring, k))
      && (forall x :: x in t ==> x == head || x in ring)
  {
    var s := [head] + ring;
    var t := s[..k + 1] + s[k + 2..];
    assert t == [head] + RemoveAt(ring, k);
    assert t[1..] == RemoveAt(ring, k);
  }

  lemma FreeBytesWithin(h: Heap)
    requires WellFormed(h)
    ensures FreeBytes(h.blocks) <= h.pool
  {
    Accounting(HEADER, h.start, h.start + h.pool, h.blocks);
  }

  /** The state a splitting allocation leads to. */
  lemma SplitPlan(h: Heap, k: nat, i: nat, size: nat) returns (h': Heap)
    requires WellFormed(h)
    requires FitsAt(h, k, i, size) && h.blocks[i].size >= size + HEADER + MINIALLOC
    ensures h' == Take(h, k, i, size) && WellFormed(h') && h'.start == h.start && h'.pool == h.pool
    ensures size + HEADER <= FreeBytes(h.blocks) <= h.pool
    ensures FreeBytes(h'.blocks) == FreeBytes(h.blocks) - size - HEADER
    ensures h'.peak == Max(h.peak, InUse(h'))
  {
    h' := Take(h, k, i, size);
    SplitTakeWellFormed(h, k, i, size);
    SplitTakeEffect(h, k, i, size);
    FreeBlockCounts(h.blocks, i);
    FreeBytesWithin(h);
  }

  lemma SplitAddrSet(bs: seq<Block>, i: nat, size: nat, restUsed: bool)
    requires i < |bs| && bs[i].size >= size + HEADER
    ensures bs[i].addr + size + HEADER in AddrSet(Split(HEADER, bs, i, size, restUsed))
  {
    SplitAddrs(bs, i, size, restUsed);
  }

  /** The headers a splitting allocation may write. */
  lemma SplitWrites(h: Heap, k: nat, i: nat, size: nat, freeList: nat) returns (headers: set<nat>)
    requires WellFormed(h) && OutsidePool(h, freeList)
    requires FitsAt(h, k, i, size) && h.blocks[i].size >= size + HEADER + MINIALLOC
    ensures headers == Headers(h.blocks, Split(HEADER, h.blocks, i, size, false), freeList)
    ensures var p := h.blocks[i].addr + size + HEADER;
      && p !in Addrs(h.blocks) && p !in h.ring && p != freeList && p in headers && freeList in headers
      && Elements(Addrs(h.blocks)) <= headers && Elements(h.ring) <= headers
  {
    var cut := Split(HEADER, h.blocks, i, size, false);
    headers := Headers(h.blocks, cut, freeList);
    NewHeader(h, i, h.blocks[i].addr + size + HEADER, freeList);
    RingWithin(h);
    SplitAddrSet(h.blocks, i, size, false);
  }

  lemma SplitRepresents(h: Heap, k: nat, i: nat, size: nat, next: Table, prev: Table, nextFree: Table, prevFree: Table,
                        used: map<nat, bool>, freeList: nat)
    requires WellFormed(h) && FitsAt(h, k, i, size) && h.blocks[i].size >= size + HEADER + MINIALLOC
    requires Marks(used, h.blocks)
    requires Ring(next, prev, Addrs(h.blocks)[..i + 1] + [h.blocks[i].addr + size + HEADER] + Addrs(h.blocks)[i + 1..])
    requires Ring(nextFree, prevFree, [freeList] + ([h.blocks[i].addr + size + HEADER] + RemoveAt(h.ring, k)))
    ensures Represents(Take(h, k, i, size), next, prev, nextFree, prevFree,
                       used[h.blocks[i].addr + size + HEADER := false][h.blocks[i].addr := true], freeList)
  {
    hide Ring, Marks, Split, Addrs, RemoveAt;
    SplitMarks(HEADER, h.start, h.start + h.pool, used, h.blocks, i, size, false);
    SplitAddrs(h.blocks, i, size, false);
  }

  lemma SplitAddrs(bs: seq<Block>, i: nat, size: nat, restUsed: bool)
    requires i < |bs| && bs[i].size >= size + HEADER
    ensures Addrs(Split(HEADER, bs, i, size, restUsed))
      == Addrs(bs)[..i + 1] + [bs[i].addr + size + HEADER] + Addrs(bs)[i + 1..]
  {
  }

  lemma WholePlan(h: Heap, k: nat, i: nat, size: nat) returns (h': Heap)
    requires WellFormed(h)
    requires FitsAt(h, k, i, size) && h.blocks[i].size < size + HEADER + MINIALLOC
    ensures h' == Take(h, k, i, size) && WellFormed(h') && h'.start == h.start && h'.pool == h.pool
    ensures h.blocks[i].size <= FreeBytes(h.blocks) <= h.pool
    ensures FreeBytes(h'.blocks) == FreeBytes(h.blocks) - h.blocks[i].size
    ensures h'.peak == Max(h.peak, InUse(h'))
  {
    h' := Take(h, k, i, size);
    WholeTakeWellFormed(h, k, i, size);
    WholeTakeEffect(h, k, i, size);
    FreeBlockCounts(h.blocks, i);
    FreeBytesWithin(h);
  }

  /** Flipping one used bit; addresses stay. */
  lemma WholeRepresents(h: Heap, i: nat, used: map<nat, bool>)
    requires WellFormed(h) && Marks(used, h.blocks) && i < |h.blocks|
    ensures Marks(used[h.blocks[i].addr := true], SetUsed(h.blocks, i, true))
    ensures Addrs(SetUsed(h.blocks, i, true)) == Addrs(h.blocks)
  {
    var r := SetUsed(h.blocks, i, true);
    forall j | 0 <= j < |h.blocks| && j != i
      ensures h.blocks[j].addr != h.blocks[i].addr && r[j] == h.blocks[j]
    {
      if h.blocks[j].addr == h.blocks[i].addr {
        SameAddrSameIndex(HEADER, h.start, h.start + h.pool, h.blocks, i, j);
      }
    }
  }

  lemma WholeKeeps(h: Heap, i: nat, m: Memory, m': Memory, freeList: nat)
    requires WellFormed(h) && OutsidePool(h, freeList) && i < |h.blocks| - 1 && !h.blocks[i].used
    requires Kept(HEADER, m, m', Headers(h.blocks, SetUsed(h.blocks, i, true), freeList))
    ensures KeepsAllocated(HEADER, m, m', h.blocks, SetUsed(h.blocks, i, true))
  {
    SetUsedMeaning(HEADER, h.start, h.start + h.pool, h.blocks, i, true);
    HeaderWritesKeepAllocated(HEADER, h.start, h.start + h.pool, m, m', h.blocks, SetUsed(h.blocks, i, true), freeList);
  }

  /** The first fit found by the walk is the one the abstract allocation takes. */
  lemma AllocIsTake(h: Heap, size: nat, k: nat, i: nat)
    requires WellFormed(h) && Request(size) < FreeBytes(h.blocks)
    requires FirstFit(h, Request(size), k) && FitsAt(h, k, i, Request(size))
    ensures MemHeapModel.Alloc(h, size) == Outcome(Take(h, k, i, Request(size)), h.ring[k] + HEADER)
  {
    var l, j := AllocTakes(h, size);
    FirstFitUnique(h, Request(size), k, l);
    SameAddrSameIndex(HEADER, h.start, h.start + h.pool, h.blocks, i, j);
  }

  /** The C code merges to the left first; the result is the same. */
  lemma MergesCommute(f: seq<Block>, i: nat)
    requires i + 1 < |f| && !f[i].used
    ensures var j := if i > 0 && !f[i - 1].used then i - 1 else i;
      j < |MergeLeft(HEADER, f, i)|
      && MergeRight(HEADER, MergeLeft(HEADER, f, i), j) == MergeLeft(HEADER, MergeRight(HEADER, f, i), i)
  {
    if i > 0 && !f[i - 1].used && !f[i + 1].used {
      DoubleMerge(f, i);
    } else if i > 0 && !f[i - 1].used {
      assert MergeAt(HEADER, f, i - 1)[i] == f[i + 1];
    } else if i > 0 && !f[i + 1].used {
      assert MergeAt(HEADER, f, i)[i - 1] == f[i - 1];
    }
  }

  lemma DoubleMerge(f: seq<Block>, i: nat)
    requires 0 < i && i + 1 < |f| && !f[i - 1].used && !f[i].used && !f[i + 1].used
    ensures var l, r := MergeAt(HEADER, f, i - 1), MergeAt(HEADER, f, i);
      !l[i].used && !l[i - 1].used && !r[i - 1].used && MergeAt(HEADER, l, i - 1) == MergeAt(HEADER, r, i - 1)
  {
    var l, r := MergeAt(HEADER, f, i - 1), MergeAt(HEADER, f, i);
    assert l[i] == f[i + 1] && l[i + 1..] == f[i + 2..] && l[..i - 1] == f[..i - 1];
    assert r[i - 1] == f[i - 1] && r[i + 1..] == f[i + 2..] && r[..i - 1] == f[..i - 1];
  }

  lemma FreeingMarks(h: Heap, i: nat, used: map<nat, bool>)
    requires WellFormed(h) && Marks(used, h.blocks) && i < |h.blocks|
    ensures Marks(used[h.blocks[i].addr := false], SetUsed(h.blocks, i, false))
    ensures Addrs(SetUsed(h.blocks, i, false)) == Addrs(h.blocks)
  {
    SetUsedMarks(HEADER, h.start, h.start + h.pool, used, h.blocks, i, false);
  }

  /** What the right merge finds after a left merge: the same neighbour, and no new addresses. */
  lemma AfterLeftMerge(f: seq<Block>, i: nat)
    requires i + 1 < |f| && !f[i].used
    ensures var g := MergeLeft(HEADER, f, i);
      var j := if i > 0 && !f[i - 1].used then i - 1 else i;
      && j + 1 < |g| && g[j + 1] == f[i + 1] && !g[j].used && g[j].addr == f[j].addr
      && Elements(Addrs(g)) <= Elements(Addrs(f))
  {
    if i > 0 && !f[i - 1].used {
      var g := MergeAt(HEADER, f, i - 1);
      forall k | 0 <= k < |g|
        ensures Addrs(g)[k] in Elements(Addrs(f))
      {
        assert Addrs(g)[k] == Addrs(f)[if k < i then k else k + 1];
      }
    }
  }

  lemma FreedNeighbours(bs: seq<Block>, i: nat)
    requires i < |bs| - 1
    ensures var f := SetUsed(bs, i, false);
      |f| == |bs| && !f[i].used && f[i].addr == bs[i].addr && f[i + 1] == bs[i + 1] && (i > 0 ==> f[i - 1] == bs[i - 1])
      && f[|f| - 1] == bs[|bs| - 1] && bs[i].addr in Elements(Addrs(f))
  {
    assert Addrs(SetUsed(bs, i, false))[i] == bs[i].addr;
  }

  /** The facts about block i that releasing it relies on. */
  ghost predicate Releasable(start: nat, pool: nat, bs: seq<Block>, ring: seq<nat>, i: nat) {
    && Canonical(HEADER, start, start + pool, bs) && Shaped(bs) && RingMatches(bs, ring)
    && i < |bs| - 1 && bs[i].used
  }

  /** After the merges the item, if it is new to the ring, can be inserted. */
  lemma ReleasedItemFresh(start: nat, pool: nat, bs: seq<Block>, ring: seq<nat>, i: nat, freeList: nat)
    requires Releasable(start, pool, bs, ring, i)
    requires freeList + HEADER <= start || start + pool <= freeList
    ensures bs[i].addr != freeList && bs[i].addr !in ring && bs[i].addr !in Without(ring, bs[i + 1].addr)
    ensures !bs[i + 1].used ==> bs[i + 1].addr in ring
  {
    FreeingShaped(start, start + pool, bs, i);
    WithoutMembers(ring, bs[i + 1].addr);
    WithinPool(HEADER, start, start + pool, bs, i);
    FreeAddrsMember(bs, bs[i + 1].addr);
  }

  lemma HeapItemSize(h: Heap, next: Table, prev: Table, nextFree: Table, prevFree: Table,
                     used: map<nat, bool>, freeList: nat, i: nat)
    requires WellFormed(h) && Represents(h, next, prev, nextFree, prevFree, used, freeList) && i < |h.blocks| - 1
    ensures h.blocks[i].addr in next && next[h.blocks[i].addr] == h.blocks[i].addr + HEADER + h.blocks[i].size
  {
    ItemSize(h.start, h.start + h.pool, h.blocks, next, prev, i);
  }

  lemma FreePlan(h: Heap, i: nat) returns (h': Heap, total: nat)
    requires WellFormed(h) && i < |h.blocks| - 1 && h.blocks[i].used
    ensures h' == FreeAt(h, i) && WellFormed(h') && h'.start == h.start && h'.pool == h.pool && h'.peak == h.peak
    ensures total == FreeBytes(h'.blocks)
    ensures total == FreeBytes(h.blocks) + h.blocks[i].size
      + (if i > 0 && !h.blocks[i - 1].used then HEADER else 0) + (if !h.blocks[i + 1].used then HEADER else 0)
  {
    h' := FreeAt(h, i);
    total := FreeBytes(h'.blocks);
    FreeAtWellFormed(h, i);
    FreeAtBytes(h, i);
    FreeAtPeak(h, i);
  }

  lemma ReleaseKeeps(h: Heap, i: nat, m: Memory, m': Memory, freeList: nat)
    requires WellFormed(h) && OutsidePool(h, freeList) && i < |h.blocks| - 1 && h.blocks[i].used
    requires Kept(HEADER, m, m', Headers(h.blocks, h.blocks, freeList))
    ensures KeepsAllocated(HEADER, m, m', h.blocks, Tiling.Release(HEADER, h.blocks, i))
  {
    ReleaseMeaning(HEADER, h.start, h.start + h.pool, h.blocks, i);
    OldHeadersSuffice(h, Tiling.Release(HEADER, h.blocks, i), m, m', freeList);
  }

  /** Writing only headers of the old state cannot touch allocated bytes of either state. */
  lemma OldHeadersSuffice(h: Heap, bs': seq<Block>, m: Memory, m': Memory, freeList: nat)
    requires WellFormed(h) && OutsidePool(h, freeList)
    requires Tiled(HEADER, h.start, h.start + h.pool, bs')
    requires Kept(HEADER, m, m', Headers(h.blocks, h.blocks, freeList))
    ensures KeepsAllocated(HEADER, m, m', h.blocks, bs')
  {
    WiderHeaders(m, m', Headers(h.blocks, h.blocks, freeList), Headers(h.blocks, bs', freeList));
    HeaderWritesKeepAllocated(HEADER, h.start, h.start + h.pool, m, m', h.blocks, bs', freeList);
  }

  lemma WiderHeaders(m: Memory, m': Memory, headers: set<nat>, wider: set<nat>)
    requires Kept(HEADER, m, m', headers) && headers <= wider
    ensures Kept(HEADER, m, m', wider)
  {
    forall a: nat | !InHeader(HEADER, a, wider)
      ensures SameByte(m, m', a)
    {
      assert forall p :: p in headers ==> p in wider;
    }
  }

  // ---- Shrinking and growing ----

  ghost predicate CanShrink(h: Heap, i: nat, size: nat) {
    && i < |h.blocks| - 1 && h.blocks[i].used
    && size % 4 == 0 && size >= MINIALLOC && size + HEADER + MINIALLOC < h.blocks[i].size
  }

  lemma LastUsed(h: Heap)
    requires WellFormed(h)
    ensures |h.blocks| > 1 && h.blocks[|h.blocks| - 1].used
  {
  }

  lemma ShrinkPlan(h: Heap, i: nat, size: nat) returns (h': Heap, total: nat)
    requires WellFormed(h) && CanShrink(h, i, size)
    ensures h' == Shrink(h, i, size) && WellFormed(h') && h'.start == h.start && h'.pool == h.pool && h'.peak == h.peak
    ensures total == FreeBytes(h'.blocks)
    ensures total == FreeBytes(h.blocks) + h.blocks[i].size - size - (if h.blocks[i + 1].used then HEADER else 0)
    ensures i + 1 < |h'.blocks| - 1 && h'.blocks[i + 1].addr == h.blocks[i].addr + HEADER + size
    ensures h'.blocks[i + 1].size
      == h.blocks[i].size - size - HEADER + if h.blocks[i + 1].used then 0 else HEADER + h.blocks[i + 1].size
    ensures !h.blocks[i + 1].used ==> h.blocks[i + 1].size <= FreeBytes(h.blocks)
  {
    hide WellFormed, FreeBytes, Split, Tiling.Release, ReleasedRing;
    if !h.blocks[i + 1].used {
      FreeBlockCounts(h.blocks, i + 1);
    }
    LastUsed(h);
    h' := Shrink(h, i, size);
    total := FreeBytes(h'.blocks);
    ShrinkWellFormed(h, i, size);
    ShrinkBytes(h, i, size);
    ShrinkPeak(h, i, size);
    ShrinkRemainder(h.blocks, i, size);
  }

  /** The block that a shrink leaves free. */
  lemma ShrinkRemainder(bs: seq<Block>, i: nat, size: nat)
    requires i < |bs| - 1 && bs[i].size >= size + HEADER && bs[|bs| - 1].used
    ensures var r := Tiling.Release(HEADER, Split(HEADER, bs, i, size, true), i + 1);
      i + 1 < |r| - 1
      && r[i + 1] == Block(bs[i].addr + HEADER + size,
                           bs[i].size - size - HEADER + (if bs[i + 1].used then 0 else HEADER + bs[i + 1].size), false)
      && r == MergeRight(HEADER, Split(HEADER, bs, i, size, false), i + 1)
  {
    var cut, f := Split(HEADER, bs, i, size, true), Split(HEADER, bs, i, size, false);
    assert SetUsed(cut, i + 1, false) == f by {
      assert cut[..i + 1] == f[..i + 1] && cut[i + 2..] == f[i + 2..];
    }
    assert f[i + 2] == bs[i + 1] && f[i].used && cut[i].used;
    assert |f| == |bs| + 1 && f[|f| - 1] == bs[|bs| - 1];
    var r := MergeRight(HEADER, f, i + 1);
    assert r[i] == f[i];
  }

  /** The tables once the new header is linked in behind the shrunk item. */
  lemma CutTables(h: Heap, i: nat, size: nat, used: map<nat, bool>)
    requires WellFormed(h) && CanShrink(h, i, size) && Marks(used, h.blocks)
    ensures var p := h.blocks[i].addr + size + HEADER;
      Marks(used[p := false], Split(HEADER, h.blocks, i, size, false))
      && Addrs(Split(HEADER, h.blocks, i, size, false)) == Addrs(h.blocks)[..i + 1] + [p] + Addrs(h.blocks)[i + 1..]
  {
    var p := h.blocks[i].addr + size + HEADER;
    SplitAddrs(h.blocks, i, size, false);
    SplitMarks(HEADER, h.start, h.start + h.pool, used, h.blocks, i, size, false);
    assert used[p := false][h.blocks[i].addr := true] == used[p := false];
  }

  lemma CutNeighbours(h: Heap, i: nat, size: nat)
    requires WellFormed(h) && CanShrink(h, i, size)
    ensures var f := Split(HEADER, h.blocks, i, size, false);
      && i + 2 < |f| && f[i + 1] == Block(h.blocks[i].addr + size + HEADER, h.blocks[i].size - size - HEADER, false)
      && f[i + 2] == h.blocks[i + 1] && (!f[i + 2].used ==> f[i + 2].addr in h.ring)
  {
    FreeAddrsMember(h.blocks, h.blocks[i + 1].addr);
  }

  /** All headers of the cut are old headers or the new one. */
  lemma CutWithin(h: Heap, i: nat, size: nat, headers: set<nat>)
    requires WellFormed(h) && CanShrink(h, i, size)
    requires headers == AddrSet(h.blocks) + {h.blocks[i].addr + size + HEADER}
    ensures AddrSet(Split(HEADER, h.blocks, i, size, false)) == headers
  {
    SplitAddrs(h.blocks, i, size, false);
    assert Addrs(h.blocks) == Addrs(h.blocks)[..i + 1] + Addrs(h.blocks)[i + 1..];
  }

  lemma ShrinkRepresents(h: Heap, i: nat, size: nat, next: Table, prev: Table, nextFree: Table, prevFree: Table,
                         used: map<nat, bool>, freeList: nat)
    requires WellFormed(h) && CanShrink(h, i, size)
    requires var f := Split(HEADER, h.blocks, i, size, false);
      i + 1 < |f| && Ring(next, prev, Addrs(MergeRight(HEADER, f, i + 1))) && Marks(used, MergeRight(HEADER, f, i + 1))
    requires Ring(nextFree, prevFree, [freeList] + ([h.blocks[i].addr + size + HEADER]
      + if h.blocks[i + 1].used then h.ring else Without(h.ring, h.blocks[i + 1].addr)))
    ensures Represents(Shrink(h, i, size), next, prev, nextFree, prevFree, used, freeList)
  {
    hide Ring, Marks, MergeRight, Tiling.Release;
    ShrinkRemainder(h.blocks, i, size);
    CutUsed(h, i, size);
  }

  /** Writing old headers and one header of the new state cannot touch bytes allocated in both. */
  lemma OneNewHeader(h: Heap, h': Heap, j: nat, p: nat, m: Memory, m': Memory, freeList: nat)
    requires WellFormed(h) && WellFormed(h') && h'.start == h.start && h'.pool == h.pool && OutsidePool(h, freeList)
    requires j < |h'.blocks| && h'.blocks[j].addr == p
    requires Kept(HEADER, m, m', AddrSet(h.blocks) + {p} + {freeList})
    ensures KeepsAllocated(HEADER, m, m', h.blocks, h'.blocks)
  {
    hide Kept, KeepsAllocated, Tiled, NoAdjacentFree, Shaped;
    assert Addrs(h'.blocks)[j] == p;
    WiderHeaders(m, m', AddrSet(h.blocks) + {p} + {freeList}, Headers(h.blocks, h'.blocks, freeList));
    HeaderWritesKeepAllocated(HEADER, h.start, h.start + h.pool, m, m', h.blocks, h'.blocks, freeList);
  }

  lemma ShrinkKeeps(h: Heap, i: nat, size: nat, m: Memory, m': Memory, freeList: nat)
    requires WellFormed(h) && OutsidePool(h, freeList) && CanShrink(h, i, size)
    requires Kept(HEADER, m, m', AddrSet(Split(HEADER, h.blocks, i, size, false)) + {freeList})
    ensures KeepsAllocated(HEADER, m, m', h.blocks, Shrink(h, i, size).blocks)
  {
    hide Kept, KeepsAllocated, WellFormed, Split, Shrink;
    var h', total := ShrinkPlan(h, i, size);
    CutWithin(h, i, size, AddrSet(h.blocks) + {h.blocks[i].addr + size + HEADER});
    OneNewHeader(h, h', i + 1, h.blocks[i].addr + size + HEADER, m, m', freeList);
  }

  lemma GrowPlan(h: Heap, i: nat, size: nat) returns (h': Heap, total: nat)
    requires WellFormed(h) && GrowsInPlace(h, i, size)
    ensures h' == Grow(h, i, size) && WellFormed(h') && h'.start == h.start && h'.pool == h.pool
    ensures h'.peak == Max(h.peak, h.pool - total)
    ensures total == FreeBytes(h'.blocks) && FreeBytes(h.blocks) <= h.pool
    ensures total == FreeBytes(h.blocks) - (size - h.blocks[i].size)
    ensures i + 1 < |h'.blocks| && h'.blocks[i + 1].addr == h.blocks[i].addr + HEADER + size
  {
    h' := Grow(h, i, size);
    total := FreeBytes(h'.blocks);
    GrowWellFormed(h, i, size);
    GrowEffect(h, i, size);
    FreeBytesWithin(h);
  }

  ghost predicate GrowsInPlace(h: Heap, i: nat, size: nat) {
    && i + 1 < |h.blocks| && h.blocks[i].used && CanGrow(h.blocks, i, size)
    && size > h.blocks[i].size && size % 4 == 0
  }

  /** The used bits are right for every block but the one at position j. */
  ghost predicate MarksExcept(used: map<nat, bool>, bs: seq<Block>, j: nat) {
    forall i :: 0 <= i < |bs| && i != j ==> bs[i].addr in used && used[bs[i].addr] == bs[i].used
  }

  lemma DropMark(h: Heap, used: map<nat, bool>, j: nat)
    requires WellFormed(h) && Marks(used, h.blocks) && j < |h.blocks|
    ensures MarksExcept(used - {h.blocks[j].addr}, h.blocks, j)
  {
    forall i | 0 <= i < |h.blocks| && i != j
      ensures h.blocks[i].addr != h.blocks[j].addr
    {
      if h.blocks[i].addr == h.blocks[j].addr {
        SameAddrSameIndex(HEADER, h.start, h.start + h.pool, h.blocks, i, j);
      }
    }
  }

  lemma GrowMarks(h: Heap, i: nat, size: nat, used: map<nat, bool>)
    requires WellFormed(h) && GrowsInPlace(h, i, size) && MarksExcept(used, h.blocks, i + 1)
    ensures Marks(used[h.blocks[i].addr + HEADER + size := false], Grow(h, i, size).blocks)
  {
    var p := h.blocks[i].addr + HEADER + size;
    var bs := h.blocks;
    assert bs[i + 1].addr == End(HEADER, bs[i]);
    InsideIsFresh(h.start, h.start + h.pool, bs, i + 1, p);
    var r := Replace(bs, i, 2, GrownPair(bs, i, size));
    forall j | 0 <= j < |r|
      ensures r[j].addr in used[p := false] && used[p := false][r[j].addr] == r[j].used
    {
      if j != i && j != i + 1 {
        assert r[j] == bs[j];
      }
    }
  }

  function Moved(h: Heap, i: nat): seq<nat>
    requires i + 1 < |h.blocks|
  {
    Addrs(h.blocks)[..i + 1] + Addrs(h.blocks)[i + 2..]
  }

  /** The block list while the header behind block i moves: one header leaves, one enters. */
  lemma GrowAddrs(h: Heap, i: nat, size: nat)
    requires WellFormed(h) && GrowsInPlace(h, i, size)
    ensures Addrs(Grow(h, i, size).blocks)
      == Moved(h, i)[..i + 1] + [h.blocks[i].addr + HEADER + size] + Moved(h, i)[i + 1..]
    ensures i < |Moved(h, i)| && Moved(h, i)[i] == h.blocks[i].addr
    ensures Elements(Moved(h, i)) <= AddrSet(h.blocks)
  {
    hide FreeBytes, Tiled, NoAdjacentFree, Sized, RingMatches, Addrs, Replace, WellFormed;
    var p := h.blocks[i].addr + HEADER + size;
    PairAddrs(h.blocks, i, GrownPair(h.blocks, i, size));
    AddrsAre(h.blocks);
    Gap(Addrs(h.blocks), i, p);
  }

  lemma AddrsAre(bs: seq<Block>)
    ensures |Addrs(bs)| == |bs| && forall i :: 0 <= i < |bs| ==> Addrs(bs)[i] == bs[i].addr
  {
  }

  /** Addresses when two blocks are exchanged for two others. */
  lemma PairAddrs(bs: seq<Block>, i: nat, new': seq<Block>)
    requires i + 2 <= |bs| && |new'| == 2 && new'[0].addr == bs[i].addr
    ensures Addrs(Replace(bs, i, 2, new')) == Addrs(bs)[..i + 1] + [new'[1].addr] + Addrs(bs)[i + 2..]
  {
  }

  /** Taking one entry out and putting another in its place. */
  lemma Gap(s: seq<nat>, i: nat, p: nat)
    requires i + 1 < |s|
    ensures var t := s[..i + 1] + s[i + 2..];
      && i < |t| && t[i] == s[i] && t[..i + 1] + [p] + t[i + 1..] == s[..i + 1] + [p] + s[i + 2..]
      && Elements(t) <= Elements(s)
  {
    var t := s[..i + 1] + s[i + 2..];
    assert t[..i + 1] == s[..i + 1] && t[i + 1..] == s[i + 2..];
    assert forall k :: 0 <= k < |t| ==> t[k] == s[if k <= i then k else k + 1];
  }

  lemma GrowFresh(h: Heap, i: nat, size: nat, freeList: nat)
    requires WellFormed(h) && GrowsInPlace(h, i, size) && OutsidePool(h, freeList)
    ensures var p, n := h.blocks[i].addr + HEADER + size, h.blocks[i + 1].addr;
      && p !in Addrs(h.blocks) && p !in Moved(h, i) && p !in h.ring && p != freeList
      && n in h.ring && n !in Moved(h, i) && n != freeList && Distinct(h.ring)
  {
    hide Sized, NoAdjacentFree, FreeAddrs;
    var bs := h.blocks;
    assert bs[i + 1].addr == End(HEADER, bs[i]);
    NewHeader(h, i + 1, bs[i].addr + HEADER + size, freeList);
    FreeAddrsMember(bs, bs[i + 1].addr);
    WithinPool(HEADER, h.start, h.start + h.pool, bs, i + 1);
    if bs[i + 1].addr in Moved(h, i) {
      var k :| 0 <= k < |Moved(h, i)| && Moved(h, i)[k] == bs[i + 1].addr;
      SameAddrSameIndex(HEADER, h.start, h.start + h.pool, bs, if k <= i then k else k + 1, i + 1);
    }
  }

  lemma GrowKeeps(h: Heap, i: nat, size: nat, m: Memory, m': Memory, freeList: nat)
    requires WellFormed(h) && OutsidePool(h, freeList) && GrowsInPlace(h, i, size)
    requires Kept(HEADER, m, m', AddrSet(h.blocks) + {h.blocks[i].addr + HEADER + size} + {freeList})
    ensures KeepsAllocated(HEADER, m, m', h.blocks, Grow(h, i, size).blocks)
  {
    hide Kept, KeepsAllocated, WellFormed, Grow;
    var h', total := GrowPlan(h, i, size);
    OneNewHeader(h, h', i + 1, h.blocks[i].addr + HEADER + size, m, m', freeList);
  }

  // ---- Moving a block ----

  /** o is h after a successful allocation of `size` bytes at r, with ptr live in both. */
  ghost predicate Allocates(h: Heap, o: Heap, ptr: nat, size: nat, r: nat) {
    && WellFormed(h) && WellFormed(o) && Live(h, ptr) && Live(o, ptr) && BlockOf(o, ptr) == BlockOf(h, ptr)
    && MemHeapModel.Alloc(h, size) == Outcome(o, r) && r != 0
  }

  /** Allocating, copying and releasing is a move of the block. */
  lemma MoveBlocks(h: Heap, o: Heap, ptr: nat, size: nat, r: nat) returns (c: Block, b: Block)
    requires Allocates(h, o, ptr, size, r)
    ensures Moves(HEADER, h.start, h.start + h.pool, h.blocks, o.blocks, MemHeapModel.Free(o, ptr).blocks, c, b)
    ensures b.addr + HEADER == r && b.size >= Request(size) && c.addr + HEADER == ptr && c == BlockOf(h, ptr)
    ensures b in UsedBlocks(o.blocks) && c in UsedBlocks(o.blocks) && b != c
  {
    hide MemHeapModel.Alloc, UsedBlocks, WellFormed, Tiled, FreeBytes;
    b := AllocAdds(h, size);
    c := BlockOf(h, ptr);
    AllocSamePool(h, size);
    FreeWellFormed(o, ptr);
    assert c in UsedBlocks(h.blocks) by {
      LiveIsUsed(h, ptr);
    }
    assert Tiled(HEADER, o.start, o.start + o.pool, o.blocks) by {
      TiledOf(o);
    }
  }

  lemma TiledOf(h: Heap)
    requires WellFormed(h)
    ensures Tiled(HEADER, h.start, h.start + h.pool, h.blocks)
  {
  }

  lemma LiveIsUsed(h: Heap, ptr: nat)
    requires WellFormed(h) && Live(h, ptr)
    ensures BlockOf(h, ptr) in UsedBlocks(h.blocks) && BlockOf(h, ptr).addr + HEADER == ptr
  {
    LiveIndexOf(h, ptr);
  }

  /** After a resize in place the front of the block still holds the same bytes. */
  lemma InPlaceCopied(h: Heap, i: nat, size: nat, m: Memory, m': Memory)
    requires WellFormed(h) && i + 1 < |h.blocks| && h.blocks[i].used
    requires size % 4 == 0 && size >= MINIALLOC && PlanFor(h.blocks, i, size) != Move
    requires KeepsAllocated(HEADER, m, m', h.blocks, ResizeInPlace(h, i, size).blocks)
    ensures Copied(m, h.blocks[i].addr + HEADER, m', h.blocks[i].addr + HEADER, Min(h.blocks[i].size, size))
  {
    hide WellFormed, PlanFor, ResizeInPlace, Allocated;
    var b := ResizeExchanges(h, i, size);
    assert h.blocks[i] in UsedBlocks(h.blocks) && b in UsedBlocks(ResizeInPlace(h, i, size).blocks);
    InPlaceKeeps(HEADER, h.blocks, ResizeInPlace(h, i, size).blocks, h.blocks[i], b, Min(h.blocks[i].size, size),
                 m, m');
  }

  lemma LiveIndexOf(h: Heap, ptr: nat)
    requires WellFormed(h) && Live(h, ptr)
    ensures ptr >= HEADER && h.blocks[LiveIndex(h, ptr)].addr == ptr - HEADER && LiveIndex(h, ptr) < |h.blocks| - 1
    ensures BlockOf(h, ptr) == h.blocks[LiveIndex(h, ptr)]
  {
  }

  lemma InitRepresents(start: nat, size: nat, freeList: nat)
    requires start > 0 && size >= 2 * HEADER + MINIALLOC && freeList != start
    ensures var tail := start + (size / 4 * 4 - 2 * HEADER) + HEADER;
      Represents(MemHeapModel.Init(start, size), map[start := tail, tail := start], map[start := tail, tail := start],
                 map[freeList := start, start := freeList], map[start := freeList, freeList := start],
                 map[start := false, tail := true], freeList)
  {
    var h := MemHeapModel.Init(start, size);
    var tail := start + (size / 4 * 4 - 2 * HEADER) + HEADER;
    assert Addrs(h.blocks) == [start, tail];
    assert [freeList] + h.ring == [freeList, start];
  }

  class MemoryHeap {
    /** &heap->free_header, an item header outside the pool. */
    const freeList: nat
    var startAddr: nat
    var poolSize: nat
    var availableSize: nat
    var maxUsedSize: nat
    var next: Table
    var prev: Table
    var nextFree: Table
    var prevFree: Table
    var used: map<nat, bool>
    var mem: Memory
    /** What the headers stand for. */
    ghost var heap: Heap

    ghost predicate Valid()
      reads this
    {
      && WellFormed(heap)
      && heap.start == startAddr && heap.pool == poolSize
      && OutsidePool(heap, freeList)
      && availableSize == FreeBytes(heap.blocks)
      && maxUsedSize == heap.peak
      && Represents(heap, next, prev, nextFree, prevFree, used, freeList)
    }

    /** rt_memheap_init: one free block and the allocated zero-length tailer, linked to each other. */
    constructor Init(freeHeader: nat, start: nat, size: nat)
      requires start > 0 && start % 4 == 0 && size >= 2 * HEADER + MINIALLOC
      requires 0 < freeHeader && (freeHeader + HEADER <= start || start + size <= freeHeader)
      ensures Valid() && heap == MemHeapModel.Init(start, size) && mem == map[]
    {
      startAddr := start;
      poolSize := size / 4 * 4;
      availableSize := size / 4 * 4 - 2 * HEADER;
      maxUsedSize := size / 4 * 4 - (size / 4 * 4 - 2 * HEADER);
      freeList := freeHeader;
      var tail := start + (size / 4 * 4 - 2 * HEADER) + HEADER;
      next := map[start := tail, tail := start];
      prev := map[start := tail, tail := start];
      nextFree := map[freeHeader := start, start := freeHeader];
      prevFree := map[start := freeHeader, freeHeader := start];
      used := map[start := false, tail := true];
      mem := map[];
      heap := MemHeapModel.Init(start, size);
      new;
      InitWellFormed(start, size);
      InitRepresents(start, size, freeHeader);
    }

    // ---- The pointer edits that the C code spells out at each place ----

    /** Mark the header at p as allocated or free. */
    method SetMagic(p: nat, b: bool, ghost headers: set<nat>)
      requires p in headers
      modifies this`used, this`mem
      ensures used == old(used)[p := b]
      ensures Kept(HEADER, old(mem), mem, headers)
    {
      used := used[p := b];
      mem := Erase(HEADER, mem, {p});
      EraseKeeps(HEADER, old(mem), {p}, headers);
    }

    /** Take p, the k-th member of the ring s, off the free ring. */
    method RemoveFromFreeList(p: nat, ghost s: seq<nat>, ghost k: nat, ghost headers: set<nat>)
      requires Ring(nextFree, prevFree, s) && k < |s| && |s| > 1 && s[k] == p
      requires Elements(s) <= headers
      modifies this`nextFree, this`prevFree, this`mem
      ensures Ring(nextFree, prevFree, s[..k] + s[k + 1..])
      ensures Kept(HEADER, old(mem), mem, headers)
    {
      RingInverse(nextFree, prevFree, s, k);
      RingRemove(nextFree, prevFree, s, k);
      var written := {p, nextFree[p], prevFree[p]};
      prevFree := prevFree[nextFree[p] := prevFree[p]];
      nextFree := nextFree[prevFree[p] := nextFree[p]];
      mem := Erase(HEADER, mem, written);
      EraseKeeps(HEADER, old(mem), written, headers);
    }

    /** Put p right behind the list head s[0] of the free ring. */
    method InsertToFreeList(p: nat, ghost s: seq<nat>, ghost headers: set<nat>)
      requires Ring(nextFree, prevFree, s) && s[0] == freeList && p !in s
      requires p in headers && Elements(s) <= headers
      modifies this`nextFree, this`prevFree, this`mem
      ensures Ring(nextFree, prevFree, [freeList] + [p] + s[1..])
      ensures Kept(HEADER, old(mem), mem, headers)
    {
      RingInverse(nextFree, prevFree, s, 0);
      RingInsert(nextFree, prevFree, s, 0, p);
      assert s[..1] == [freeList];
      var first := nextFree[freeList];
      nextFree := nextFree[p := first];
      prevFree := prevFree[p := freeList];
      prevFree := prevFree[first := p];
      nextFree := nextFree[freeList := p];
      mem := Erase(HEADER, mem, {p, first, freeList});
      EraseKeeps(HEADER, old(mem), {p, first, freeList}, headers);
    }

    /** Link the new header p into the block list behind s[k]. */
    method InsertToBlockList(p: nat, after: nat, ghost s: seq<nat>, ghost k: nat, ghost headers: set<nat>)
      requires Ring(next, prev, s) && k < |s| && s[k] == after && p !in s
      requires p in headers && Elements(s) <= headers
      modifies this`next, this`prev, this`mem
      ensures Ring(next, prev, s[..k + 1] + [p] + s[k + 1..])
      ensures Kept(HEADER, old(mem), mem, headers)
    {
      RingInverse(next, prev, s, k);
      RingInsert(next, prev, s, k, p);
      var right := next[after];
      prev := prev[p := after];
      next := next[p := right];
      prev := prev[right := p];
      next := next[after := p];
      mem := Erase(HEADER, mem, {p, right, after});
      EraseKeeps(HEADER, old(mem), {p, right, after}, headers);
    }

    /** Drop the header p, the k-th member of the block list, by joining its neighbours. */
    method RemoveFromBlockList(p: nat, ghost s: seq<nat>, ghost k: nat, ghost headers: set<nat>)
      requires Ring(next, prev, s) && k < |s| && |s| > 1 && s[k] == p
      requires Elements(s) <= headers
      modifies this`next, this`prev, this`mem
      ensures Ring(next, prev, s[..k] + s[k + 1..])
      ensures Kept(HEADER, old(mem), mem, headers)
    {
      RingInverse(next, prev, s, k);
      RingRemove(next, prev, s, k);
      var right, left := next[p], prev[p];
      prev := prev[right := left];
      next := next[left := right];
      mem := Erase(HEADER, mem, {right, left});
      EraseKeeps(HEADER, old(mem), {right, left}, headers);
    }
  
    // ---- rt_memheap_alloc ----

    /** Block i, entry k of the ring, is the first that fits. */
    ghost predicate Found(headerPtr: nat, freeSize: nat, size: nat, k: nat, i: nat)
      reads this
    {
      && FirstFit(heap, size, k) && FitsAt(heap, k, i, size)
      && headerPtr == heap.blocks[i].addr && freeSize == heap.blocks[i].size
    }

    /** Walk the free ring from its head; stop at the first block that is large enough. */
    method FindFit(size: nat) returns (headerPtr: nat, freeSize: nat, ghost k: nat, ghost i: nat)
      requires Valid() && size >= MINIALLOC && size % 4 == 0
      ensures freeSize < size <==> forall j: nat :: !FirstFit(heap, size, j)
      ensures freeSize >= size ==> Found(headerPtr, freeSize, size, k, i)
    {
      hide WellFormed, Fits, Ring, Marks, FreeBytes;
      freeSize := 0;
      k, i := 0, 0;
      ghost var s := [freeList] + heap.ring;
      HeadApart(nextFree, prevFree, freeList, heap.ring);
      RingInverse(nextFree, prevFree, s, 0);
      headerPtr := nextFree[freeList];
      while headerPtr != freeList && freeSize < size
        invariant k <= |heap.ring|
        invariant headerPtr == if k < |heap.ring| then heap.ring[k] else freeList
        invariant forall j :: 0 <= j < k ==> !Fits(heap, size, heap.ring[j])
        invariant freeSize >= size ==> Found(headerPtr, freeSize, size, k, i)
        decreases |heap.ring| - k, if freeSize < size then 1 else 0
      {
        assert s[k + 1] == headerPtr && k < |heap.ring|;
        i, freeSize := MeasureItem(headerPtr, size, k);
        if freeSize < size {
          RingInverse(nextFree, prevFree, s, k + 1);
          headerPtr := nextFree[headerPtr];
          k := k + 1;
        }
      }
    }

    /** The size of the k-th free item, and whether that makes it fit. */
    method MeasureItem(headerPtr: nat, size: nat, ghost k: nat) returns (ghost i: nat, freeSize: nat)
      requires Valid() && size >= MINIALLOC && size % 4 == 0
      requires k < |heap.ring| && headerPtr == heap.ring[k]
      ensures i < |heap.blocks| - 1 && heap.blocks[i].addr == headerPtr && !heap.blocks[i].used
      ensures freeSize == heap.blocks[i].size
      ensures Fits(heap, size, headerPtr) <==> freeSize >= size
    {
      FreeAddrsMember(heap.blocks, heap.ring[k]);
      assert heap.ring[k] in FreeAddrs(heap.blocks);
      i :| 0 <= i < |heap.blocks| && heap.blocks[i].addr == heap.ring[k] && !heap.blocks[i].used;
      ItemSize(heap.start, heap.start + heap.pool, heap.blocks, next, prev, i);
      freeSize := next[headerPtr] - headerPtr - HEADER;
      if Fits(heap, size, headerPtr) {
        ghost var j :| 0 <= j < |heap.blocks| && heap.blocks[j].addr == headerPtr && heap.blocks[j].size >= size;
        SameAddrSameIndex(HEADER, heap.start, heap.start + heap.pool, heap.blocks, i, j);
      }
    }
  
    /** Split: a new free header behind the allocated one takes its place in the free ring. */
    method SplitHeaders(headerPtr: nat, newPtr: nat, ghost addrs: seq<nat>, ghost i: nat,
                        ghost ring: seq<nat>, ghost k: nat, ghost headers: set<nat>)
      requires Ring(next, prev, addrs) && i < |addrs| && addrs[i] == headerPtr
      requires Ring(nextFree, prevFree, [freeList] + ring) && k < |ring| && ring[k] == headerPtr
      requires newPtr !in addrs && newPtr !in ring && newPtr != freeList
      requires newPtr in headers && freeList in headers
      requires Elements(addrs) <= headers && Elements(ring) <= headers
      modifies this`next, this`prev, this`nextFree, this`prevFree, this`used, this`mem
      ensures Ring(next, prev, addrs[..i + 1] + [newPtr] + addrs[i + 1..])
      ensures Ring(nextFree, prevFree, [freeList] + ([newPtr] + RemoveAt(ring, k)))
      ensures used == old(used)[newPtr := false][headerPtr := true]
      ensures Kept(HEADER, old(mem), mem, headers)
    {
      hide Ring, RemoveAt;
      SetMagic(newPtr, false, headers);
      InsertToBlockList(newPtr, headerPtr, addrs, i, headers);
      ghost var s := [freeList] + ring;
      assert s[k + 1] == ring[k];
      HeadRemoved(freeList, ring, k, newPtr);
      RemoveFromFreeList(headerPtr, s, k + 1, headers);
      ghost var t := s[..k + 1] + s[k + 2..];
      InsertToFreeList(newPtr, t, headers);
      SetMagic(headerPtr, true, headers);
    }

    /** Lower available_size and raise max_used_size where the memory in use has grown past it. */
    method CountUsed(bytes: nat)
      requires bytes <= availableSize <= poolSize
      modifies this`availableSize, this`maxUsedSize
      ensures availableSize == old(availableSize) - bytes
      ensures maxUsedSize == Max(old(maxUsedSize), poolSize - availableSize)
    {
      availableSize := availableSize - bytes;
      if poolSize - availableSize > maxUsedSize {
        maxUsedSize := poolSize - availableSize;
      }
    }

    /** The headers now describe h'. */
    ghost method Commit(h': Heap)
      requires WellFormed(h') && h'.start == startAddr && h'.pool == poolSize && OutsidePool(h', freeList)
      requires availableSize == FreeBytes(h'.blocks) && maxUsedSize == h'.peak
      requires Represents(h', next, prev, nextFree, prevFree, used, freeList)
      modifies this`heap
      ensures Valid() && heap == h'
    {
      heap := h';
    }

    /** All header writes of a splitting allocation. */
    method SplitItem(headerPtr: nat, size: nat, ghost h: Heap, ghost k: nat, ghost i: nat)
      requires WellFormed(h) && OutsidePool(h, freeList)
      requires Represents(h, next, prev, nextFree, prevFree, used, freeList)
      requires FitsAt(h, k, i, size) && h.blocks[i].size >= size + HEADER + MINIALLOC && headerPtr == h.blocks[i].addr
      modifies this`next, this`prev, this`nextFree, this`prevFree, this`used, this`mem
      ensures Represents(Take(h, k, i, size), next, prev, nextFree, prevFree, used, freeList)
      ensures KeepsAllocated(HEADER, old(mem), mem, h.blocks, Take(h, k, i, size).blocks)
    {
      hide Ring, Marks, Kept, KeepsAllocated, Split;
      ghost var m, u := mem, used;
      ghost var headers := SplitWrites(h, k, i, size, freeList);
      SplitHeaders(headerPtr, headerPtr + size + HEADER, Addrs(h.blocks), i, h.ring, k, headers);
      SplitRepresents(h, k, i, size, next, prev, nextFree, prevFree, u, freeList);
      SplitMeaning(HEADER, h.start, h.start + h.pool, h.blocks, i, size, false);
      HeaderWritesKeepAllocated(HEADER, h.start, h.start + h.pool, m, mem, h.blocks,
                                Split(HEADER, h.blocks, i, size, false), freeList);
    }

    /** The branch that splits the block found. */
    method TakeSplit(headerPtr: nat, size: nat, ghost k: nat, ghost i: nat)
      requires Valid() && FitsAt(heap, k, i, size) && headerPtr == heap.blocks[i].addr
      requires heap.blocks[i].size >= size + HEADER + MINIALLOC
      modifies this
      ensures Valid() && heap == Take(old(heap), k, i, size)
      ensures KeepsAllocated(HEADER, old(mem), mem, old(heap).blocks, heap.blocks)
      ensures unchanged(`startAddr) && unchanged(`poolSize)
    {
      hide Take, WellFormed, Represents, KeepsAllocated, FreeBytes;
      ghost var h' := SplitPlan(heap, k, i, size);
      SplitItem(headerPtr, size, heap, k, i);
      CountUsed(size + HEADER);
      Commit(h');
    }
  
    /** The branch that hands out the whole block. */
    method TakeWhole(headerPtr: nat, size: nat, ghost k: nat, ghost i: nat)
      requires Valid() && FitsAt(heap, k, i, size) && headerPtr == heap.blocks[i].addr
      requires heap.blocks[i].size < size + HEADER + MINIALLOC
      modifies this
      ensures Valid() && heap == Take(old(heap), k, i, size)
      ensures KeepsAllocated(HEADER, old(mem), mem, old(heap).blocks, heap.blocks)
      ensures unchanged(`startAddr) && unchanged(`poolSize)
    {
      hide Take, WellFormed, Represents, KeepsAllocated, FreeBytes;
      ghost var h' := WholePlan(heap, k, i, size);
      HeapItemSize(heap, next, prev, nextFree, prevFree, used, freeList, i);
      CountUsed(next[headerPtr] - headerPtr - HEADER);
      HandOut(headerPtr, size, heap, k, i);
      Commit(h');
    }

    /** No split: the header leaves the free ring and is marked. */
    method TakeHeader(headerPtr: nat, ghost ring: seq<nat>, ghost k: nat, ghost headers: set<nat>)
      requires Ring(nextFree, prevFree, [freeList] + ring) && k < |ring| && ring[k] == headerPtr
      requires freeList in headers && Elements(ring) <= headers
      modifies this`nextFree, this`prevFree, this`used, this`mem
      ensures Ring(nextFree, prevFree, [freeList] + RemoveAt(ring, k))
      ensures used == old(used)[headerPtr := true]
      ensures Kept(HEADER, old(mem), mem, headers)
    {
      ghost var s := [freeList] + ring;
      RemoveFromFreeList(headerPtr, s, k + 1, headers);
      assert s[..k + 1] + s[k + 2..] == [freeList] + RemoveAt(ring, k);
      assert headerPtr in Elements(ring);
      SetMagic(headerPtr, true, headers);
    }

    method HandOut(headerPtr: nat, size: nat, ghost h: Heap, ghost k: nat, ghost i: nat)
      requires WellFormed(h) && OutsidePool(h, freeList)
      requires Represents(h, next, prev, nextFree, prevFree, used, freeList)
      requires FitsAt(h, k, i, size) && h.blocks[i].size < size + HEADER + MINIALLOC && headerPtr == h.blocks[i].addr
      modifies this`nextFree, this`prevFree, this`used, this`mem
      ensures Represents(Take(h, k, i, size), next, prev, nextFree, prevFree, used, freeList)
      ensures KeepsAllocated(HEADER, old(mem), mem, h.blocks, Take(h, k, i, size).blocks)
    {
      ghost var m, u := mem, used;
      ghost var headers := Headers(h.blocks, SetUsed(h.blocks, i, true), freeList);
      RingWithin(h);
      TakeHeader(headerPtr, h.ring, k, headers);
      WholeRepresents(h, i, u);
      WholeKeeps(h, i, m, mem, freeList);
    }

    /**
     rt_memheap_alloc. The lock section computes exactly the allocation of the
     abstract heap and leaves every allocated byte alone.
     */
    method Alloc(size0: nat) returns (ptr: nat)
      requires Valid()
      modifies this
      ensures Valid()
      ensures MemHeapModel.Alloc(old(heap), size0) == Outcome(heap, ptr)
      ensures KeepsAllocated(HEADER, old(mem), mem, old(heap).blocks, heap.blocks)
      ensures unchanged(`startAddr) && unchanged(`poolSize)
      ensures ptr == 0 ==> unchanged(this)
    {
      var size := (size0 + 3) / 4 * 4;
      if size < MINIALLOC {
        size := MINIALLOC;
      }
      AlignedMultiple(size0);
      ptr := 0;
      if size < availableSize {
        var headerPtr, freeSize;
        ghost var k, i;
        headerPtr, freeSize, k, i := FindFit(size);
        if freeSize >= size {
          AllocIsTake(heap, size0, k, i);
          if freeSize >= size + HEADER + MINIALLOC {
            TakeSplit(headerPtr, size, k, i);
          } else {
            TakeWhole(headerPtr, size, k, i);
          }
          ptr := headerPtr + HEADER;
        }
      }
    }
  
    // ---- rt_memheap_free ----

    /** If the left neighbour is free, it swallows the item; the result is the header to go on with. */
    method MergeLeftHeader(headerPtr: nat, ghost f: seq<Block>, ghost i: nat, ghost headers: set<nat>)
      returns (item: nat, merged: bool)
      requires Ring(next, prev, Addrs(f)) && Marks(used, f)
      requires i + 1 < |f| && !f[i].used && f[i].addr == headerPtr && f[|f| - 1].used
      requires Elements(Addrs(f)) <= headers
      modifies this`next, this`prev, this`mem
      ensures merged == (i > 0 && !f[i - 1].used)
      ensures item == if merged then f[i - 1].addr else headerPtr
      ensures Ring(next, prev, Addrs(MergeLeft(HEADER, f, i))) && Marks(used, MergeLeft(HEADER, f, i))
      ensures Kept(HEADER, old(mem), mem, headers)
    {
      hide Kept, Ring, Marks, MergeAt;
      KeptNothing(HEADER, mem, headers);
      RingInverse(next, prev, Addrs(f), i);
      MarkOf(used, f, if i > 0 then i - 1 else |f| - 1);
      item := headerPtr;
      merged := !used[prev[headerPtr]];
      if merged {
        item := prev[headerPtr];
        MergeTables(HEADER, used, f, i - 1);
        RemoveFromBlockList(headerPtr, Addrs(f), i, headers);
      }
    }

    /** If the right neighbour is free, the item swallows it and it leaves the free ring. */
    method MergeRightHeader(item: nat, ghost f: seq<Block>, ghost i: nat, ghost ring: seq<nat>, ghost headers: set<nat>)
      returns (merged: bool)
      requires Ring(next, prev, Addrs(f)) && Marks(used, f) && Ring(nextFree, prevFree, [freeList] + ring)
      requires i + 1 < |f| && !f[i].used && f[i].addr == item
      requires Distinct(ring) && (!f[i + 1].used ==> f[i + 1].addr in ring)
      requires Elements(Addrs(f)) <= headers && Elements(ring) <= headers && freeList in headers
      modifies this`next, this`prev, this`nextFree, this`prevFree, this`mem
      ensures merged == !f[i + 1].used
      ensures Ring(next, prev, Addrs(MergeRight(HEADER, f, i))) && Marks(used, MergeRight(HEADER, f, i))
      ensures Ring(nextFree, prevFree, [freeList] + if merged then Without(ring, f[i + 1].addr) else ring)
      ensures Kept(HEADER, old(mem), mem, headers)
    {
      RingInverse(next, prev, Addrs(f), i);
      var newPtr := next[item];
      merged := !used[newPtr];
      if merged {
        MergeTables(HEADER, used, f, i);
        RemoveFromBlockList(newPtr, Addrs(f), i + 1, headers);
        RemoveNamed(newPtr, ring, headers);
      }
    }

    /** Unlink p from the free ring, wherever it is. */
    method RemoveNamed(p: nat, ghost ring: seq<nat>, ghost headers: set<nat>)
      requires Ring(nextFree, prevFree, [freeList] + ring) && p in ring && Distinct(ring)
      requires Elements(ring) <= headers && freeList in headers
      modifies this`nextFree, this`prevFree, this`mem
      ensures Ring(nextFree, prevFree, [freeList] + Without(ring, p))
      ensures Kept(HEADER, old(mem), mem, headers)
    {
      ghost var k :| 0 <= k < |ring| && ring[k] == p;
      WithoutAt(ring, k);
      ghost var s := [freeList] + ring;
      RemoveFromFreeList(p, s, k + 1, headers);
      assert s[..k + 1] + s[k + 2..] == [freeList] + RemoveAt(ring, k);
    }
  
    /** Merge the freed item with its free neighbours. */
    method MergeBoth(headerPtr: nat, ghost f: seq<Block>, ghost ring: seq<nat>, ghost i: nat, ghost headers: set<nat>)
      returns (mergedLeft: bool, mergedRight: bool)
      requires i + 1 < |f| && !f[i].used && f[|f| - 1].used && headerPtr == f[i].addr
      requires Distinct(ring) && (!f[i + 1].used ==> f[i + 1].addr in ring)
      requires Ring(next, prev, Addrs(f)) && Marks(used, f) && Ring(nextFree, prevFree, [freeList] + ring)
      requires Elements(Addrs(f)) <= headers && Elements(ring) <= headers && freeList in headers
      modifies this`next, this`prev, this`nextFree, this`prevFree, this`mem
      ensures mergedLeft == (i > 0 && !f[i - 1].used) && mergedRight == !f[i + 1].used
      ensures Ring(next, prev, Addrs(MergeLeft(HEADER, MergeRight(HEADER, f, i), i)))
      ensures Marks(used, MergeLeft(HEADER, MergeRight(HEADER, f, i), i))
      ensures Ring(nextFree, prevFree, [freeList] + if mergedRight then Without(ring, f[i + 1].addr) else ring)
      ensures Kept(HEADER, old(mem), mem, headers)
    {
      hide Ring, Marks, Kept, MergeLeft, MergeRight;
      ghost var m := mem;
      var item;
      item, mergedLeft := MergeLeftHeader(headerPtr, f, i, headers);
      ghost var m1 := mem;
      AfterLeftMerge(f, i);
      MergesCommute(f, i);
      mergedRight := MergeRightHeader(item, MergeLeft(HEADER, f, i), if mergedLeft then i - 1 else i, ring, headers);
      KeptTwice(HEADER, m, m1, mem, headers);
    }

    /** A freed item that was not merged to the left enters the free ring at its front. */
    method InsertFreed(headerPtr: nat, mergedLeft: bool, ghost rest: seq<nat>, ghost headers: set<nat>)
      requires Ring(nextFree, prevFree, [freeList] + rest)
      requires headerPtr != freeList && headerPtr !in rest
      requires headerPtr in headers && Elements(rest) <= headers && freeList in headers
      modifies this`nextFree, this`prevFree, this`mem
      ensures Ring(nextFree, prevFree, [freeList] + if mergedLeft then rest else [headerPtr] + rest)
      ensures Kept(HEADER, old(mem), mem, headers)
    {
      if !mergedLeft {
        assert ([freeList] + rest)[1..] == rest;
        InsertToFreeList(headerPtr, [freeList] + rest, headers);
        assert [freeList] + [headerPtr] + rest == [freeList] + ([headerPtr] + rest);
      }
    }

    /** Merge the freed item and put it on the free ring if it is new there. */
    method Coalesce(headerPtr: nat, ghost f: seq<Block>, ghost ring: seq<nat>, ghost i: nat, ghost headers: set<nat>)
      returns (mergedLeft: bool, mergedRight: bool)
      requires i + 1 < |f| && !f[i].used && f[|f| - 1].used && headerPtr == f[i].addr
      requires Distinct(ring) && (!f[i + 1].used ==> f[i + 1].addr in ring)
      requires Ring(next, prev, Addrs(f)) && Marks(used, f) && Ring(nextFree, prevFree, [freeList] + ring)
      requires Elements(Addrs(f)) <= headers && Elements(ring) <= headers && freeList in headers
      requires headerPtr in headers && headerPtr != freeList && headerPtr !in ring
      modifies this`next, this`prev, this`nextFree, this`prevFree, this`mem
      ensures mergedLeft == (i > 0 && !f[i - 1].used) && mergedRight == !f[i + 1].used
      ensures Ring(next, prev, Addrs(MergeLeft(HEADER, MergeRight(HEADER, f, i), i)))
      ensures Marks(used, MergeLeft(HEADER, MergeRight(HEADER, f, i), i))
      ensures Ring(nextFree, prevFree, [freeList] + ReleasedRing(f, ring, i))
      ensures Kept(HEADER, old(mem), mem, headers)
    {
      mergedLeft, mergedRight := MergeBoth(headerPtr, f, ring, i, headers);
      WithoutMembers(ring, f[i + 1].addr);
      InsertFreed(headerPtr, mergedLeft, if mergedRight then Without(ring, f[i + 1].addr) else ring, headers);
    }
  
    /** All header writes of rt_memheap_free. */
    method ReleaseItem(headerPtr: nat, ghost h: Heap, ghost i: nat) returns (mergedLeft: bool, mergedRight: bool)
      requires WellFormed(h) && OutsidePool(h, freeList) && h.start == startAddr && h.pool == poolSize
      requires Represents(h, next, prev, nextFree, prevFree, used, freeList)
      requires i < |h.blocks| - 1 && h.blocks[i].used && headerPtr == h.blocks[i].addr
      modifies this`next, this`prev, this`nextFree, this`prevFree, this`used, this`mem
      ensures mergedLeft == (i > 0 && !h.blocks[i - 1].used) && mergedRight == !h.blocks[i + 1].used
      ensures Represents(FreeAt(h, i), next, prev, nextFree, prevFree, used, freeList)
      ensures KeepsAllocated(HEADER, old(mem), mem, h.blocks, FreeAt(h, i).blocks)
    {
      hide MergeLeft, MergeRight, SetUsed, KeepsAllocated, Kept, Ring, Marks, Without;
      ghost var m := mem;
      ghost var headers := Headers(h.blocks, h.blocks, freeList);
      RingWithin(h);
      FreedNeighbours(h.blocks, i);
      FreeingMarks(h, i, used);
      ReleasedItemFresh(startAddr, poolSize, h.blocks, h.ring, i, freeList);
      SetMagic(headerPtr, false, headers);
      ghost var m1 := mem;
      mergedLeft, mergedRight := Coalesce(headerPtr, SetUsed(h.blocks, i, false), h.ring, i, headers);
      KeptTwice(HEADER, m, m1, mem, headers);
      ReleaseKeeps(h, i, m, mem, freeList);
    }

    method FreeItem(headerPtr: nat, ghost i: nat)
      requires Valid() && i < |heap.blocks| - 1 && heap.blocks[i].used && headerPtr == heap.blocks[i].addr
      modifies this
      ensures Valid() && heap == FreeAt(old(heap), i)
      ensures KeepsAllocated(HEADER, old(mem), mem, old(heap).blocks, heap.blocks)
      ensures unchanged(`startAddr) && unchanged(`poolSize)
    {
      hide FreeAt, WellFormed, Represents, KeepsAllocated, FreeBytes;
      ghost var h := heap;
      ghost var h', total := FreePlan(h, i);
      HeapItemSize(h, next, prev, nextFree, prevFree, used, freeList, i);
      var size := next[headerPtr] - headerPtr - HEADER;
      var mergedLeft, mergedRight := ReleaseItem(headerPtr, h, i);
      CountFreed(size, mergedLeft, mergedRight);
      assert availableSize == total;
      Commit(h');
    }

    /** The payload is available again, and with every merge one header. */
    method CountFreed(size: nat, mergedLeft: bool, mergedRight: bool)
      modifies this`availableSize
      ensures availableSize
        == old(availableSize) + size + (if mergedLeft then HEADER else 0) + (if mergedRight then HEADER else 0)
    {
      availableSize := availableSize + size;
      if mergedLeft {
        availableSize := availableSize + HEADER;
      }
      if mergedRight {
        availableSize := availableSize + HEADER;
      }
    }

    /** rt_memheap_free. */
    method Free(ptr: nat)
      requires Valid() && (ptr == 0 || Live(heap, ptr))
      modifies this
      ensures Valid()
      ensures heap == if ptr == 0 then old(heap) else MemHeapModel.Free(old(heap), ptr)
      ensures KeepsAllocated(HEADER, old(mem), mem, old(heap).blocks, heap.blocks)
      ensures unchanged(`startAddr) && unchanged(`poolSize)
    {
      if ptr != 0 {
        FreeItem(ptr - HEADER, LiveIndex(heap, ptr));
      }
    }
  
    // ---- rt_memheap_realloc ----

    /** The item behind this one, whether it is free, and if so its size. */
    method NextItem(headerPtr: nat, ghost h: Heap, ghost i: nat) returns (nextPtr: nat, isFree: bool, size: nat)
      requires WellFormed(h) && Represents(h, next, prev, nextFree, prevFree, used, freeList)
      requires i < |h.blocks| - 1 && headerPtr == h.blocks[i].addr
      ensures nextPtr == h.blocks[i + 1].addr == headerPtr + HEADER + h.blocks[i].size
      ensures isFree == !h.blocks[i + 1].used
      ensures size == if isFree then h.blocks[i + 1].size else 0
    {
      ItemSize(h.start, h.start + h.pool, h.blocks, next, prev, i);
      nextPtr := next[headerPtr];
      isFree := !used[nextPtr];
      size := 0;
      if isFree {
        ItemSize(h.start, h.start + h.pool, h.blocks, next, prev, i + 1);
        size := next[nextPtr] - nextPtr - HEADER;
      }
    }

    /** All header writes of the shrinking branch. */
    method ShrinkHeaders(headerPtr: nat, size: nat, ghost h: Heap, ghost i: nat) returns (merged: bool)
      requires WellFormed(h) && OutsidePool(h, freeList)
      requires Represents(h, next, prev, nextFree, prevFree, used, freeList)
      requires CanShrink(h, i, size) && headerPtr == h.blocks[i].addr
      modifies this`next, this`prev, this`nextFree, this`prevFree, this`used, this`mem
      ensures merged == !h.blocks[i + 1].used
      ensures Represents(Shrink(h, i, size), next, prev, nextFree, prevFree, used, freeList)
      ensures KeepsAllocated(HEADER, old(mem), mem, h.blocks, Shrink(h, i, size).blocks)
    {
      hide Ring, Marks, Kept, KeepsAllocated, Split, Tiling.Release, MergeRight, WithBlocks, Canonical, Shaped;
      hide OutsidePool, Without;
      ghost var f := Split(HEADER, h.blocks, i, size, false);
      ghost var headers := AddrSet(f) + {freeList};
      ghost var m := mem;
      var newPtr := headerPtr + size + HEADER;
      NewHeader(h, i, newPtr, freeList);
      RingWithin(h);
      CutTables(h, i, size, used);
      CutNeighbours(h, i, size);
      CutWithin(h, i, size, AddrSet(h.blocks) + {newPtr});
      SetMagic(newPtr, false, headers);
      ghost var m1 := mem;
      InsertToBlockList(newPtr, headerPtr, Addrs(h.blocks), i, headers);
      KeptTwice(HEADER, m, m1, mem, headers);
      ghost var m2 := mem;
      merged := MergeRightHeader(newPtr, f, i + 1, h.ring, headers);
      KeptTwice(HEADER, m, m2, mem, headers);
      ghost var m3 := mem;
      ghost var rest := if merged then Without(h.ring, h.blocks[i + 1].addr) else h.ring;
      WithoutMembers(h.ring, h.blocks[i + 1].addr);
      InsertFreed(newPtr, false, rest, headers);
      KeptTwice(HEADER, m, m3, mem, headers);
      ShrinkKeeps(h, i, size, m, mem, freeList);
      ShrinkRepresents(h, i, size, next, prev, nextFree, prevFree, used, freeList);
    }
  
    /** The branch that cuts the block and gives the rest back. */
    method ShrinkItem(headerPtr: nat, size: nat, ghost i: nat)
      requires Valid() && CanShrink(heap, i, size) && headerPtr == heap.blocks[i].addr
      modifies this
      ensures Valid() && heap == Shrink(old(heap), i, size)
      ensures KeepsAllocated(HEADER, old(mem), mem, old(heap).blocks, heap.blocks)
      ensures unchanged(`startAddr) && unchanged(`poolSize)
    {
      hide WellFormed, Represents, KeepsAllocated, Shrink, FreeBytes;
      ghost var h := heap;
      ghost var h', total := ShrinkPlan(h, i, size);
      var freePtr, isFree, freeSize := NextItem(headerPtr, h, i);
      if isFree {
        availableSize := availableSize - freeSize;
      }
      var merged := ShrinkHeaders(headerPtr, size, h, i);
      HeapItemSize(h', next, prev, nextFree, prevFree, used, freeList, i + 1);
      var newPtr := headerPtr + size + HEADER;
      availableSize := availableSize + (next[newPtr] - newPtr - HEADER);
      assert availableSize == total;
      Commit(h');
    }
  
    /** The header at p is gone: whatever overwrites it later, no link word of it is read again. */
    method DropHeader(p: nat, ghost s: seq<nat>, ghost t: seq<nat>)
      requires Ring(next, prev, s) && Ring(nextFree, prevFree, t) && p !in s && p !in t
      modifies this`next, this`prev, this`nextFree, this`prevFree, this`used
      ensures Ring(next, prev, s) && Ring(nextFree, prevFree, t)
      ensures used == old(used) - {p}
    {
      next, prev, nextFree, prevFree, used := next - {p}, prev - {p}, nextFree - {p}, prevFree - {p}, used - {p};
    }
  
    /** All header writes of the growing branch. */
    method GrowHeaders(headerPtr: nat, size: nat, nextPtr: nat, ghost h: Heap, ghost i: nat)
      requires WellFormed(h) && OutsidePool(h, freeList)
      requires Represents(h, next, prev, nextFree, prevFree, used, freeList)
      requires GrowsInPlace(h, i, size) && headerPtr == h.blocks[i].addr && nextPtr == h.blocks[i + 1].addr
      modifies this`next, this`prev, this`nextFree, this`prevFree, this`used, this`mem
      ensures Represents(Grow(h, i, size), next, prev, nextFree, prevFree, used, freeList)
      ensures KeepsAllocated(HEADER, old(mem), mem, h.blocks, Grow(h, i, size).blocks)
    {
      hide Ring, Marks, MarksExcept, Kept, KeepsAllocated, CanGrow, Without, Moved, WellFormed, OutsidePool, Addrs;
      var newPtr := headerPtr + HEADER + size;
      ghost var headers := AddrSet(h.blocks) + {newPtr} + {freeList};
      ghost var rest := Without(h.ring, nextPtr);
      ghost var m := mem;
      RingWithin(h);
      GrowFresh(h, i, size, freeList);
      GrowAddrs(h, i, size);
      WithoutMembers(h.ring, nextPtr);
      DropMark(h, used, i + 1);
      RemoveNamed(nextPtr, h.ring, headers);
      ghost var m1 := mem;
      UnlinkNext(nextPtr, h, i, headers);
      KeptTwice(HEADER, m, m1, mem, headers);
      DropHeader(nextPtr, Moved(h, i), [freeList] + rest);
      ghost var m2 := mem;
      GrowMarks(h, i, size, used);
      SetMagic(newPtr, false, headers);
      KeptTwice(HEADER, m, m2, mem, headers);
      ghost var m3 := mem;
      InsertToBlockList(newPtr, headerPtr, Moved(h, i), i, headers);
      KeptTwice(HEADER, m, m3, mem, headers);
      ghost var m4 := mem;
      InsertFreed(newPtr, false, rest, headers);
      KeptTwice(HEADER, m, m4, mem, headers);
      GrowKeeps(h, i, size, m, mem, freeList);
    }

    method UnlinkNext(nextPtr: nat, ghost h: Heap, ghost i: nat, ghost headers: set<nat>)
      requires Ring(next, prev, Addrs(h.blocks)) && i + 1 < |h.blocks| && nextPtr == h.blocks[i + 1].addr
      requires AddrSet(h.blocks) <= headers
      modifies this`next, this`prev, this`mem
      ensures Ring(next, prev, Moved(h, i)) && Kept(HEADER, old(mem), mem, headers)
    {
      RemoveFromBlockList(nextPtr, Addrs(h.blocks), i + 1, headers);
    }

    /** The branch that takes the missing bytes from the free block behind. */
    method GrowItem(headerPtr: nat, size: nat, nextPtr: nat, oldSize: nat, ghost i: nat)
      requires Valid() && GrowsInPlace(heap, i, size) && headerPtr == heap.blocks[i].addr
      requires nextPtr == heap.blocks[i + 1].addr
      requires oldSize == heap.blocks[i].size
      modifies this
      ensures Valid() && heap == Grow(old(heap), i, size)
      ensures KeepsAllocated(HEADER, old(mem), mem, old(heap).blocks, heap.blocks)
      ensures unchanged(`startAddr) && unchanged(`poolSize)
    {
      hide WellFormed, Represents, KeepsAllocated, Grow, FreeBytes;
      ghost var h := heap;
      ghost var h', total := GrowPlan(h, i, size);
      CountUsed(size - oldSize);
      GrowHeaders(headerPtr, size, nextPtr, h, i);
      assert availableSize == total;
      Commit(h');
    }
  
    /** The branch that allocates elsewhere, copies, and frees. */
    method MoveItem(ptr: nat, oldSize: nat, size: nat) returns (r: nat)
      requires Valid() && Live(heap, ptr) && oldSize == BlockOf(heap, ptr).size && oldSize < size == Request(size)
      modifies this
      ensures Valid()
      ensures r == MemHeapModel.Alloc(old(heap), size).ptr
      ensures r == 0 ==> unchanged(this)
      ensures r != 0 ==> WellFormed(MemHeapModel.Alloc(old(heap), size).heap)
      ensures r != 0 ==> Live(MemHeapModel.Alloc(old(heap), size).heap, ptr)
      ensures r != 0 ==> heap == MemHeapModel.Free(MemHeapModel.Alloc(old(heap), size).heap, ptr)
      ensures r != 0 ==> Copied(old(mem), ptr, mem, r, oldSize)
      ensures KeepsAllocated(HEADER, old(mem), mem, old(heap).blocks, heap.blocks)
      ensures unchanged(`startAddr) && unchanged(`poolSize)
    {
      hide WellFormed, Represents, KeepsAllocated, Live, MemHeapModel.Alloc, MemHeapModel.Free, Copied, SameByte;
      hide FreeBytes;
      ghost var h, m0 := heap, mem;
      AllocKeepsLive(h, size, ptr);
      r := Alloc(size);
      if r != 0 {
        ghost var o, m1 := heap, mem;
        var c, b := MoveBlocks(h, o, ptr, size, r);
        MoveApart(HEADER, startAddr, startAddr + poolSize, o.blocks, c, b, oldSize);
        mem := CopyBytes(mem, r, ptr, oldSize);
        ghost var m2 := mem;
        Free(ptr);
        MoveKeeps(HEADER, startAddr, startAddr + poolSize, h.blocks, o.blocks, heap.blocks, c, b, oldSize,
                  m0, m1, m2, mem);
      } else {
        AllocFails(h, size);
        KeepsSelf(HEADER, m0, h.blocks);
      }
    }
  
    /** The branches that keep the block where it is. */
    method ResizeItem(ptr: nat, size: nat, oldSize: nat, nextPtr: nat, ghost i: nat)
      requires Valid() && i < |heap.blocks| - 1 && heap.blocks[i].used && ptr == heap.blocks[i].addr + HEADER
      requires size % 4 == 0 && size >= MINIALLOC && oldSize == heap.blocks[i].size
      requires nextPtr == heap.blocks[i + 1].addr
      requires PlanFor(heap.blocks, i, size) != Move
      modifies this
      ensures Valid() && heap == ResizeInPlace(old(heap), i, size)
      ensures KeepsAllocated(HEADER, old(mem), mem, old(heap).blocks, heap.blocks)
      ensures Copied(old(mem), ptr, mem, ptr, Min(oldSize, size))
      ensures unchanged(`startAddr) && unchanged(`poolSize)
    {
      hide WellFormed, KeepsAllocated, Copied, Grow, Shrink, Represents;
      ghost var h, m := heap, mem;
      if size > oldSize {
        GrowItem(ptr - HEADER, size, nextPtr, oldSize, i);
      } else if size + HEADER + MINIALLOC < oldSize {
        ShrinkItem(ptr - HEADER, size, i);
      } else {
        KeepsSelf(HEADER, mem, heap.blocks);
      }
      InPlaceCopied(h, i, size, m, mem);
    }

    /**
     rt_memheap_realloc: computes the abstract reallocation, keeps the first bytes of
     the block on every path, and leaves all other allocated bytes alone.
     */
    method Realloc(ptr: nat, newsize: nat) returns (r: nat)
      requires Valid() && (ptr == 0 || Live(heap, ptr))
      modifies this
      ensures Valid()
      ensures MemHeapRuns.Realloc(old(heap), ptr, newsize) == Outcome(heap, r)
      ensures KeepsAllocated(HEADER, old(mem), mem, old(heap).blocks, heap.blocks)
      ensures ptr != 0 && r != 0 ==> Copied(old(mem), ptr, mem, r, Min(BlockOf(old(heap), ptr).size, Request(newsize)))
      ensures newsize > 0 && r == 0 ==> unchanged(this)
      ensures unchanged(`startAddr) && unchanged(`poolSize)
    {
      hide WellFormed, Represents, KeepsAllocated, Copied, MemHeapModel.Alloc, MemHeapModel.Free, ResizeInPlace;
      hide FreeBytes;
      if newsize == 0 {
        Free(ptr);
        r := 0;
        return;
      }
      var size := (newsize + 3) / 4 * 4;
      if size < MINIALLOC {
        size := MINIALLOC;
      }
      AlignedMultiple(newsize);
      if ptr == 0 {
        r := Alloc(size);
        return;
      }
      ghost var i := LiveIndex(heap, ptr);
      LiveIndexOf(heap, ptr);
      var nextPtr, isFree, nextSize := NextItem(ptr - HEADER, heap, i);
      var oldSize := nextPtr - (ptr - HEADER) - HEADER;
      if size > oldSize && !(isFree && nextSize + oldSize > size + MINIALLOC) {
        r := MoveItem(ptr, oldSize, size);
      } else {
        ResizeItem(ptr, size, oldSize, nextPtr, i);
        r := ptr;
      }
    }
  }
}
