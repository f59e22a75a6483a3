/**
 rt_malloc_align and rt_free_align (kservice.c): masks on 32-bit words, on top of
 the small heap.
 */
module AlignedAlloc {
  import opened Tiling
  import opened Bytes
  import opened SmallHeapModel
  import opened SmallHeap
  import opened Arithmetic

  // ---- Bits of 32-bit words ----

  function Power2(k: nat): (p: nat)
    ensures p > 0
  {
    if k == 0 then 1 else 2 * Power2(k - 1)
  }

  function BitAnd(x: nat, y: nat): nat {
    if x == 0 || y == 0 then 0 else 2 * BitAnd(x / 2, y / 2) + x % 2 * (y % 2)
  }

  /** ~x. */
  function BitNot(x: nat): nat
    requires x < ADDRESSES
  {
    ADDRESSES - 1 - x
  }

  lemma AndOdd(x: nat, m: nat)
    ensures BitAnd(x, 2 * m + 1) == 2 * BitAnd(x / 2, m) + x % 2
  {
    assert (2 * m + 1) / 2 == m && (2 * m + 1) % 2 == 1;
  }

  lemma AndEven(x: nat, m: nat)
    ensures BitAnd(x, 2 * m) == 2 * BitAnd(x / 2, m)
  {
    assert 2 * m / 2 == m && 2 * m % 2 == 0;
  }

  lemma HalfRemainder(x: nat, p: nat)
    requires p > 0
    ensures x % (2 * p) == 2 * (x / 2 % p) + x % 2
  {
    var h := x / 2;
    var q, r := h / p, h % p;
    assert h == q * p + r;
    assert q * (2 * p) == 2 * (q * p);
    RemainderIs(x, 2 * p, q, 2 * r + x % 2);
  }

  /** Masking with a power of two minus one is the remainder. */
  lemma {:induction false} MaskIsRemainder(x: nat, k: nat)
    ensures BitAnd(x, Power2(k) - 1) == x % Power2(k)
    decreases k
  {
    hide BitAnd;
    if k == 0 {
      AndZero(x);
    } else {
      var p := Power2(k - 1);
      MaskIsRemainder(x / 2, k - 1);
      AndOdd(x, p - 1);
      HalfRemainder(x, p);
    }
  }

  lemma AndZero(x: nat)
    ensures BitAnd(x, 0) == 0
  {
  }

  lemma AndAllOnes(x: nat, w: nat)
    requires x < Power2(w)
    ensures BitAnd(x, Power2(w) - 1) == x
  {
    hide Power2, BitAnd;
    MaskIsRemainder(x, w);
    SmallRemainder(x, Power2(w));
  }

  /** Clearing the low k bits of a w-bit word. */
  lemma {:induction false} ClearLowBits(x: nat, w: nat, k: nat)
    requires k <= w && x < Power2(w)
    ensures Power2(k) <= Power2(w)
    ensures BitAnd(x, Power2(w) - Power2(k)) == x - x % Power2(k)
    decreases k
  {
    hide BitAnd;
    PowerGrows(k, w);
    if k == 0 {
      AndAllOnes(x, w);
    } else {
      var p, q := Power2(k - 1), Power2(w - 1);
      ClearLowBits(x / 2, w - 1, k - 1);
      AndEven(x, q - p);
      HalfRemainder(x, p);
    }
  }

  lemma {:induction false} PowerGrows(k: nat, w: nat)
    requires k <= w
    ensures Power2(k) <= Power2(w)
    decreases w
  {
    if k < w {
      PowerGrows(k, w - 1);
    }
  }

  lemma WordIsPower()
    ensures Power2(32) == ADDRESSES
  {
    assert Power2(8) == 256;
    assert Power2(16) == 0x1_0000 by {
      assert Power2(16) == 2 * (2 * (2 * (2 * (2 * (2 * (2 * (2 * Power2(8))))))));
    }
    assert Power2(24) == 0x100_0000 by {
      assert Power2(24) == 2 * (2 * (2 * (2 * (2 * (2 * (2 * (2 * Power2(16))))))));
    }
    assert Power2(32) == 2 * (2 * (2 * (2 * (2 * (2 * (2 * (2 * Power2(24))))))));
  }

  /** x & ~(2^k - 1) on 32-bit words. */
  lemma ClearMask(x: nat, k: nat)
    requires x < ADDRESSES && k <= 32
    ensures Power2(k) - 1 < ADDRESSES && BitAnd(x, BitNot(Power2(k) - 1)) == x - x % Power2(k)
  {
    WordIsPower();
    ClearLowBits(x, 32, k);
    assert BitNot(Power2(k) - 1) == Power2(32) - Power2(k);
  }

  // ---- Aligning a pointer ----

  ghost predicate IsPower2(a: nat) {
    exists k: nat :: Power2(k) == a
  }

  /** The next aligned address at least one word behind p, as the code computes it; `a` is the rounded alignment. */
  function AlignPointer(p: nat, a: nat): nat
    requires 0 < a < ADDRESSES
  {
    if BitAnd(p, a - 1) == 0 then p + a else BitAnd(p + (a - 1), BitNot(a - 1))
  }

  /** Rounding up in plain arithmetic. */
  lemma RoundingUp(p: nat, a: nat)
    requires 4 <= a && a % 4 == 0 && p % 4 == 0
    ensures p % a == 0 ==> (p + a) % a == 0
    ensures p % a != 0 ==>
      var x := p + (a - 1) - (p + (a - 1)) % a;
      x % a == 0 && p + 4 <= x <= p + a
  {
    var q, r := p / a, p % a;
    assert p == q * a + r;
    if r == 0 {
      RemainderIs(p + a, a, q + 1, 0);
    } else {
      NextMultiple(p, a, q, r);
    }
  }

  lemma NextMultiple(p: nat, a: nat, q: nat, r: nat)
    requires 4 <= a && a % 4 == 0 && p % 4 == 0 && p == q * a + r && 0 < r < a
    ensures (p + (a - 1)) % a == r - 1 && (p + a - r) % a == 0 && p + 4 <= p + a - r
  {
    RemainderIs(p + (a - 1), a, q + 1, r - 1);
    RemainderIs(p + a - r, a, q + 1, 0);
    MultipleOf4(q + 1, a);
  }

  /** For a power of two the result is aligned, and there is room for a word in front of it. */
  lemma AlignedBehind(p: nat, a: nat)
    requires IsPower2(a) && 4 <= a && a % 4 == 0 && p % 4 == 0 && p + a < ADDRESSES
    ensures AlignPointer(p, a) % a == 0 && p + 4 <= AlignPointer(p, a) <= p + a
  {
    hide BitAnd, Power2;
    var k: nat :| Power2(k) == a;
    MaskIsRemainder(p, k);
    SmallPower(k);
    ClearMask(p + (a - 1), k);
    RoundingUp(p, a);
  }

  lemma MultipleOf4(q: nat, a: nat)
    requires a % 4 == 0
    ensures q * a % 4 == 0
  {
    assert q * a == 4 * (q * (a / 4));
    RemainderIs(q * a, 4, q * (a / 4), 0);
  }

  lemma SmallPower(k: nat)
    requires Power2(k) < ADDRESSES
    ensures k <= 32
  {
    WordIsPower();
    if k > 32 {
      PowerGrows(32, k);
    }
  }

  /** Every positive number is a power of two times an odd number. */
  lemma {:induction false} OddFactor(a: nat) returns (k: nat, q: nat)
    requires a > 0
    ensures a == Power2(k) * q && q % 2 == 1
    decreases a
  {
    if a % 2 == 1 {
      k, q := 0, a;
    } else {
      k, q := OddFactor(a / 2);
      assert a == 2 * (Power2(k) * q) == (2 * Power2(k)) * q;
      k := k + 1;
    }
  }

  lemma NothingAnd(m: nat)
    ensures BitAnd(0, m) == 0
  {
  }

  lemma {:induction false} LowBitMissed(k: nat, q: nat)
    requires q % 2 == 1
    ensures Power2(k) * q >= 1 && BitAnd(Power2(k), Power2(k) * q - 1) == 0
    decreases k
  {
    hide BitAnd;
    if k == 0 {
      assert Power2(0) * q == q;
      AndEven(1, q / 2);
      NothingAnd(q / 2);
    } else {
      var p := Power2(k - 1);
      LowBitMissed(k - 1, q);
      assert Power2(k) * q == 2 * (p * q);
      AndOdd(2 * p, p * q - 1);
      assert 2 * p / 2 == p && 2 * p % 2 == 0;
    }
  }

  /**
   The masks align every pointer exactly if the rounded alignment is a power of two:
   for any other alignment there is a pointer for which the result is not aligned.
   */
  lemma AlignsIffPowerOfTwo(a: nat)
    requires 0 < a && a % 4 == 0 && 2 * a <= ADDRESSES
    ensures IsPower2(a) <==> forall p: nat :: p % 4 == 0 && p + a < ADDRESSES ==> AlignPointer(p, a) % a == 0
  {
    hide BitAnd;
    if IsPower2(a) {
      forall p: nat | p % 4 == 0 && p + a < ADDRESSES
        ensures AlignPointer(p, a) % a == 0
      {
        AlignedBehind(p, a);
      }
    } else {
      var k, q := OddFactor(a);
      assert q == 1 ==> Power2(k) == a;
      var p := Power2(k);
      ProductGrows(3, q, p);
      LowPowers(k, q);
      LowBitMissed(k, q);
      RemainderIs(p + a, a, 1, p);
      assert AlignPointer(p, a) == p + a;
    }
  }

  lemma LowPowers(k: nat, q: nat)
    requires q % 2 == 1
    ensures k < 2 ==> Power2(k) * q % 4 != 0
    ensures k >= 2 ==> Power2(k) % 4 == 0
  {
    if k == 1 {
      assert Power2(1) == 2;
      RemainderIs(2 * q, 4, q / 2, 2);
    } else if k >= 2 {
      assert Power2(k) == 4 * Power2(k - 2);
    }
  }

  // ---- Sizes ----

  lemma RoundMask(x: nat)
    requires x + 3 < ADDRESSES
    ensures BitAnd(x + 3, BitNot(3)) == AlignUp(x) && AlignUp(x) % 4 == 0 && x <= AlignUp(x) <= x + 3
  {
    hide BitAnd, Power2;
    SmallPowers();
    ClearMask(x + 3, 2);
    WholeWords(x + 3);
  }

  lemma WholeWords(y: nat)
    ensures y - y % 4 == y / 4 * 4 && y / 4 * 4 % 4 == 0
  {
  }

  /** A power of two rounded up to whole words is a power of two. */
  lemma RoundedPower(align: nat)
    requires IsPower2(align)
    ensures IsPower2(AlignUp(align)) && 4 <= AlignUp(align) && AlignUp(align) % 4 == 0
  {
    var k: nat :| Power2(k) == align;
    SmallPowers();
    if k >= 2 {
      RoundedMultiple(Power2(k - 2));
      assert Power2(k) == 4 * Power2(k - 2);
    } else {
      assert k == 0 || k == 1;
    }
  }

  lemma SmallPowers()
    ensures Power2(0) == 1 && Power2(1) == 2 && Power2(2) == 4
  {
  }

  lemma RoundedMultiple(p: nat)
    ensures AlignUp(4 * p) == 4 * p
  {
  }

  /** The size asked of rt_malloc, in 32-bit arithmetic. */
  function TotalSize(size: nat, align: nat): nat {
    (AlignUp(size) % ADDRESSES + AlignUp(align) % ADDRESSES) % ADDRESSES
  }

  /** The request covers the size and the word in front of it exactly if the sum does not wrap around. */
  lemma TotalCovers(size: nat, align: nat)
    requires size < ADDRESSES && 0 < align <= ADDRESSES / 2
    ensures TotalSize(size, align) >= size + 4 <==> AlignUp(size) + AlignUp(align) < ADDRESSES
  {
    if AlignUp(size) + AlignUp(align) < ADDRESSES {
      assert TotalSize(size, align) == AlignUp(size) + AlignUp(align);
    } else if AlignUp(size) == ADDRESSES {
      assert TotalSize(size, align) == AlignUp(align);
    } else {
      assert TotalSize(size, align) == AlignUp(size) + AlignUp(align) - ADDRESSES;
    }
  }

  // ---- The word in front of an aligned pointer ----

  /** The four bytes of a word in memory, lowest first. */
  function WordBytes(v: nat): (b: seq<byte>)
    requires v < ADDRESSES
    ensures |b| == 4
  {
    [v % 256, v / 256 % 256, v / 65536 % 256, v / 16777216]
  }

  function WordOf(b: seq<byte>): nat
    requires |b| == 4
  {
    var b0: nat, b1: nat, b2: nat, b3: nat := b[0], b[1], b[2], b[3];
    b0 + 256 * b1 + 65536 * b2 + 16777216 * b3
  }

  lemma WordReads(v: nat)
    requires v < ADDRESSES
    ensures WordOf(WordBytes(v)) == v
  {
    assert v == v % 256 + 256 * (v / 256) && v / 256 == v / 256 % 256 + 256 * (v / 256 / 256);
    assert v / 256 / 256 == v / 65536 && v / 65536 == v / 65536 % 256 + 256 * (v / 65536 / 256);
    assert v / 65536 / 256 == v / 16777216;
  }

  ghost predicate HoldsWord(m: Memory, off: nat, v: nat)
    requires v < ADDRESSES
  {
    forall a: nat :: off <= a < off + 4 ==> a in m && m[a] == WordBytes(v)[a - off]
  }

  function StoreWord(m: Memory, off: nat, v: nat): (m': Memory)
    requires v < ADDRESSES
    ensures HoldsWord(m', off, v)
    ensures forall a: nat :: !(off <= a < off + 4) ==> SameByte(m, m', a)
  {
    var b := WordBytes(v);
    m[off := b[0]][off + 1 := b[1]][off + 2 := b[2]][off + 3 := b[3]]
  }

  /** What memory and block list look like between two steps of a history. */
  datatype Snapshot = Snapshot(mem: Memory, heap: Heap)

  /**
   A step of a history during which block c stays allocated: a call on the heap, or writes of its
   users, which leave alone the bytes of c outside the area [lo, hi) that c's owner was given.
   */
  ghost predicate Harmless(a: Snapshot, b: Snapshot, c: Block, lo: nat, hi: nat) {
    && c in UsedBlocks(a.heap.blocks) && c in UsedBlocks(b.heap.blocks)
    && (KeepsAllocated(HEADER, a.mem, b.mem, a.heap.blocks, b.heap.blocks)
        || forall x: nat :: Holds(HEADER, c, x) && !(lo <= x < hi) ==> SameByte(a.mem, b.mem, x))
  }

  lemma HarmlessStep(a: Snapshot, b: Snapshot, c: Block, lo: nat, hi: nat, v: nat)
    requires v < ADDRESSES && Harmless(a, b, c, lo, hi) && c.addr + HEADER + 4 <= lo && lo <= End(HEADER, c)
    requires HoldsWord(a.mem, lo - 4, v)
    ensures HoldsWord(b.mem, lo - 4, v)
  {
    hide UsedBlocks, Allocated, WordBytes;
    forall x: nat | lo - 4 <= x < lo
      ensures x in a.mem ==> x in b.mem && b.mem[x] == a.mem[x]
    {
      AllocatedIff(HEADER, a.heap.blocks, x);
      AllocatedIff(HEADER, b.heap.blocks, x);
      assert Holds(HEADER, c, x);
      assert SameByte(a.mem, b.mem, x);
    }
  }

  /** Through any history of calls on the heap and writes of its users the word in front of the pointer stays. */
  lemma {:induction false} BackWordSurvives(history: seq<Snapshot>, c: Block, lo: nat, hi: nat, v: nat)
    requires v < ADDRESSES && history != [] && c.addr + HEADER + 4 <= lo && lo <= End(HEADER, c)
    requires forall i, j :: 0 <= i < j < |history| && j == i + 1 ==> Harmless(history[i], history[j], c, lo, hi)
    requires HoldsWord(history[0].mem, lo - 4, v)
    ensures HoldsWord(history[|history| - 1].mem, lo - 4, v)
    decreases |history|
  {
    hide HoldsWord, Harmless;
    var n := |history|;
    if n > 1 {
      BackWordSurvives(history[..n - 1], c, lo, hi, v);
      HarmlessStep(history[n - 2], history[n - 1], c, lo, hi, v);
    }
  }

  /** The word in front of r holds the pointer `raw` to the live block in which it lies, and so do the `size` bytes. */
  ghost predicate BackedIn(s: Snapshot, heapPtr: nat, r: nat, raw: nat, size: nat) {
    && raw > heapPtr && Live(s.heap, raw - heapPtr) && raw + 4 <= r && raw < ADDRESSES
    && r + size <= raw + BlockOf(s.heap, raw - heapPtr).size
    && HoldsWord(s.mem, r - 4 - heapPtr, raw)
  }

  /**
   Through any history of calls on the heap that leave the block allocated, and of writes by users to
   what they were given, a pointer stays backed: releasing it then releases exactly the block it came with.
   */
  lemma BackedSurvives(history: seq<Snapshot>, heapPtr: nat, r: nat, raw: nat, size: nat) returns (c: Block)
    requires history != [] && BackedIn(history[0], heapPtr, r, raw, size)
    requires var c := BlockOf(history[0].heap, raw - heapPtr);
      forall i, j :: 0 <= i < j < |history| && j == i + 1 ==>
        Harmless(history[i], history[j], c, r - heapPtr, r - heapPtr + size)
    requires WellFormed(history[0].heap) && WellFormed(history[|history| - 1].heap)
    requires history[0].heap.size == history[|history| - 1].heap.size
    ensures c == BlockOf(history[0].heap, raw - heapPtr)
    ensures var s := history[|history| - 1];
      && BackedIn(s, heapPtr, r, raw, size) && BlockOf(s.heap, raw - heapPtr) == c
      && UsedBlocks(SmallHeapModel.Free(s.heap, raw - heapPtr).blocks) == UsedBlocks(s.heap.blocks) - {c}
  {
    hide HoldsWord, WellFormed, UsedBlocks, SmallHeapModel.Free;
    var n, first := |history|, history[0].heap;
    var last := history[n - 1].heap;
    c := BlockOf(first, raw - heapPtr);
    LiveIsUsed(first, raw - heapPtr);
    BackWordSurvives(history, c, r - heapPtr, r - heapPtr + size, raw);
    assert c in UsedBlocks(last.blocks) by {
      if n > 1 {
        assert Harmless(history[n - 2], history[n - 1], c, r - heapPtr, r - heapPtr + size);
      }
    }
    LiveTransfer(first, last, raw - heapPtr);
    FreeWellFormed(last, raw - heapPtr);
  }

  // ---- The calls ----

  ghost predicate Backed(h: Allocator, r: nat, raw: nat, size: nat)
    reads h
  {
    BackedIn(Snapshot(h.mem, h.heap), h.heapPtr, r, raw, size)
  }

  /** rt_malloc_align; `raw` is the pointer rt_malloc returned. */
  method MallocAlign(h: Allocator, size: nat, align: nat) returns (r: nat, ghost raw: nat)
    requires h.Valid() && IsPower2(align) && size + 3 < ADDRESSES && align + 3 < ADDRESSES
    requires AlignUp(size) + AlignUp(align) < ADDRESSES
    requires h.heapPtr + h.memSizeAligned + 2 * HEADER <= ADDRESSES
    requires SearchEnds(h.memSizeAligned, AlignUp(size) + AlignUp(align))
    modifies h
    ensures h.Valid() && old(h.heap).size == h.heap.size
    ensures r == 0 ==> unchanged(h)
    ensures r == 0 <==> Alloc(old(h.heap), AlignUp(size) + AlignUp(align)).ptr == 0
    ensures h.heap == Alloc(old(h.heap), AlignUp(size) + AlignUp(align)).heap
    ensures r != 0 ==> r % AlignUp(align) == 0 && Backed(h, r, raw, size)
    ensures r != 0 ==> SmallHeapModel.Free(h.heap, h.Offset(raw)).blocks == old(h.heap).blocks
    ensures KeepsAllocated(HEADER, old(h.mem), h.mem, old(h.heap).blocks, h.heap.blocks)
  {
    hide WellFormed, BitAnd, Alloc, Rows, InUse, LowestFree, KeepsAllocated, UsedBlocks, HoldsWord, StoreWord, Tiled;
    hide AlignUp, IsPower2, SmallHeapModel.Free, Marks;
    RoundMask(align);
    RoundMask(size);
    RoundedPower(align);
    var a := BitAnd(align + 3, BitNot(3));
    var alignSize := BitAnd(size + 3, BitNot(3)) + a;
    ghost var before, m0 := h.heap, h.mem;
    var ptr := h.Malloc(alignSize);
    r, raw := 0, ptr;
    if ptr != 0 {
      ghost var b := NewBlockOf(before, h.heap, alignSize);
      r := Align(ptr, a);
      ghost var m1 := h.mem;
      h.mem := StoreWord(h.mem, r - 4 - h.heapPtr, ptr);
      StoredInside(b, r - 4 - h.heapPtr, ptr, m1);
      WriteInNew(HEADER, 0, h.memSizeAligned + 2 * HEADER, before.blocks, h.heap.blocks, b, m0, m1, h.mem);
    }
  }

  /** The masks of rt_malloc_align. */
  method Align(ptr: nat, a: nat) returns (r: nat)
    requires IsPower2(a) && 4 <= a && a % 4 == 0 && ptr % 4 == 0 && ptr + a < ADDRESSES
    ensures r % a == 0 && ptr + 4 <= r <= ptr + a
  {
    hide BitAnd;
    AlignedBehind(ptr, a);
    if BitAnd(ptr, a - 1) == 0 {
      r := ptr + a;
    } else {
      r := BitAnd(ptr + (a - 1), BitNot(a - 1));
    }
    assert r == AlignPointer(ptr, a);
  }

  /** What an allocation says of the block it hands out. */
  lemma NewBlockOf(h: Heap, o: Heap, size: nat) returns (b: Block)
    requires WellFormed(h) && Alloc(h, size).ptr != 0 && o == Alloc(h, size).heap
    ensures WellFormed(o) && Live(o, Alloc(h, size).ptr) && b == BlockOf(o, Alloc(h, size).ptr) && b.size >= size
    ensures b.addr + HEADER == Alloc(h, size).ptr && End(HEADER, b) <= o.size + HEADER && o.size == h.size
    ensures UsedBlocks(o.blocks) == UsedBlocks(h.blocks) + {b} && b !in UsedBlocks(h.blocks)
    ensures Tiled(HEADER, 0, h.size + 2 * HEADER, o.blocks)
    ensures SmallHeapModel.Free(o, Alloc(h, size).ptr).blocks == h.blocks
  {
    hide WellFormed, Alloc, UsedBlocks;
    AllocThenFree(h, size);
    b := AllocAdds(h, size);
    RequestAligned(size);
    LiveIsUsed(o, Alloc(h, size).ptr);
    TiledOf(o);
  }

  lemma StoredInside(b: Block, off: nat, v: nat, m: Memory)
    requires v < ADDRESSES && b.addr + HEADER <= off && off + 4 <= End(HEADER, b)
    ensures HoldsWord(StoreWord(m, off, v), off, v)
    ensures forall a: nat :: !Holds(HEADER, b, a) ==> SameByte(m, StoreWord(m, off, v), a)
  {
  }

  /** rt_free_align reads the word in front of the pointer and releases exactly the block it names. */
  method FreeAlign(h: Allocator, ptr: nat, ghost raw: nat, ghost size: nat)
    requires h.Valid() && Backed(h, ptr, raw, size)
    modifies h
    ensures h.Valid() && h.heap == SmallHeapModel.Free(old(h.heap), h.Offset(raw))
    ensures KeepsAllocated(HEADER, old(h.mem), h.mem, old(h.heap).blocks, h.heap.blocks)
  {
    hide WellFormed, Rows, InUse, LowestFree, KeepsAllocated, WordBytes, WordOf;
    var off := ptr - 4 - h.heapPtr;
    WordReads(raw);
    var b := [h.mem[off], h.mem[off + 1], h.mem[off + 2], h.mem[off + 3]];
    assert b == WordBytes(raw);
    var realPtr := WordOf(b);
    h.Free(realPtr);
  }
}
