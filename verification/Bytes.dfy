/**
 A pool that is cut into blocks with headers: the used flags of the headers, and
 which bytes writing headers can and cannot touch.
 */
module Bytes {
  import opened Tiling
  import opened Sequences
  import opened Arithmetic

  /** Contents of the addresses whose byte is known; writing a header makes the bytes below it unknown. */
  type Memory = map<nat, byte>

  ghost predicate InHeader(h: nat, a: nat, headers: set<nat>) {
    exists p :: p in headers && p <= a < p + h
  }

  /** Memory after the words of the given headers have been written. */
  function Erase(h: nat, mem: Memory, headers: set<nat>): Memory {
    map a | a in mem && !(exists p :: p in headers && p <= a < p + h) :: mem[a]
  }

  ghost predicate SameByte(m: Memory, m': Memory, a: nat) {
    (a in m <==> a in m') && (a in m ==> m[a] == m'[a])
  }

  /** Bytes outside the given headers are untouched. */
  ghost predicate Kept(h: nat, m: Memory, m': Memory, headers: set<nat>) {
    forall a :: !InHeader(h, a, headers) ==> SameByte(m, m', a)
  }

  lemma EraseKeeps(h: nat, m: Memory, written: set<nat>, headers: set<nat>)
    requires written <= headers
    ensures Kept(h, m, Erase(h, m, written), headers)
  {
    forall a: nat | !InHeader(h, a, headers)
      ensures SameByte(m, Erase(h, m, written), a)
    {
      assert forall p :: p in written ==> p in headers;
    }
  }

  /** Byte `a` belongs to the payload of an allocated block. */
  ghost predicate Allocated(h: nat, bs: seq<Block>, a: nat) {
    exists i :: 0 <= i < |bs| && bs[i].used && bs[i].addr + h <= a < End(h, bs[i])
  }

  ghost function AddrSet(bs: seq<Block>): set<nat> {
    Elements(Addrs(bs))
  }

  /** No header overlaps an allocated payload. */
  lemma PayloadOutsideHeaders(h: nat, lo: nat, hi: nat, bs: seq<Block>, a: nat)
    requires Tiled(h, lo, hi, bs) && Allocated(h, bs, a)
    ensures !InHeader(h, a, AddrSet(bs)) && lo <= a < hi
  {
    var i :| 0 <= i < |bs| && bs[i].used && bs[i].addr + h <= a < End(h, bs[i]);
    WithinPool(h, lo, hi, bs, i);
    if p :| p in AddrSet(bs) && p <= a < p + h {
      var j :| 0 <= j < |bs| && Addrs(bs)[j] == p;
      if i < j {
        Ordered(h, lo, hi, bs, i, j);
      } else if j < i {
        Ordered(h, lo, hi, bs, j, i);
      }
    }
  }

  /** The bytes a change of heap state must not touch: those allocated before and after. */
  ghost predicate KeepsAllocated(h: nat, m: Memory, m': Memory, bs: seq<Block>, bs': seq<Block>) {
    forall a :: Allocated(h, bs, a) && Allocated(h, bs', a) ==> SameByte(m, m', a)
  }

  lemma HeaderWritesKeepAllocated(h: nat, lo: nat, hi: nat, m: Memory, m': Memory, bs: seq<Block>, bs': seq<Block>,
                                  freeList: nat)
    requires Tiled(h, lo, hi, bs) && Tiled(h, lo, hi, bs')
    requires freeList + h <= lo || hi <= freeList
    requires Kept(h, m, m', AddrSet(bs) + AddrSet(bs') + {freeList})
    ensures KeepsAllocated(h, m, m', bs, bs')
  {
    forall a: nat | Allocated(h, bs, a) && Allocated(h, bs', a)
      ensures SameByte(m, m', a)
    {
      PayloadOutsideHeaders(h, lo, hi, bs, a);
      PayloadOutsideHeaders(h, lo, hi, bs', a);
      if p :| p in AddrSet(bs) + AddrSet(bs') + {freeList} && p <= a < p + h {
        if p in AddrSet(bs) {
          assert InHeader(h, a, AddrSet(bs));
        } else if p in AddrSet(bs') {
          assert InHeader(h, a, AddrSet(bs'));
        }
      }
    }
  }

  lemma KeptNothing(h: nat, m: Memory, headers: set<nat>)
    ensures Kept(h, m, m, headers)
  {
  }

  lemma KeptTwice(h: nat, m: Memory, m': Memory, m'': Memory, headers: set<nat>)
    requires Kept(h, m, m', headers) && Kept(h, m', m'', headers)
    ensures Kept(h, m, m'', headers)
  {
  }

  lemma KeepsSelf(h: nat, m: Memory, bs: seq<Block>)
    ensures KeepsAllocated(h, m, m, bs, bs)
  {
  }

  // ---- Copying ----

  /** The first n bytes at `dst` in m' are those at `src` in m. */
  ghost predicate Copied(m: Memory, src: nat, m': Memory, dst: nat, n: nat) {
    forall a: nat, b: nat :: dst <= b < dst + n && a == b - dst + src ==>
      (a in m <==> b in m') && (a in m ==> m[a] == m'[b])
  }

  /** rt_memcpy between areas that do not overlap. */
  method CopyBytes(mem: Memory, dst: nat, src: nat, n: nat) returns (mem': Memory)
    requires src + n <= dst || dst + n <= src
    ensures Copied(mem, src, mem', dst, n)
    ensures forall a: nat :: !(dst <= a < dst + n) ==> SameByte(mem, mem', a)
  {
    mem' := mem;
    var k := 0;
    while k < n
      invariant k <= n
      invariant Copied(mem, src, mem', dst, k)
      invariant forall a: nat :: !(dst <= a < dst + k) ==> SameByte(mem, mem', a)
    {
      ghost var before := mem';
      assert SameByte(mem, before, src + k);
      if src + k in mem' {
        mem' := mem'[dst + k := mem'[src + k]];
      } else {
        mem' := mem' - {dst + k};
      }
      k := k + 1;
      forall a: nat | !(dst <= a < dst + k)
        ensures SameByte(mem, mem', a)
      {
        assert SameByte(mem, before, a);
      }
    }
  }

  /** Byte `a` belongs to the payload of block b. */
  ghost predicate Holds(h: nat, b: Block, a: nat) {
    b.addr + h <= a < End(h, b)
  }

  lemma AllocatedIff(h: nat, bs: seq<Block>, a: nat)
    ensures Allocated(h, bs, a) <==> exists b :: b in UsedBlocks(bs) && Holds(h, b, a)
  {
    if i :| 0 <= i < |bs| && bs[i].used && bs[i].addr + h <= a < End(h, bs[i]) {
      assert bs[i] in UsedBlocks(bs) && Holds(h, bs[i], a);
    }
    if b :| b in UsedBlocks(bs) && Holds(h, b, a) {
      var i :| 0 <= i < |bs| && bs[i] == b;
    }
  }

  /** A byte belongs to one block only. */
  lemma PayloadsApart(h: nat, lo: nat, hi: nat, bs: seq<Block>, b: Block, c: Block, a: nat)
    requires Tiled(h, lo, hi, bs) && b in UsedBlocks(bs) && c in UsedBlocks(bs)
    requires Holds(h, b, a) && Holds(h, c, a)
    ensures b == c
  {
    var i :| 0 <= i < |bs| && bs[i] == b;
    var j :| 0 <= j < |bs| && bs[j] == c;
    if i < j {
      Ordered(h, lo, hi, bs, i, j);
    } else if j < i {
      Ordered(h, lo, hi, bs, j, i);
    }
  }

  /** From bs to bo block b is allocated, from bo to bs' block c is released: a move from c to b. */
  ghost predicate Moves(h: nat, lo: nat, hi: nat, bs: seq<Block>, bo: seq<Block>, bs': seq<Block>, c: Block, b: Block) {
    && Tiled(h, lo, hi, bo)
    && UsedBlocks(bo) == UsedBlocks(bs) + {b} && b !in UsedBlocks(bs)
    && c in UsedBlocks(bs) && UsedBlocks(bs') == UsedBlocks(bo) - {c}
  }

  lemma MoveApart(h: nat, lo: nat, hi: nat, bo: seq<Block>, c: Block, b: Block, n: nat)
    requires Tiled(h, lo, hi, bo) && b in UsedBlocks(bo) && c in UsedBlocks(bo) && b != c
    requires n <= c.size && n <= b.size
    ensures c.addr + h + n <= b.addr + h || b.addr + h + n <= c.addr + h
  {
    if n > 0 {
      var a := if c.addr <= b.addr then b.addr + h else c.addr + h;
      if Holds(h, b, a) && Holds(h, c, a) {
        PayloadsApart(h, lo, hi, bo, b, c, a);
      }
    }
  }

  /** Which bytes are allocated in the three states of a move. */
  lemma StillAllocated(h: nat, lo: nat, hi: nat, bs: seq<Block>, bo: seq<Block>, bs': seq<Block>, c: Block, b: Block,
                       a: nat)
    requires Moves(h, lo, hi, bs, bo, bs', c, b)
    ensures Allocated(h, bs, a) || Allocated(h, bs', a) ==> Allocated(h, bo, a)
    ensures Holds(h, c, a) ==> Allocated(h, bs, a) && Allocated(h, bo, a)
    ensures Holds(h, b, a) ==> Allocated(h, bs', a) && Allocated(h, bo, a) && !Allocated(h, bs, a)
  {
    hide UsedBlocks, Allocated, Tiled, Holds;
    AllocatedIff(h, bs, a);
    AllocatedIff(h, bo, a);
    AllocatedIff(h, bs', a);
    if Holds(h, b, a) && Allocated(h, bs, a) {
      var d :| d in UsedBlocks(bs) && Holds(h, d, a);
      PayloadsApart(h, lo, hi, bo, b, d, a);
    }
  }

  /**
   Every byte allocated before and after a move kept its value; the first bytes of the new block
   are those of the old one.
   */
  lemma MoveKeeps(h: nat, lo: nat, hi: nat, bs: seq<Block>, bo: seq<Block>, bs': seq<Block>, c: Block, b: Block, n: nat,
                  m0: Memory, m1: Memory, m2: Memory, m3: Memory)
    requires Moves(h, lo, hi, bs, bo, bs', c, b) && n <= c.size && n <= b.size
    requires KeepsAllocated(h, m0, m1, bs, bo) && KeepsAllocated(h, m2, m3, bo, bs')
    requires Copied(m1, c.addr + h, m2, b.addr + h, n)
    requires forall a: nat :: !(b.addr + h <= a < b.addr + h + n) ==> SameByte(m1, m2, a)
    ensures KeepsAllocated(h, m0, m3, bs, bs')
    ensures Copied(m0, c.addr + h, m3, b.addr + h, n)
  {
    hide Moves, Allocated;
    forall a: nat | Allocated(h, bs, a) && Allocated(h, bs', a)
      ensures SameByte(m0, m3, a)
    {
      StillAllocated(h, lo, hi, bs, bo, bs', c, b, a);
      assert SameByte(m0, m1, a) && SameByte(m1, m2, a) && SameByte(m2, m3, a);
    }
    forall a: nat, d: nat | b.addr + h <= d < b.addr + h + n && a == d - (b.addr + h) + (c.addr + h)
      ensures (a in m0 <==> d in m3) && (a in m0 ==> m0[a] == m3[d])
    {
      StillAllocated(h, lo, hi, bs, bo, bs', c, b, a);
      StillAllocated(h, lo, hi, bs, bo, bs', c, b, d);
      assert SameByte(m0, m1, a) && SameByte(m2, m3, d);
    }
  }

  /** Writing into a block that has just been allocated touches nothing that was allocated before. */
  lemma WriteInNew(h: nat, lo: nat, hi: nat, bs: seq<Block>, bo: seq<Block>, b: Block, m0: Memory, m1: Memory,
                   m2: Memory)
    requires Tiled(h, lo, hi, bo) && UsedBlocks(bo) == UsedBlocks(bs) + {b} && b !in UsedBlocks(bs)
    requires KeepsAllocated(h, m0, m1, bs, bo) && forall a: nat :: !Holds(h, b, a) ==> SameByte(m1, m2, a)
    ensures KeepsAllocated(h, m0, m2, bs, bo)
  {
    hide Allocated, Tiled, UsedBlocks, Holds;
    forall a: nat | Allocated(h, bs, a) && Allocated(h, bo, a)
      ensures SameByte(m0, m2, a)
    {
      AllocatedIff(h, bs, a);
      if Holds(h, b, a) {
        var d :| d in UsedBlocks(bs) && Holds(h, d, a);
        PayloadsApart(h, lo, hi, bo, b, d, a);
      }
      assert SameByte(m0, m1, a);
    }
  }

  /** A block that keeps its address keeps the bytes that are allocated before and after. */
  lemma InPlaceKeeps(h: nat, bs: seq<Block>, bs': seq<Block>, c: Block, b: Block, n: nat, m: Memory, m': Memory)
    requires c in UsedBlocks(bs) && b in UsedBlocks(bs') && c.addr == b.addr && n <= c.size && n <= b.size
    requires KeepsAllocated(h, m, m', bs, bs')
    ensures Copied(m, c.addr + h, m', b.addr + h, n)
  {
    hide Allocated, UsedBlocks;
    forall a: nat, d: nat | b.addr + h <= d < b.addr + h + n && a == d - (b.addr + h) + (c.addr + h)
      ensures (a in m <==> d in m') && (a in m ==> m[a] == m'[d])
    {
      AllocatedIff(h, bs, a);
      AllocatedIff(h, bs', a);
      assert Holds(h, c, a) && Holds(h, b, a);
      assert SameByte(m, m', a);
    }
  }

  // ---- Used flags ----

  /** The used bit of every header agrees with the block sequence. */
  ghost predicate Marks(used: map<nat, bool>, bs: seq<Block>) {
    forall i :: 0 <= i < |bs| ==> bs[i].addr in used && used[bs[i].addr] == bs[i].used
  }

  lemma MarkOf(used: map<nat, bool>, bs: seq<Block>, i: nat)
    requires Marks(used, bs) && i < |bs|
    ensures bs[i].addr in used && used[bs[i].addr] == bs[i].used
  {
  }

  lemma SplitMarks(h: nat, lo: nat, hi: nat, used: map<nat, bool>, bs: seq<Block>, i: nat, size: nat, restUsed: bool)
    requires h > 0
    requires Tiled(h, lo, hi, bs) && Marks(used, bs)
    requires i < |bs| && bs[i].size >= size + h
    ensures Marks(used[bs[i].addr + h + size := restUsed][bs[i].addr := true], Split(h, bs, i, size, restUsed))
  {
    var p := bs[i].addr + h + size;
    var r := Split(h, bs, i, size, restUsed);
    {
      forall j | 0 <= j < |bs| && j != i
        ensures bs[j].addr != bs[i].addr && bs[j].addr != p
      {
        if j < i {
          Ordered(h, lo, hi, bs, j, i);
        } else {
          Ordered(h, lo, hi, bs, i, j);
        }
      }
    }
    forall j | 0 <= j < |r|
      ensures r[j].addr in used[p := restUsed][bs[i].addr := true]
      ensures used[p := restUsed][bs[i].addr := true][r[j].addr] == r[j].used
    {
      if j < i {
        assert r[j] == bs[j];
      } else if j > i + 1 {
        assert r[j] == bs[j - 1];
      }
    }
  }

  lemma SetUsedMarks(h: nat, lo: nat, hi: nat, used: map<nat, bool>, bs: seq<Block>, i: nat, u: bool)
    requires h > 0
    requires Tiled(h, lo, hi, bs) && Marks(used, bs) && i < |bs|
    ensures Marks(used[bs[i].addr := u], SetUsed(bs, i, u)) && Addrs(SetUsed(bs, i, u)) == Addrs(bs)
  {
    var r := SetUsed(bs, i, u);
    forall j | 0 <= j < |bs| && j != i
      ensures bs[j].addr != bs[i].addr && r[j] == bs[j]
    {
      if bs[j].addr == bs[i].addr {
        SameAddrSameIndex(h, lo, hi, bs, i, j);
      }
    }
  }

  /** Merging drops the right header and keeps every mark. */
  lemma MergeTables(h: nat, used: map<nat, bool>, f: seq<Block>, i: nat)
    requires Marks(used, f) && i + 1 < |f| && !f[i].used
    ensures Marks(used, MergeAt(h, f, i))
    ensures Addrs(MergeAt(h, f, i)) == Addrs(f)[..i + 1] + Addrs(f)[i + 2..]
  {
    var r := MergeAt(h, f, i);
    assert forall j :: 0 <= j < |r| && j != i ==> r[j] == f[if j < i then j else j + 1];
  }
}
