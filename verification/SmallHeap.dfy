/**
 mem.c at the level of block headers: offsets to the next and previous header, a
 used flag, and a pointer to the lowest free block, rewritten as the C code does.
 */
module SmallHeap {
  import opened Tiling
  import opened Links
  import opened Bytes
  import opened SmallHeapModel
  import opened Arithmetic

  // ---- Headers and blocks ----

  /** The headers at s link to each other in order; the last one links to itself and its `prev` is not kept up. */
  ghost predicate Path(next: Table, prev: Table, s: seq<nat>) {
    && |s| > 1
    && (forall i :: 0 <= i < |s| ==> s[i] in next && s[i] in prev)
    && (forall i, j :: 0 <= i < j < |s| ==> s[i] != s[j])
    && (forall i, j :: 0 <= i < j < |s| && j == i + 1 ==> next[s[i]] == s[j])
    && (forall i, j :: 0 <= i < j < |s| - 1 && j == i + 1 ==> prev[s[j]] == s[i])
    && next[s[|s| - 1]] == s[|s| - 1]
    && prev[s[0]] == s[0]
  }

  /** `prev` undoes `next` everywhere but at the end. */
  lemma PathInverse(next: Table, prev: Table, s: seq<nat>, k: nat)
    requires Path(next, prev, s) && k < |s| - 1
    ensures s[k] in next && next[s[k]] == s[k + 1] && s[k + 1] in next && s[k + 1] in prev
    ensures s[k] in prev && prev[s[k]] == s[if k > 0 then k - 1 else 0]
    ensures s[k + 1] == s[|s| - 1] <==> k + 1 == |s| - 1
    ensures k > 0 ==> s[k - 1] != s[k]
    ensures k + 2 < |s| ==> next[s[k + 1]] == s[k + 2] && prev[next[s[k]]] == s[k]
  {
    assert k > 0 ==> prev[s[k]] == s[k - 1];
  }

  lemma InsertedAt(s: seq<nat>, k: nat, p: nat)
    requires k < |s| - 1 && p !in s
    ensures var r := s[..k + 1] + [p] + s[k + 1..];
      && |r| == |s| + 1 && r[k] == s[k] && r[k + 1] == p && r[k + 2] == s[k + 1]
      && (forall i :: 0 <= i <= k ==> r[i] == s[i]) && (forall i :: k + 1 < i < |r| ==> r[i] == s[i - 1])
  {
  }

  /** Linking p in behind s[k]; heap_end gets no back link. */
  lemma PathInsert(next: Table, prev: Table, s: seq<nat>, k: nat, p: nat, prev': Table)
    requires Path(next, prev, s) && k < |s| - 1 && p !in s
    requires prev' == if k + 1 < |s| - 1 then prev[p := s[k]][s[k + 1] := p] else prev[p := s[k]]
    ensures Path(next[p := s[k + 1]][s[k] := p], prev', s[..k + 1] + [p] + s[k + 1..])
  {
    InsertedAt(s, k, p);
    PathSpliced(next, prev, s, k, p, prev', s[..k + 1] + [p] + s[k + 1..]);
  }

  lemma PathSpliced(next: Table, prev: Table, s: seq<nat>, k: nat, p: nat, prev': Table, r: seq<nat>)
    requires Path(next, prev, s) && k < |s| - 1 && p !in s
    requires prev' == if k + 1 < |s| - 1 then prev[p := s[k]][s[k + 1] := p] else prev[p := s[k]]
    requires |r| == |s| + 1 && r[k] == s[k] && r[k + 1] == p && r[k + 2] == s[k + 1]
    requires forall i :: 0 <= i <= k ==> r[i] == s[i]
    requires forall i :: k + 1 < i < |r| ==> r[i] == s[i - 1]
    ensures Path(next[p := s[k + 1]][s[k] := p], prev', r)
  {
    var n := next[p := s[k + 1]][s[k] := p];
    forall i, j | 0 <= i < j < |r| && j == i + 1
      ensures n[r[i]] == r[j]
    {
      if j <= k {
        assert next[s[i]] == s[j];
      } else if i > k + 1 {
        assert next[s[i - 1]] == s[j - 1];
      }
    }
  }

  /** Unlinking the header behind s[k]. */
  lemma PathRemove(next: Table, prev: Table, s: seq<nat>, k: nat)
    requires Path(next, prev, s) && k + 2 < |s|
    ensures Path(next[s[k] := s[k + 2]], prev[s[k + 2] := s[k]], s[..k + 1] + s[k + 2..])
  {
    var r := s[..k + 1] + s[k + 2..];
    var n, p := next[s[k] := s[k + 2]], prev[s[k + 2] := s[k]];
    assert forall i :: 0 <= i <= k ==> r[i] == s[i];
    assert forall i :: k < i < |r| ==> r[i] == s[i + 1];
    forall i, j | 0 <= i < j < |r| && j == i + 1
      ensures n[r[i]] == r[j]
      ensures j < |r| - 1 ==> p[r[j]] == r[i]
    {
      if j <= k {
        assert next[s[i]] == s[j];
      } else if i > k {
        assert next[s[i + 1]] == s[j + 1];
      }
    }
  }

  lemma SplitPath(lo: nat, hi: nat, bs: seq<Block>, i: nat, size: nat)
    requires Tiled(HEADER, lo, hi, bs) && i < |bs| && bs[i].size >= size + HEADER
    ensures var s, p := Addrs(bs), bs[i].addr + HEADER + size;
      Addrs(Split(HEADER, bs, i, size, false)) == s[..i + 1] + [p] + s[i + 1..] && p !in s
  {
    var s, p := Addrs(bs), bs[i].addr + HEADER + size;
    var r := Split(HEADER, bs, i, size, false);
    NoBlockInside(HEADER, lo, hi, bs, i, p);
    assert forall k :: 0 <= k <= i ==> r[k].addr == bs[k].addr;
    assert r[i + 1].addr == p;
    assert forall k :: i + 1 < k < |r| ==> r[k] == bs[k - 1];
  }

  /** The words of all headers describe the blocks. */
  ghost predicate Rows(bs: seq<Block>, next: Table, prev: Table, used: map<nat, bool>) {
    Path(next, prev, Addrs(bs)) && Marks(used, bs)
  }

  /** The neighbours of block i as its header names them. */
  lemma Neighbours(lo: nat, hi: nat, bs: seq<Block>, next: Table, prev: Table, used: map<nat, bool>, i: nat)
    requires Tiled(HEADER, lo, hi, bs) && Rows(bs, next, prev, used) && i < |bs| - 1
    ensures bs[i].addr in next && next[bs[i].addr] == bs[i + 1].addr == End(HEADER, bs[i])
    ensures bs[i].addr in used && used[bs[i].addr] == bs[i].used
    ensures bs[i + 1].addr in used && used[bs[i + 1].addr] == bs[i + 1].used && bs[i + 1].addr in prev
    ensures bs[i + 1].addr in next
    ensures bs[i].addr in prev && prev[bs[i].addr] == bs[if i > 0 then i - 1 else 0].addr
    ensures i > 0 ==> bs[i - 1].addr in used && used[bs[i - 1].addr] == bs[i - 1].used
    ensures i > 0 ==> bs[i - 1].addr < bs[i].addr && bs[i - 1].addr in next
    ensures bs[i + 1].addr == bs[|bs| - 1].addr <==> i + 1 == |bs| - 1
    ensures bs[i].addr < bs[i + 1].addr
    ensures i + 2 < |bs| ==> next[bs[i + 1].addr] == bs[i + 2].addr && bs[i + 2].addr in prev
  {
    var s := Addrs(bs);
    PathInverse(next, prev, s, i);
    assert s[i] == bs[i].addr && s[i + 1] == bs[i + 1].addr && s[|s| - 1] == bs[|bs| - 1].addr;
    assert i > 0 ==> s[i - 1] == bs[i - 1].addr && bs[i].addr == End(HEADER, bs[i - 1]);
    assert i + 2 < |bs| ==> s[i + 2] == bs[i + 2].addr;
    assert bs[i + 1].addr == End(HEADER, bs[i]);
  }

  lemma MergeRows(bs: seq<Block>, next: Table, prev: Table, used: map<nat, bool>, j: nat)
    requires Rows(bs, next, prev, used) && j + 2 < |bs| && !bs[j].used
    ensures var a, c := bs[j].addr, bs[j + 2].addr;
      Rows(MergeAt(HEADER, bs, j), next[a := c], prev[c := a], used)
  {
    hide Path, Marks;
    PathRemove(next, prev, Addrs(bs), j);
    MergeTables(HEADER, used, bs, j);
  }

  /** The new header at p, its predecessor, and the back link of the block behind unless that is heap_end. */
  lemma SplitRows(lo: nat, hi: nat, bs: seq<Block>, next: Table, prev: Table, used: map<nat, bool>, i: nat, size: nat,
                  prev': Table)
    requires Tiled(HEADER, lo, hi, bs) && Rows(bs, next, prev, used) && i < |bs| - 1 && bs[i].size >= size + HEADER
    requires var a, p, n := bs[i].addr, bs[i].addr + HEADER + size, bs[i + 1].addr;
      prev' == if i + 1 < |bs| - 1 then prev[p := a][n := p] else prev[p := a]
    ensures var a, p, n := bs[i].addr, bs[i].addr + HEADER + size, bs[i + 1].addr;
      Rows(Split(HEADER, bs, i, size, false), next[p := n][a := p], prev', used[p := false][a := true])
  {
    hide Path, Marks, Split;
    SplitPath(lo, hi, bs, i, size);
    PathInsert(next, prev, Addrs(bs), i, bs[i].addr + HEADER + size, prev');
    SplitMarks(HEADER, lo, hi, used, bs, i, size, false);
  }

  lemma AddrsDiffer(lo: nat, hi: nat, bs: seq<Block>)
    requires Tiled(HEADER, lo, hi, bs)
    ensures forall i, j :: 0 <= i < j < |bs| ==> bs[i].addr < bs[j].addr
  {
    forall i, j | 0 <= i < j < |bs|
      ensures bs[i].addr < bs[j].addr
    {
      Ordered(HEADER, lo, hi, bs, i, j);
    }
  }

  // ---- The lowest free block ----

  ghost function LowestFree(bs: seq<Block>): nat
    requires |bs| > 0
  {
    bs[FirstFree(bs)].addr
  }

  lemma MergeLowest(bs: seq<Block>, j: nat)
    requires j + 2 < |bs| && !bs[j].used && !bs[j + 1].used
    ensures LowestFree(MergeAt(HEADER, bs, j)) == LowestFree(bs) && FirstFree(bs) <= j
  {
    var r, k := MergeAt(HEADER, bs, j), FirstFree(bs);
    assert k <= j;
    assert forall i :: 0 <= i < j ==> r[i] == bs[i];
    FirstFreeIs(r, k);
  }

  /** Freeing block i moves the lowest free block down to it, if it is lower. */
  lemma SetFreeLowest(lo: nat, hi: nat, bs: seq<Block>, i: nat)
    requires Tiled(HEADER, lo, hi, bs) && i < |bs| - 1
    ensures LowestFree(SetUsed(bs, i, false)) == if bs[i].addr < LowestFree(bs) then bs[i].addr else LowestFree(bs)
  {
    AddrsDiffer(lo, hi, bs);
    var r, k := SetUsed(bs, i, false), FirstFree(bs);
    assert forall j :: 0 <= j < |bs| && j != i ==> r[j] == bs[j];
    FirstFreeIs(r, if i < k then i else k);
  }

  /** Cutting an allocated block makes its end a candidate. */
  lemma CutLowest(lo: nat, hi: nat, bs: seq<Block>, i: nat, size: nat)
    requires Tiled(HEADER, lo, hi, bs) && i < |bs| - 1 && bs[i].used && bs[i].size >= size + HEADER
    ensures var p := bs[i].addr + HEADER + size;
      LowestFree(Split(HEADER, bs, i, size, false)) == if p < LowestFree(bs) then p else LowestFree(bs)
  {
    AddrsDiffer(lo, hi, bs);
    var r, k := Split(HEADER, bs, i, size, false), FirstFree(bs);
    assert forall j :: 0 <= j < i ==> r[j] == bs[j];
    assert r[i].used && !r[i + 1].used;
    assert bs[i + 1].addr == End(HEADER, bs[i]);
    if k < i {
      FirstFreeIs(r, k);
    } else {
      FirstFreeIs(r, i + 1);
    }
  }

  /** Allocating block k leaves the lowest free block alone unless it was that one; then the search goes on from k. */
  lemma TakenLowest(bs: seq<Block>, k: nat, req: nat)
    requires k < |bs| - 1 && !bs[k].used && bs[k].size >= req
    ensures var r := Taken(bs, k, req);
      && |r| > 1 && k < |r| - 1 && r[k].addr == bs[k].addr && r[k].used
      && FirstFree(bs) <= k
      && (FirstFree(bs) < k ==> LowestFree(r) == LowestFree(bs))
      && (FirstFree(bs) == k ==> forall j :: 0 <= j <= k ==> r[j].used)
  {
    var r, f := Taken(bs, k, req), FirstFree(bs);
    assert f <= k;
    assert forall i :: 0 <= i < k ==> r[i] == bs[i];
    if f < k {
      FirstFreeIs(r, f);
    }
  }

  // ---- The search ----

  lemma FirstFitIs(hsize: nat, bs: seq<Block>, req: nat, k: nat)
    requires k <= |bs| && (k < |bs| ==> Fits(hsize, bs[k], req))
    requires forall j :: 0 <= j < k ==> !Fits(hsize, bs[j], req)
    ensures FirstFit(hsize, bs, req) == k
  {
  }

  /** Once the offset has reached the limit no further block is acceptable. */
  lemma NoneBehind(lo: nat, hi: nat, hsize: nat, bs: seq<Block>, req: nat, k: nat)
    requires Tiled(HEADER, lo, hi, bs) && k < |bs| && bs[k].addr + req >= hsize
    requires forall j :: 0 <= j < k ==> !Fits(hsize, bs[j], req)
    ensures FirstFit(hsize, bs, req) == |bs|
  {
    AddrsDiffer(lo, hi, bs);
    FirstFitIs(hsize, bs, req, |bs|);
  }

  // ---- Bytes ----

  lemma AddrIn(bs: seq<Block>, i: nat)
    requires i < |bs|
    ensures bs[i].addr in AddrSet(bs)
  {
    assert Addrs(bs)[i] == bs[i].addr;
  }

  lemma SplitAddrs(bs: seq<Block>, i: nat, size: nat, restUsed: bool)
    requires i < |bs| && bs[i].size >= size + HEADER
    ensures AddrSet(bs) <= AddrSet(Split(HEADER, bs, i, size, restUsed))
    ensures bs[i].addr + HEADER + size in AddrSet(Split(HEADER, bs, i, size, restUsed))
  {
    var r := Split(HEADER, bs, i, size, restUsed);
    AddrIn(r, i + 1);
    forall x | x in AddrSet(bs)
      ensures x in AddrSet(r)
    {
      var k :| 0 <= k < |bs| && Addrs(bs)[k] == x;
      AddrIn(r, if k <= i then k else k + 1);
      assert r[if k <= i then k else k + 1].addr == x;
    }
  }

  lemma SetUsedAddrs(bs: seq<Block>, i: nat, u: bool)
    requires i < |bs|
    ensures AddrSet(SetUsed(bs, i, u)) == AddrSet(bs)
  {
    assert Addrs(SetUsed(bs, i, u)) == Addrs(bs);
  }

  lemma MergeAddrs(bs: seq<Block>, j: nat)
    requires j + 1 < |bs|
    ensures AddrSet(MergeAt(HEADER, bs, j)) <= AddrSet(bs)
  {
    var r := MergeAt(HEADER, bs, j);
    forall x | x in AddrSet(r)
      ensures x in AddrSet(bs)
    {
      var k :| 0 <= k < |r| && Addrs(r)[k] == x;
      AddrIn(bs, if k <= j then k else k + 1);
    }
  }

  /** The three headers that a cut writes. */
  lemma SplitHeaders(bs: seq<Block>, k: nat, size: nat)
    requires k < |bs| - 1 && bs[k].size >= size + HEADER
    ensures {bs[k].addr, bs[k].addr + HEADER + size, bs[k + 1].addr} <= AddrSet(Split(HEADER, bs, k, size, false))
  {
    SplitAddrs(bs, k, size, false);
    AddrIn(bs, k);
    AddrIn(bs, k + 1);
  }

  /** Writing headers of the old and the new blocks does not touch an allocated byte. */
  lemma WritesKeep(lo: nat, hi: nat, bs: seq<Block>, bs': seq<Block>, m: Memory, m': Memory, headers: set<nat>)
    requires Tiled(HEADER, lo, hi, bs) && Tiled(HEADER, lo, hi, bs')
    requires Kept(HEADER, m, m', headers) && headers <= AddrSet(bs) + AddrSet(bs')
    ensures KeepsAllocated(HEADER, m, m', bs, bs')
  {
    hide AddrSet;
    assert Kept(HEADER, m, m', AddrSet(bs) + AddrSet(bs') + {hi}) by {
      forall a: nat | !InHeader(HEADER, a, AddrSet(bs) + AddrSet(bs') + {hi})
        ensures SameByte(m, m', a)
      {
        assert forall p :: p in headers ==> p in AddrSet(bs) + AddrSet(bs') + {hi};
        assert !InHeader(HEADER, a, headers);
      }
    }
    HeaderWritesKeepAllocated(HEADER, lo, hi, m, m', bs, bs', hi);
  }

  lemma TiledOf(h: Heap)
    requires WellFormed(h)
    ensures Tiled(HEADER, 0, h.size + 2 * HEADER, h.blocks) && |h.blocks| > 1
    ensures h.blocks[|h.blocks| - 1].addr == h.size + HEADER && h.blocks[0].addr == 0
  {
    assert End(HEADER, h.blocks[|h.blocks| - 1]) == h.size + 2 * HEADER;
  }

  lemma AddrsOf(bs: seq<Block>)
    ensures |Addrs(bs)| == |bs| && forall i :: 0 <= i < |bs| ==> Addrs(bs)[i] == bs[i].addr
  {
  }

  lemma LastIsUsed(h: Heap)
    requires WellFormed(h)
    ensures |h.blocks| > 0 && h.blocks[|h.blocks| - 1].used
  {
  }

  lemma PathDomain(next: Table, prev: Table, s: seq<nat>, i: nat)
    requires Path(next, prev, s) && i < |s|
    ensures s[i] in next
  {
  }

  lemma SetUsedRows(lo: nat, hi: nat, bs: seq<Block>, next: Table, prev: Table, used: map<nat, bool>, i: nat, u: bool)
    requires Tiled(HEADER, lo, hi, bs) && Rows(bs, next, prev, used) && i < |bs|
    ensures Rows(SetUsed(bs, i, u), next, prev, used[bs[i].addr := u])
  {
    SetUsedMarks(HEADER, lo, hi, used, bs, i, u);
  }

  lemma InUsed(bs: seq<Block>, next: Table, prev: Table, used: map<nat, bool>, i: nat)
    requires Rows(bs, next, prev, used) && i < |bs|
    ensures bs[i].addr in used && used[bs[i].addr] == bs[i].used
  {
  }

  /** The header reached from p by following `next` n times. */
  function Follow(next: Table, p: nat, n: nat): nat {
    if n == 0 then p else var q := Follow(next, p, n - 1); if q in next then next[q] else q
  }

  /** From header k the links lead through the headers behind it to the last one, and no further. */
  lemma {:induction false} FollowPath(next: Table, prev: Table, s: seq<nat>, k: nat, n: nat)
    requires Path(next, prev, s) && k < |s|
    ensures Follow(next, s[k], n) == s[if k + n < |s| then k + n else |s| - 1]
  {
    if n > 0 {
      FollowPath(next, prev, s, k, n - 1);
      var i := if k + n - 1 < |s| then k + n - 1 else |s| - 1;
      assert s[i] in next;
      if i < |s| - 1 {
        PathInverse(next, prev, s, i);
      }
    }
  }

  /** Only heap_end has the highest address. */
  lemma LastAddr(lo: nat, hi: nat, bs: seq<Block>, i: nat)
    requires Tiled(HEADER, lo, hi, bs) && i < |bs|
    ensures bs[i].addr == bs[|bs| - 1].addr <==> i == |bs| - 1
    ensures bs[|bs| - 1].used
  {
    AddrsDiffer(lo, hi, bs);
  }

  lemma LowerAddr(lo: nat, hi: nat, bs: seq<Block>, k: nat)
    requires Tiled(HEADER, lo, hi, bs) && k < |bs| && FirstFree(bs) <= k
    ensures FirstFree(bs) < k ==> bs[FirstFree(bs)].addr < bs[k].addr
  {
    AddrsDiffer(lo, hi, bs);
  }

  lemma AlignedAt(h: Heap, i: nat)
    requires WellFormed(h) && i < |h.blocks|
    ensures h.blocks[i].addr % 4 == 0
  {
  }

  /** Where an allocation of block k leads, in the terms of the code. */
  lemma TakePlan(h: Heap, k: nat, size: nat) returns (bs': seq<Block>, more: nat)
    requires WellFormed(h) && k < |h.blocks| - 1 && !h.blocks[k].used && h.blocks[k].size >= size
    requires size % 4 == 0 && size > 0
    ensures bs' == Taken(h.blocks, k, size) && Tiled(HEADER, 0, h.size + 2 * HEADER, bs')
    ensures bs' ==
      if h.blocks[k].size >= size + HEADER + MIN_SIZE then Split(HEADER, h.blocks, k, size, false)
      else SetUsed(h.blocks, k, true)
    ensures more == HEADER + if h.blocks[k].size >= size + HEADER + MIN_SIZE then size else h.blocks[k].size
    ensures InUse(Take(h, k, size)) == InUse(h) + more
    ensures Take(h, k, size).peak == if h.peak < InUse(h) + more then InUse(h) + more else h.peak
    ensures WellFormed(Take(h, k, size)) && Take(h, k, size).blocks == bs' && Take(h, k, size).size == h.size
  {
    hide Split, SetUsed, UsedBytes;
    var b := TakenMeaning(h, k, size);
    LastCounts(Taken(h.blocks, k, size));
    bs' := Taken(h.blocks, k, size);
    more := HEADER + b.size;
  }

  /** lfree names the lowest free block, or block j + 1 where block j is the lowest and both are free. */
  ghost predicate HintAt(lfree: nat, bs: seq<Block>, j: nat)
    requires j + 1 < |bs|
  {
    lfree == LowestFree(bs) || (FirstFree(bs) == j && !bs[j + 1].used && lfree == bs[j + 1].addr)
  }

  /** What the hint means before the merge of blocks j and j + 1. */
  lemma HintMeaning(lo: nat, hi: nat, bs: seq<Block>, j: nat, lfree: nat)
    requires Tiled(HEADER, lo, hi, bs) && j + 1 < |bs| && HintAt(lfree, bs, j)
    ensures !bs[j].used && !bs[j + 1].used ==> LowestFree(bs) == if lfree == bs[j + 1].addr then bs[j].addr else lfree
    ensures bs[j].used || bs[j + 1].used ==> lfree == LowestFree(bs)
  {
    AddrsDiffer(lo, hi, bs);
  }

  lemma HintIsLowest(bs: seq<Block>, i: nat)
    requires i < |bs|
    ensures i > 0 ==> HintAt(LowestFree(bs), bs, i - 1)
    ensures i + 1 < |bs| ==> HintAt(LowestFree(bs), bs, i)
  {
  }

  /** What the right merge leaves for the left one. */
  lemma RightFacts(lo: nat, hi: nat, f: seq<Block>, i: nat)
    requires Tiled(HEADER, lo, hi, f) && i < |f| - 1 && !f[i].used
    ensures var g := MergeRight(HEADER, f, i);
      && Tiled(HEADER, lo, hi, g) && i < |g| - 1 && g[i].addr == f[i].addr && !g[i].used && AddrSet(g) <= AddrSet(f)
  {
    hide AddrSet;
    if !f[i + 1].used {
      MergeMeaning(HEADER, lo, hi, f, i);
      MergeAddrs(f, i);
    }
  }

  /** Where a release of block i leads. */
  lemma ReleasePlan(h: Heap, i: nat) returns (f: seq<Block>, h': Heap)
    requires WellFormed(h) && i < |h.blocks| - 1 && h.blocks[i].used
    ensures var hi := h.size + 2 * HEADER;
      && f == SetUsed(h.blocks, i, false) && Tiled(HEADER, 0, hi, f) && Tiled(HEADER, 0, hi, h.blocks)
      && i < |f| - 1 && f[i].addr == h.blocks[i].addr && !f[i].used && f[|f| - 1].addr == h.size + HEADER
      && LowestFree(f) == (if h.blocks[i].addr < LowestFree(h.blocks) then h.blocks[i].addr else LowestFree(h.blocks))
      && AddrSet(f) == AddrSet(h.blocks)
      && h' == WithBlocks(h, Release(HEADER, h.blocks, i))
      && h'.blocks == MergeLeft(HEADER, MergeRight(HEADER, f, i), i)
      && WellFormed(h') && Tiled(HEADER, 0, hi, h'.blocks)
      && InUse(h') == InUse(h) - HEADER - h.blocks[i].size
  {
    hide AddrSet, MergeRight, MergeLeft, UsedBytes, UsedBlocks, LowestFree;
    var hi := h.size + 2 * HEADER;
    TiledOf(h);
    f := SetUsed(h.blocks, i, false);
    h' := WithBlocks(h, Release(HEADER, h.blocks, i));
    SetUsedMeaning(HEADER, 0, hi, h.blocks, i, false);
    SetFreeLowest(0, hi, h.blocks, i);
    SetUsedAddrs(h.blocks, i, false);
    ReleaseWellFormed(h, h.blocks, i);
    TiledOf(h');
  }

  lemma CutThenFree(bs: seq<Block>, i: nat, size: nat)
    requires i < |bs| && bs[i].size >= size + HEADER
    ensures i + 1 < |Split(HEADER, bs, i, size, true)|
    ensures SetUsed(Split(HEADER, bs, i, size, true), i + 1, false) == Split(HEADER, bs, i, size, false)
  {
  }

  /** The headers of the cut list are old ones, or the new one, which the merge keeps. */
  lemma CutHeaders(bs: seq<Block>, i: nat, size: nat)
    requires i < |bs| - 1 && bs[i].size >= size + HEADER
    ensures var f := Split(HEADER, bs, i, size, false);
      AddrSet(f) <= AddrSet(bs) + AddrSet(MergeLeft(HEADER, MergeRight(HEADER, f, i + 1), i + 1))
  {
    var f := Split(HEADER, bs, i, size, false);
    var r := MergeLeft(HEADER, MergeRight(HEADER, f, i + 1), i + 1);
    assert r[i + 1].addr == f[i + 1].addr;
    AddrIn(r, i + 1);
    forall x | x in AddrSet(f)
      ensures x in AddrSet(bs) + AddrSet(r)
    {
      var k :| 0 <= k < |f| && Addrs(f)[k] == x;
      if k <= i {
        AddrIn(bs, k);
      } else if k > i + 1 {
        AddrIn(bs, k - 1);
      }
    }
  }

  /** Where a shrink of block i leads: cut, then plug the hole behind it. */
  lemma ShrinkPlan(h: Heap, i: nat, size: nat) returns (f: seq<Block>, h': Heap)
    requires WellFormed(h) && i < |h.blocks| - 1 && h.blocks[i].used && Shrinks(h.blocks[i], size)
    requires size % 4 == 0 && size > 0
    ensures var hi, p := h.size + 2 * HEADER, h.blocks[i].addr + HEADER + size;
      && f == Split(HEADER, h.blocks, i, size, false) && Tiled(HEADER, 0, hi, f) && Tiled(HEADER, 0, hi, h.blocks)
      && i + 1 < |f| - 1 && f[i + 1].addr == p && !f[i + 1].used && f[|f| - 1].addr == h.size + HEADER
      && LowestFree(f) == (if p < LowestFree(h.blocks) then p else LowestFree(h.blocks))
      && h' == Shrink(h, i, size) && h'.blocks == MergeLeft(HEADER, MergeRight(HEADER, f, i + 1), i + 1)
      && h'.size == h.size && h'.peak == h.peak
      && WellFormed(h') && Tiled(HEADER, 0, hi, h'.blocks)
      && InUse(h') == InUse(h) - (h.blocks[i].size - size)
      && AddrSet(f) <= AddrSet(h.blocks) + AddrSet(h'.blocks)
  {
    hide AddrSet, MergeRight, MergeLeft, UsedBytes, UsedBlocks, LowestFree;
    var hi := h.size + 2 * HEADER;
    TiledOf(h);
    CutHeaders(h.blocks, i, size);
    f := Split(HEADER, h.blocks, i, size, false);
    h' := Shrink(h, i, size);
    SplitMeaning(HEADER, 0, hi, h.blocks, i, size, false);
    CutLowest(0, hi, h.blocks, i, size);
    CutThenFree(h.blocks, i, size);
    var b := ShrinkWellFormed(h, i, size);
    TiledOf(h');
  }

  /** Allocating, copying and releasing is a move of the block. */
  lemma MoveBlocks(h: Heap, off: nat, size: nat) returns (c: Block, b: Block)
    requires WellFormed(h) && Live(h, off) && Alloc(h, size).ptr != 0
    ensures Live(Alloc(h, size).heap, off)
    ensures var o := Alloc(h, size);
      && Moves(HEADER, 0, h.size + 2 * HEADER, h.blocks, o.heap.blocks, SmallHeapModel.Free(o.heap, off).blocks, c, b)
      && b in UsedBlocks(o.heap.blocks) && c in UsedBlocks(o.heap.blocks) && b != c
      && Tiled(HEADER, 0, h.size + 2 * HEADER, o.heap.blocks)
      && b.addr + HEADER == o.ptr && b.size >= size && c.addr + HEADER == off && c == BlockOf(h, off)
  {
    hide Alloc, UsedBlocks, WellFormed, InUse, Release;
    var o := Alloc(h, size);
    AllocKeepsLive(h, size, off);
    b := AllocAdds(h, size);
    c := BlockOf(h, off);
    LiveIsUsed(h, off);
    FreeWellFormed(o.heap, off);
    TiledOf(o.heap);
    RequestAligned(size);
  }

  lemma CopiedSelf(m: Memory, off: nat, n: nat)
    ensures Copied(m, off, m, off, n)
  {
  }

  lemma ShrinkCopied(h: Heap, i: nat, size: nat, b: Block, m: Memory, m': Memory)
    requires i < |h.blocks| && h.blocks[i].used && Shrinks(h.blocks[i], size)
    requires b == Block(h.blocks[i].addr, size, true) && b in UsedBlocks(Shrink(h, i, size).blocks)
    requires KeepsAllocated(HEADER, m, m', h.blocks, Shrink(h, i, size).blocks)
    ensures Copied(m, h.blocks[i].addr + HEADER, m', h.blocks[i].addr + HEADER, size)
  {
    hide Shrink, KeepsAllocated;
    InPlaceKeeps(HEADER, h.blocks, Shrink(h, i, size).blocks, h.blocks[i], b, size, m, m');
  }

  class Allocator {
    const heapPtr: nat
    const memSizeAligned: nat
    var next: Table
    var prev: Table
    var used: map<nat, bool>
    var lfree: nat
    var usedMem: int
    var maxMem: int
    /** The bytes of the heap, by offset. */
    var mem: Memory
    ghost var heap: Heap

    function HeapEnd(): nat
    {
      memSizeAligned + HEADER
    }

    /** Where in the heap a pointer points; 0 for RT_NULL. */
    function Offset(p: nat): nat
    {
      if p < heapPtr then 0 else p - heapPtr
    }

    ghost predicate Shows(h: Heap)
      reads this
    {
      && h.size == memSizeAligned
      && Rows(h.blocks, next, prev, used)
      && lfree == LowestFree(h.blocks)
    }

    ghost predicate Valid()
      reads this
    {
      && heapPtr % 4 == 0 && memSizeAligned % 4 == 0
      && WellFormed(heap) && Shows(heap)
      && usedMem == InUse(heap) && maxMem == heap.peak
    }

    /** The part of rt_system_heap_init behind the test of the area. */
    constructor (begin: nat, end: nat)
      requires Enough(begin, end)
      ensures Valid() && heap == SmallHeapModel.Init(begin, end) && heapPtr == BeginAlign(begin)
    {
      heapPtr := AlignUp(begin);
      memSizeAligned := EndAlign(end) - AlignUp(begin) - 2 * HEADER;
      var last := EndAlign(end) - AlignUp(begin) - 2 * HEADER + HEADER;
      next := map[0 := last, last := last];
      prev := map[0 := 0, last := last];
      used := map[0 := false, last := true];
      lfree, usedMem, maxMem, mem := 0, 0, 0, map[];
      heap := SmallHeapModel.Init(begin, end);
      InitWellFormed(begin, end);
    }

    /** The search of rt_malloc follows the links from lfree: after n steps it is at this header. */
    lemma SearchWalk(n: nat)
      requires Valid()
      ensures Follow(next, lfree, n) == heap.blocks[SearchedAfter(heap, n)].addr
    {
      hide Path, Follow, WellFormed, Marks, Addrs;
      AddrsOf(heap.blocks);
      TiledOf(heap);
      FollowPath(next, prev, Addrs(heap.blocks), FirstFree(heap.blocks), n);
    }

    /** In a heap smaller than MIN_SIZE no header on the way ends the search, by the words it reads there. */
    lemma SearchGoesOn(size: nat, n: nat)
      requires Valid() && !SearchEnds(memSizeAligned, size)
      ensures var p := Follow(next, lfree, n);
        && p < (memSizeAligned - Request(size)) % ADDRESSES
        && p in used && p in next && !(!used[p] && next[p] - (p + HEADER) >= Request(size))
    {
      hide Path, Follow, WellFormed, FirstFree;
      SearchWalk(n);
      SearchNeverEnds(heap, size, n);
      var i, last := SearchedAfter(heap, n), |heap.blocks| - 1;
      TiledOf(heap);
      LastIsUsed(heap);
      InUsed(heap.blocks, next, prev, used, i);
      if i < last {
        Neighbours(0, memSizeAligned + 2 * HEADER, heap.blocks, next, prev, used, i);
      } else {
        PathDomain(next, prev, Addrs(heap.blocks), i);
      }
    }

    /** Record a new block list; the counters are up to date. */
    ghost method Commit(h': Heap)
      requires heapPtr % 4 == 0 && memSizeAligned % 4 == 0 && WellFormed(h') && Shows(h')
      requires usedMem == InUse(h') && maxMem == h'.peak
      modifies this`heap
      ensures Valid() && heap == h'
    {
      heap := h';
    }

    /** The search loop of rt_malloc. */
    method FindFit(size: nat) returns (found: bool, ptr: nat, ghost k: nat)
      requires Valid() && size <= memSizeAligned
      ensures k == FirstFit(memSizeAligned, heap.blocks, size)
      ensures found <==> FirstFit(memSizeAligned, heap.blocks, size) < |heap.blocks|
      ensures found ==> ptr == heap.blocks[FirstFit(memSizeAligned, heap.blocks, size)].addr && k < |heap.blocks| - 1
    {
      hide Rows, Canonical, Aligned, UsedBytes, FirstFit;
      ghost var bs, hi := heap.blocks, memSizeAligned + 2 * HEADER;
      TiledOf(heap);
      ptr, k := lfree, FirstFree(bs);
      while ptr < memSizeAligned - size
        invariant k < |bs| && ptr == bs[k].addr
        invariant forall j :: 0 <= j < k ==> !Fits(memSizeAligned, bs[j], size)
        decreases |bs| - k
      {
        Neighbours(0, hi, bs, next, prev, used, k);
        if !used[ptr] && next[ptr] - (ptr + HEADER) >= size {
          FirstFitIs(memSizeAligned, bs, size, k);
          return true, ptr, k;
        }
        ptr, k := next[ptr], k + 1;
      }
      NoneBehind(0, hi, memSizeAligned, bs, size, k);
      found, k := false, |bs|;
    }

    /** Write a header for the end of block k, cut to `size` bytes, and link it in. */
    method CutTables(ptr: nat, size: nat, ghost k: nat, ghost bs: seq<Block>, ghost hi: nat)
      requires Tiled(HEADER, 0, hi, bs) && Rows(bs, next, prev, used) && hi == memSizeAligned + 2 * HEADER
      requires k < |bs| - 1 && ptr == bs[k].addr && bs[k].size >= size + HEADER
      requires bs[|bs| - 1].addr == memSizeAligned + HEADER
      modifies this`next, this`prev, this`used, this`mem
      ensures var p, n := ptr + HEADER + size, bs[k + 1].addr;
        && next == old(next)[p := n][ptr := p]
        && prev == (if k + 1 < |bs| - 1 then old(prev)[p := ptr][n := p] else old(prev)[p := ptr])
        && used == old(used)[p := false]
      ensures Kept(HEADER, old(mem), mem, AddrSet(Split(HEADER, bs, k, size, false)))
    {
      hide Rows, Tiled, Split, Kept, AddrSet;
      Neighbours(0, hi, bs, next, prev, used, k);
      SplitHeaders(bs, k, size);
      ghost var all, m := AddrSet(Split(HEADER, bs, k, size, false)), mem;
      var ptr2 := ptr + HEADER + size;
      used := used[ptr2 := false];
      next := next[ptr2 := next[ptr]];
      prev := prev[ptr2 := ptr];
      next := next[ptr := ptr2];
      EraseKeeps(HEADER, m, {ptr, ptr2, bs[k + 1].addr}, all);
      if next[ptr2] != HeapEnd() {
        prev := prev[next[ptr2] := ptr2];
        mem := Erase(HEADER, mem, {ptr, ptr2, next[ptr2]});
      } else {
        EraseKeeps(HEADER, m, {ptr, ptr2}, all);
        mem := Erase(HEADER, mem, {ptr, ptr2});
      }
    }

    /** The headers when block k is allocated without a split. */
    method WholeTables(ptr: nat, ghost k: nat, ghost bs: seq<Block>, ghost hi: nat)
      requires Tiled(HEADER, 0, hi, bs) && Rows(bs, next, prev, used) && k < |bs| && ptr == bs[k].addr
      modifies this`used, this`mem
      ensures Rows(SetUsed(bs, k, true), next, prev, used)
      ensures Kept(HEADER, old(mem), mem, AddrSet(SetUsed(bs, k, true)))
    {
      hide Rows, Tiled, SetUsed, AddrSet;
      SetUsedRows(0, hi, bs, next, prev, used, k, true);
      used := used[ptr := true];
      AddrIn(bs, k);
      SetUsedAddrs(bs, k, true);
      EraseKeeps(HEADER, mem, {ptr}, AddrSet(bs));
      mem := Erase(HEADER, mem, {ptr});
    }

    /** The headers when block k is cut and its front allocated. */
    method SplitTables(ptr: nat, size: nat, ghost k: nat, ghost bs: seq<Block>, ghost hi: nat)
      requires Tiled(HEADER, 0, hi, bs) && Rows(bs, next, prev, used) && hi == memSizeAligned + 2 * HEADER
      requires k < |bs| - 1 && ptr == bs[k].addr && bs[k].size >= size + HEADER
      requires bs[|bs| - 1].addr == memSizeAligned + HEADER
      modifies this`next, this`prev, this`used, this`mem
      ensures Rows(Split(HEADER, bs, k, size, false), next, prev, used)
      ensures Kept(HEADER, old(mem), mem, AddrSet(Split(HEADER, bs, k, size, false)))
    {
      hide Rows, Tiled, Split, Kept, AddrSet;
      ghost var n, p, u := next, prev, used;
      CutTables(ptr, size, k, bs, hi);
      SplitRows(0, hi, bs, n, p, u, k, size, prev);
      used := used[ptr := true];
    }

    /** Allocate the block found, with or without a split. */
    method TakeBlock(ptr: nat, size: nat, ghost k: nat)
      requires Valid() && k < |heap.blocks| - 1 && ptr == heap.blocks[k].addr && !heap.blocks[k].used
      requires heap.blocks[k].size >= size && size % 4 == 0 && size > 0
      modifies this`next, this`prev, this`used, this`usedMem, this`maxMem, this`mem
      ensures Rows(Taken(heap.blocks, k, size), next, prev, used)
      ensures usedMem == InUse(Take(heap, k, size)) && maxMem == Take(heap, k, size).peak
      ensures KeepsAllocated(HEADER, old(mem), mem, heap.blocks, Taken(heap.blocks, k, size))
    {
      hide LowestFree, FirstFree, UsedBytes, Rows, Tiled, WellFormed, KeepsAllocated, Kept, AddrSet, Taken, Take;
      hide InUse, Split, SetUsed;
      ghost var bs, hi, m := heap.blocks, memSizeAligned + 2 * HEADER, mem;
      TiledOf(heap);
      ghost var bs', more := TakePlan(heap, k, size);
      Neighbours(0, hi, bs, next, prev, used, k);
      if next[ptr] - (ptr + HEADER) >= size + HEADER + MIN_SIZE {
        SplitTables(ptr, size, k, bs, hi);
        Count(size + HEADER);
      } else {
        WholeTables(ptr, k, bs, hi);
        Count(next[ptr] - ptr);
      }
      WritesKeep(0, hi, bs, bs', m, mem, AddrSet(bs'));
    }

    method Count(n: nat)
      modifies this`usedMem, this`maxMem
      ensures usedMem == old(usedMem) + n && maxMem == if old(maxMem) < usedMem then usedMem else old(maxMem)
    {
      usedMem := usedMem + n;
      if maxMem < usedMem {
        maxMem := usedMem;
      }
    }

    /** The lowest free block may be the one just allocated: look for the next one. */
    method NextFree(ptr: nat, ghost bs: seq<Block>, ghost k: nat, ghost r: seq<Block>, ghost hi: nat)
      requires Tiled(HEADER, 0, hi, r) && Rows(r, next, prev, used) && r[|r| - 1].addr == memSizeAligned + HEADER
      requires |bs| > 0 && FirstFree(bs) <= k < |bs| && lfree == LowestFree(bs)
      requires |r| > 1 && k < |r| - 1 && ptr == r[k].addr == bs[k].addr
      requires FirstFree(bs) < k ==> LowestFree(r) == LowestFree(bs)
      requires FirstFree(bs) < k ==> bs[FirstFree(bs)].addr < bs[k].addr
      requires FirstFree(bs) == k ==> forall j :: 0 <= j <= k ==> r[j].used
      modifies this`lfree
      ensures lfree == LowestFree(r)
    {
      hide Rows, Tiled, FirstFree;
      if ptr == lfree {
        ghost var j := k;
        InUsed(r, next, prev, used, j);
        while used[lfree] && lfree != HeapEnd()
          invariant k <= j < |r| && lfree == r[j].addr && lfree in used && used[lfree] == r[j].used
          invariant forall i :: 0 <= i < j ==> r[i].used
          decreases |r| - j
        {
          LastAddr(0, hi, r, j);
          Neighbours(0, hi, r, next, prev, used, j);
          lfree, j := next[lfree], j + 1;
        }
        LastAddr(0, hi, r, j);
        FirstFreeIs(r, j);
      }
    }

    /** rt_malloc; 0 is RT_NULL. */
    method Malloc(size: nat) returns (r: nat)
      requires Valid() && SearchEnds(memSizeAligned, size)
      modifies this
      ensures Valid()
      ensures Alloc(old(heap), size) == Outcome(heap, Offset(r))
      ensures if r == 0 then unchanged(this) else r > heapPtr && r % 4 == 0
      ensures KeepsAllocated(HEADER, old(mem), mem, old(heap).blocks, heap.blocks)
    {
      hide Rows, WellFormed, KeepsAllocated, LowestFree, Take, FirstFit, InUse;
      KeepsSelf(HEADER, mem, heap.blocks);
      if size == 0 {
        return 0;
      }
      var aligned := AlignUp(size);
      if aligned > memSizeAligned {
        return 0;
      }
      if aligned < MIN_SIZE {
        aligned := MIN_SIZE;
      }
      var found, ptr, k := FindFit(aligned);
      if !found {
        return 0;
      }
      r := AllocateAt(ptr, aligned, k);
    }

    /** What rt_malloc does once it has found a block. */
    method AllocateAt(ptr: nat, size: nat, ghost k: nat) returns (r: nat)
      requires Valid() && k < |heap.blocks| - 1 && ptr == heap.blocks[k].addr && !heap.blocks[k].used
      requires heap.blocks[k].size >= size && size % 4 == 0 && size > 0
      modifies this
      ensures Valid() && heap == Take(old(heap), k, size) && r == heapPtr + ptr + HEADER && r % 4 == 0
      ensures KeepsAllocated(HEADER, old(mem), mem, old(heap).blocks, heap.blocks)
    {
      hide Rows, WellFormed, Tiled, KeepsAllocated, LowestFree, Take, Taken, InUse, Split, SetUsed, FirstFree;
      ghost var h, hi := heap, memSizeAligned + 2 * HEADER;
      TiledOf(heap);
      ghost var bs', more := TakePlan(heap, k, size);
      TiledOf(Take(h, k, size));
      TakenLowest(h.blocks, k, size);
      LowerAddr(0, hi, h.blocks, k);
      TakeBlock(ptr, size, k);
      NextFree(ptr, h.blocks, k, bs', hi);
      Commit(Take(h, k, size));
      AlignedAt(h, k);
      r := heapPtr + ptr + HEADER;
    }

    /** The first half of plug_holes: block i takes in a free block behind it. */
    method PlugForward(m: nat, ghost f: seq<Block>, ghost i: nat, ghost hi: nat, ghost all: set<nat>)
      requires Tiled(HEADER, 0, hi, f) && Rows(f, next, prev, used) && i < |f| - 1 && m == f[i].addr && !f[i].used
      requires f[|f| - 1].addr == memSizeAligned + HEADER && HintAt(lfree, f, i) && AddrSet(f) <= all
      modifies this`next, this`prev, this`lfree, this`mem
      ensures Rows(MergeRight(HEADER, f, i), next, prev, used) && lfree == LowestFree(MergeRight(HEADER, f, i))
      ensures Kept(HEADER, old(mem), mem, all)
    {
      hide Rows, Tiled, Kept, AddrSet, MergeAt, LowestFree, HintAt;
      HintMeaning(0, hi, f, i, lfree);
      Neighbours(0, hi, f, next, prev, used, i);
      LastAddr(0, hi, f, i + 1);
      KeptNothing(HEADER, mem, all);
      var nmem := next[m];
      if m != nmem && !used[nmem] && nmem != HeapEnd() {
        MergeLowest(f, i);
        MergeRows(f, next, prev, used, i);
        AddrIn(f, i);
        AddrIn(f, i + 2);
        EraseKeeps(HEADER, mem, {m, f[i + 2].addr}, all);
        if lfree == nmem {
          lfree := m;
        }
        next := next[m := next[nmem]];
        prev := prev[next[nmem] := m];
        mem := Erase(HEADER, mem, {m, next[nmem]});
      }
    }

    /** The second half of plug_holes: a free block in front takes in block i. */
    method PlugBackward(m: nat, ghost g: seq<Block>, ghost i: nat, ghost hi: nat, ghost all: set<nat>)
      requires Tiled(HEADER, 0, hi, g) && Rows(g, next, prev, used) && i < |g| - 1 && m == g[i].addr && !g[i].used
      requires (i > 0 ==> HintAt(lfree, g, i - 1)) && (i == 0 ==> lfree == LowestFree(g)) && AddrSet(g) <= all
      modifies this`next, this`prev, this`lfree, this`mem
      ensures Rows(MergeLeft(HEADER, g, i), next, prev, used) && lfree == LowestFree(MergeLeft(HEADER, g, i))
      ensures Kept(HEADER, old(mem), mem, all)
    {
      hide Rows, Tiled, Kept, AddrSet, MergeAt, LowestFree, HintAt;
      if i > 0 {
        HintMeaning(0, hi, g, i - 1, lfree);
      }
      Neighbours(0, hi, g, next, prev, used, i);
      KeptNothing(HEADER, mem, all);
      var pmem := prev[m];
      if pmem != m && !used[pmem] {
        MergeLowest(g, i - 1);
        MergeRows(g, next, prev, used, i - 1);
        AddrIn(g, i - 1);
        AddrIn(g, i + 1);
        EraseKeeps(HEADER, mem, {pmem, g[i + 1].addr}, all);
        if lfree == m {
          lfree := pmem;
        }
        next := next[pmem := next[m]];
        prev := prev[next[m] := pmem];
        mem := Erase(HEADER, mem, {pmem, next[m]});
      }
    }

    /** plug_holes on block i, already marked free. */
    method PlugHoles(m: nat, ghost f: seq<Block>, ghost i: nat, ghost hi: nat, ghost all: set<nat>)
      requires Tiled(HEADER, 0, hi, f) && Rows(f, next, prev, used) && i < |f| - 1 && m == f[i].addr && !f[i].used
      requires f[|f| - 1].addr == memSizeAligned + HEADER && HintAt(lfree, f, i) && AddrSet(f) <= all
      modifies this`next, this`prev, this`lfree, this`mem
      ensures var r := MergeLeft(HEADER, MergeRight(HEADER, f, i), i);
        Rows(r, next, prev, used) && lfree == LowestFree(r)
      ensures Kept(HEADER, old(mem), mem, all)
    {
      hide Rows, Tiled, Kept, AddrSet, LowestFree, HintAt, MergeRight, MergeLeft;
      RightFacts(0, hi, f, i);
      HintIsLowest(MergeRight(HEADER, f, i), i);
      PlugForward(m, f, i, hi, all);
      ghost var m1 := mem;
      PlugBackward(m, MergeRight(HEADER, f, i), i, hi, all);
      KeptTwice(HEADER, old(mem), m1, mem, all);
    }

    /** What rt_free does with a live block. */
    method ReleaseAt(m: nat, ghost i: nat)
      requires Valid() && i < |heap.blocks| - 1 && m == heap.blocks[i].addr && heap.blocks[i].used
      modifies this
      ensures Valid() && heap == WithBlocks(old(heap), Release(HEADER, old(heap).blocks, i))
      ensures KeepsAllocated(HEADER, old(mem), mem, old(heap).blocks, heap.blocks)
    {
      hide Rows, Tiled, Kept, AddrSet, LowestFree, MergeRight, MergeLeft, SetUsed, WellFormed, InUse, KeepsAllocated;
      ghost var h, hi, m0 := heap, memSizeAligned + 2 * HEADER, mem;
      ghost var f, h' := ReleasePlan(heap, i);
      Neighbours(0, hi, h.blocks, next, prev, used, i);
      SetUsedRows(0, hi, h.blocks, next, prev, used, i, false);
      used := used[m := false];
      if m < lfree {
        lfree := m;
      }
      usedMem := usedMem - (next[m] - m);
      HintIsLowest(f, i);
      PlugHoles(m, f, i, hi, AddrSet(h.blocks));
      WritesKeep(0, hi, h.blocks, h'.blocks, m0, mem, AddrSet(h.blocks));
      Commit(h');
    }

    /** rt_free on RT_NULL (0), a live pointer, or one outside the heap, which it ignores. */
    method Free(rmem: nat)
      requires Valid() && (rmem == 0 || Points(rmem) || Outside(rmem))
      modifies this
      ensures Valid()
      ensures !old(Points(rmem)) ==> unchanged(this)
      ensures old(Points(rmem)) ==> heap == SmallHeapModel.Free(old(heap), Offset(rmem))
      ensures KeepsAllocated(HEADER, old(mem), mem, old(heap).blocks, heap.blocks)
    {
      hide Rows, WellFormed, KeepsAllocated, LowestFree, Release, InUse;
      KeepsSelf(HEADER, mem, heap.blocks);
      if Points(rmem) {
        LiveIsUsed(heap, rmem - heapPtr);
      }
      if rmem == 0 {
        return;
      }
      if rmem < heapPtr || rmem >= heapPtr + HeapEnd() {
        return;
      }
      ghost var i := LiveIndex(heap, rmem - heapPtr);
      ReleaseAt(rmem - heapPtr - HEADER, i);
    }

    /** A pointer to a live payload. */
    ghost predicate Points(rmem: nat)
      reads this
    {
      rmem > heapPtr && Live(heap, rmem - heapPtr)
    }

    /** The shrinking branch of rt_realloc. */
    method ShrinkItem(ptr: nat, size: nat, oldSize: nat, ghost i: nat)
      requires Valid() && i < |heap.blocks| - 1 && heap.blocks[i].used && ptr == heap.blocks[i].addr
      requires oldSize == heap.blocks[i].size && Shrinks(heap.blocks[i], size) && size % 4 == 0 && size > 0
      modifies this
      ensures Valid() && heap == Shrink(old(heap), i, size)
      ensures KeepsAllocated(HEADER, old(mem), mem, old(heap).blocks, heap.blocks)
    {
      hide Rows, Tiled, Kept, AddrSet, LowestFree, MergeRight, MergeLeft, Split, WellFormed, InUse, KeepsAllocated;
      hide Shrink;
      ghost var h, hi, m0 := heap, memSizeAligned + 2 * HEADER, mem;
      ghost var f, h' := ShrinkPlan(heap, i, size);
      TiledOf(heap);
      usedMem := usedMem - (oldSize - size);
      InUsed(h.blocks, next, prev, used, i);
      SplitTables(ptr, size, i, h.blocks, hi);
      var ptr2 := ptr + HEADER + size;
      if ptr2 < lfree {
        lfree := ptr2;
      }
      ghost var m1 := mem;
      HintIsLowest(f, i + 1);
      PlugHoles(ptr2, f, i + 1, hi, AddrSet(f));
      KeptTwice(HEADER, m0, m1, mem, AddrSet(f));
      WritesKeep(0, hi, h.blocks, h'.blocks, m0, mem, AddrSet(f));
      Commit(h');
    }

    /** The branch of rt_realloc that needs another block. */
    method MoveItem(rmem: nat, oldSize: nat, size: nat) returns (r: nat)
      requires Valid() && Points(rmem) && oldSize == BlockOf(heap, rmem - heapPtr).size && size > 0
      requires SearchEnds(memSizeAligned, size)
      modifies this
      ensures Valid()
      ensures Alloc(old(heap), size).ptr == Offset(r)
      ensures if r == 0 then unchanged(this) else r > heapPtr
      ensures r == 0 ==> Alloc(old(heap), size).heap == heap
      ensures r != 0 ==> Live(Alloc(old(heap), size).heap, Offset(rmem))
      ensures r != 0 ==> heap == SmallHeapModel.Free(Alloc(old(heap), size).heap, Offset(rmem))
      ensures r != 0 ==> Copied(old(mem), Offset(rmem), mem, Offset(r), Min(oldSize, size))
      ensures KeepsAllocated(HEADER, old(mem), mem, old(heap).blocks, heap.blocks)
    {
      hide Rows, WellFormed, KeepsAllocated, LowestFree, InUse, Alloc, SmallHeapModel.Free, Live, Copied, SameByte;
      hide Moves, UsedBlocks;
      ghost var h, m0, off := heap, mem, rmem - heapPtr;
      AllocKeepsLive(h, size, off);
      KeepsSelf(HEADER, mem, heap.blocks);
      r := Malloc(size);
      if r != 0 {
        ghost var o, m1, hi := heap, mem, memSizeAligned + 2 * HEADER;
        var n := if oldSize < size then oldSize else size;
        ghost var c, b := MoveBlocks(h, off, size);
        MoveApart(HEADER, 0, hi, o.blocks, c, b, n);
        mem := CopyBytes(mem, r - heapPtr, rmem - heapPtr, n);
        ghost var m2 := mem;
        Free(rmem);
        MoveKeeps(HEADER, 0, hi, h.blocks, o.blocks, heap.blocks, c, b, n, m0, m1, m2, mem);
      }
    }

    /** The pointer is outside the heap. */
    predicate Outside(rmem: nat) {
      rmem < heapPtr || rmem >= heapPtr + HeapEnd()
    }

    /**
     rt_realloc on RT_NULL (0), a live pointer, or one outside the heap: the last it gives back
     unless the size exceeds the heap, and nothing changes.
     */
    method Realloc(rmem: nat, newsize: nat) returns (r: nat)
      requires Valid() && (rmem == 0 || Points(rmem) || Outside(rmem)) && SearchEnds(memSizeAligned, newsize)
      modifies this
      ensures Valid()
      ensures rmem == 0 || old(Points(rmem)) ==>
        SmallHeapModel.Realloc(old(heap), Offset(rmem), newsize) == Outcome(heap, Offset(r)) && (r != 0 ==> r > heapPtr)
      ensures newsize > 0 && r == 0 ==> unchanged(this)
      ensures old(Points(rmem)) && r != 0 ==>
        Copied(old(mem), Offset(rmem), mem, Offset(r), Min(BlockOf(old(heap), Offset(rmem)).size, AlignUp(newsize)))
      ensures rmem != 0 && !old(Points(rmem)) ==>
        unchanged(this) && r == if newsize > 0 && AlignUp(newsize) <= memSizeAligned then rmem else 0
      ensures KeepsAllocated(HEADER, old(mem), mem, old(heap).blocks, heap.blocks)
    {
      hide Rows, WellFormed, KeepsAllocated, LowestFree, InUse, Alloc, SmallHeapModel.Free, Copied, UsedBlocks, Shrink;
      KeepsSelf(HEADER, mem, heap.blocks);
      if Points(rmem) {
        LiveIsUsed(heap, rmem - heapPtr);
      }
      var size := AlignUp(newsize);
      if size > memSizeAligned {
        return 0;
      } else if size == 0 {
        Free(rmem);
        return 0;
      }
      if rmem == 0 {
        r := Malloc(size);
        return;
      }
      if rmem < heapPtr || rmem >= heapPtr + HeapEnd() {
        return rmem;
      }
      ghost var i := LiveIndex(heap, rmem - heapPtr);
      var ptr := rmem - heapPtr - HEADER;
      var oldSize := SizeOf(ptr, i);
      if oldSize == size {
        CopiedSelf(mem, rmem - heapPtr, size);
        return rmem;
      }
      if size + HEADER + MIN_SIZE < oldSize {
        ghost var m, h := mem, heap;
        ghost var b := ShrinkWellFormed(h, i, size);
        ShrinkItem(ptr, size, oldSize, i);
        ShrinkCopied(h, i, size, b, m, mem);
        return rmem;
      }
      r := MoveItem(rmem, oldSize, size);
    }

    /** The payload size as the header of block i tells it. */
    method SizeOf(ptr: nat, ghost i: nat) returns (size: nat)
      requires Valid() && i < |heap.blocks| - 1 && ptr == heap.blocks[i].addr
      ensures size == heap.blocks[i].size
    {
      hide Rows, Tiled, WellFormed;
      TiledOf(heap);
      Neighbours(0, memSizeAligned + 2 * HEADER, heap.blocks, next, prev, used, i);
      size := next[ptr] - ptr - HEADER;
    }
  }

  /** rt_system_heap_init: an area without room for two headers gives no heap. */
  method SystemHeapInit(begin: nat, end: nat) returns (h: Allocator?)
    ensures h == null <==> !Enough(begin, end)
    ensures h != null ==> fresh(h) && h.Valid() && h.heap == Init(begin, end) && h.heapPtr == BeginAlign(begin)
  {
    if EndAlign(end) > 2 * HEADER && EndAlign(end) - 2 * HEADER >= BeginAlign(begin) {
      h := new Allocator(begin, end);
    } else {
      h := null;
    }
  }
}
