/**
 The block sequence both heap allocators maintain: consecutive blocks, each a
 header of `h` bytes followed by `size` payload bytes, tiling an address range.
 */
module Tiling {

  /** One block: where its header starts, its payload size, and whether it is allocated. */
  datatype Block = Block(addr: nat, size: nat, used: bool)

  /** First address behind block `b`. */
  function End(h: nat, b: Block): nat {
    b.addr + h + b.size
  }

  /** Each block starts where its predecessor ends. */
  ghost predicate Abutting(h: nat, bs: seq<Block>) {
    forall i, j :: 0 <= i < j < |bs| && j == i + 1 ==> bs[j].addr == End(h, bs[i])
  }

  /** The blocks cover [lo, hi) exactly, in address order; the last one is allocated (the end marker). */
  ghost predicate Tiled(h: nat, lo: nat, hi: nat, bs: seq<Block>) {
    && |bs| > 0
    && bs[0].addr == lo
    && End(h, bs[|bs| - 1]) == hi
    && bs[|bs| - 1].used
    && Abutting(h, bs)
  }

  /** Of two neighbouring blocks at least one is allocated. */
  ghost predicate NoAdjacentFree(bs: seq<Block>) {
    forall i, j :: 0 <= i < j < |bs| && j == i + 1 ==> bs[i].used || bs[j].used
  }

  ghost predicate Canonical(h: nat, lo: nat, hi: nat, bs: seq<Block>) {
    Tiled(h, lo, hi, bs) && NoAdjacentFree(bs)
  }

  /** Sum of the free payload sizes. */
  ghost function FreeBytes(bs: seq<Block>): nat {
    if bs == [] then 0 else FreeBytes(bs[1..]) + if bs[0].used then 0 else bs[0].size
  }

  /** Sum of header plus payload over the allocated blocks. */
  ghost function UsedBytes(h: nat, bs: seq<Block>): nat {
    if bs == [] then 0 else UsedBytes(h, bs[1..]) + if bs[0].used then h + bs[0].size else 0
  }

  ghost function UsedBlocks(bs: seq<Block>): set<Block> {
    set b | b in bs && b.used
  }

  function Addrs(bs: seq<Block>): (r: seq<nat>)
    ensures |r| == |bs|
    ensures forall i :: 0 <= i < |bs| ==> r[i] == bs[i].addr
  {
    seq(|bs|, i requires 0 <= i < |bs| => bs[i].addr)
  }

  /** Blocks are in strictly increasing address order and do not overlap. */
  lemma {:induction false} Ordered(h: nat, lo: nat, hi: nat, bs: seq<Block>, i: nat, j: nat)
    requires Tiled(h, lo, hi, bs)
    requires i < j < |bs|
    ensures End(h, bs[i]) <= bs[j].addr
    decreases j
  {
    assert bs[j].addr == End(h, bs[j - 1]);
    if i < j - 1 {
      Ordered(h, lo, hi, bs, i, j - 1);
    }
  }

  lemma WithinPool(h: nat, lo: nat, hi: nat, bs: seq<Block>, i: nat)
    requires Tiled(h, lo, hi, bs)
    requires i < |bs|
    ensures lo <= bs[i].addr && End(h, bs[i]) <= hi
  {
    if i > 0 {
      Ordered(h, lo, hi, bs, 0, i);
    }
    if i < |bs| - 1 {
      Ordered(h, lo, hi, bs, i, |bs| - 1);
    }
  }

  /** With a nonempty header, an address names at most one block. */
  lemma SameAddrSameIndex(h: nat, lo: nat, hi: nat, bs: seq<Block>, i: nat, j: nat)
    requires h > 0
    requires Tiled(h, lo, hi, bs)
    requires i < |bs| && j < |bs| && bs[i].addr == bs[j].addr
    ensures i == j
  {
    if i < j {
      Ordered(h, lo, hi, bs, i, j);
    } else if j < i {
      Ordered(h, lo, hi, bs, j, i);
    }
  }

  lemma {:induction false} SumsConcat(h: nat, a: seq<Block>, b: seq<Block>)
    ensures FreeBytes(a + b) == FreeBytes(a) + FreeBytes(b)
    ensures UsedBytes(h, a + b) == UsedBytes(h, a) + UsedBytes(h, b)
  {
    if a == [] {
      assert a + b == b;
    } else {
      assert (a + b)[1..] == a[1..] + b;
      SumsConcat(h, a[1..], b);
    }
  }

  lemma SumsOfOne(h: nat, b: Block)
    ensures FreeBytes([b]) == if b.used then 0 else b.size
    ensures UsedBytes(h, [b]) == if b.used then h + b.size else 0
  {
    assert [b][1..] == [];
  }

  lemma SumsOfTwo(h: nat, b: Block, c: Block)
    ensures FreeBytes([b, c]) == FreeBytes([b]) + FreeBytes([c])
    ensures UsedBytes(h, [b, c]) == UsedBytes(h, [b]) + UsedBytes(h, [c])
  {
    assert [b, c] == [b] + [c];
    SumsConcat(h, [b], [c]);
  }

  /** A free block is part of the free total. */
  lemma {:induction false} FreeBlockCounts(bs: seq<Block>, i: nat)
    requires i < |bs| && !bs[i].used
    ensures FreeBytes(bs) >= bs[i].size
  {
    if i > 0 {
      FreeBlockCounts(bs[1..], i - 1);
    }
  }

  /** Headers, free payloads and allocated blocks account for at most the whole range. */
  lemma {:induction false} Accounting(h: nat, lo: nat, hi: nat, bs: seq<Block>)
    requires Tiled(h, lo, hi, bs)
    ensures FreeBytes(bs) + UsedBytes(h, bs) <= hi - lo
    decreases |bs|
  {
    if |bs| > 1 {
      assert bs[1].addr == End(h, bs[0]);
      assert Abutting(h, bs[1..]) by {
        forall i, j | 0 <= i < j < |bs[1..]| && j == i + 1
          ensures bs[1..][j].addr == End(h, bs[1..][i])
        {
          assert bs[j + 1].addr == End(h, bs[i + 1]);
        }
      }
      Accounting(h, bs[1].addr, hi, bs[1..]);
    } else {
      assert bs[1..] == [];
    }
  }

  // ---- The edits the allocators make ----

  /** Exchange the `n` blocks from i on for `new'`. */
  function Replace(bs: seq<Block>, i: nat, n: nat, new': seq<Block>): (r: seq<Block>)
    requires i + n <= |bs|
  {
    bs[..i] + new' + bs[i + n..]
  }

  /** Block b cut in two: an allocated part of `size` bytes and what is left. */
  function Halves(h: nat, b: Block, size: nat, restUsed: bool): seq<Block>
    requires b.size >= size + h
  {
    [Block(b.addr, size, true), Block(b.addr + h + size, b.size - size - h, restUsed)]
  }

  /** Cut block i, allocated, to `size` bytes; what is left becomes a block of its own. */
  function Split(h: nat, bs: seq<Block>, i: nat, size: nat, restUsed: bool): seq<Block>
    requires i < |bs| && bs[i].size >= size + h
  {
    Replace(bs, i, 1, Halves(h, bs[i], size, restUsed))
  }

  /** Block i and its right neighbour become one free block. */
  function MergeAt(h: nat, bs: seq<Block>, i: nat): seq<Block>
    requires i + 1 < |bs|
  {
    Replace(bs, i, 2, [Block(bs[i].addr, bs[i].size + h + bs[i + 1].size, false)])
  }

  function SetUsed(bs: seq<Block>, i: nat, used: bool): seq<Block>
    requires i < |bs|
  {
    Replace(bs, i, 1, [bs[i].(used := used)])
  }

  function MergeRight(h: nat, bs: seq<Block>, i: nat): seq<Block>
    requires i < |bs|
  {
    if i + 1 < |bs| && !bs[i + 1].used then MergeAt(h, bs, i) else bs
  }

  function MergeLeft(h: nat, bs: seq<Block>, i: nat): seq<Block>
    requires i < |bs|
  {
    if i > 0 && !bs[i - 1].used then MergeAt(h, bs, i - 1) else bs
  }

  /** Free block i and merge it with the neighbours that are free. */
  function Release(h: nat, bs: seq<Block>, i: nat): seq<Block>
    requires i < |bs|
  {
    MergeLeft(h, MergeRight(h, SetUsed(bs, i, false), i), i)
  }

  /** A replacement that spans the same addresses keeps the tiling. */
  lemma ReplaceTiled(h: nat, lo: nat, hi: nat, bs: seq<Block>, i: nat, n: nat, new': seq<Block>)
    requires Tiled(h, lo, hi, bs)
    requires n > 0 && i + n <= |bs| && |new'| > 0
    requires new'[0].addr == bs[i].addr && End(h, new'[|new'| - 1]) == End(h, bs[i + n - 1])
    requires Abutting(h, new')
    requires i + n == |bs| ==> new'[|new'| - 1].used
    ensures Tiled(h, lo, hi, Replace(bs, i, n, new'))
  {
    var r := Replace(bs, i, n, new');
    var m := |new'|;
    forall k, l | 0 <= k < l < |r| && l == k + 1
      ensures r[l].addr == End(h, r[k])
    {
      if k < i {
        assert bs[l].addr == End(h, bs[k]);
      } else if l < i + m {
        assert new'[l - i].addr == End(h, new'[k - i]);
      } else {
        assert bs[l - m + n].addr == End(h, bs[k - m + n]);
      }
    }
  }

  /** A replacement exchanges exactly the blocks it names, in the sequence and in both sums. */
  lemma ReplaceEffect(h: nat, bs: seq<Block>, i: nat, n: nat, new': seq<Block>)
    requires i + n <= |bs|
    ensures var r := Replace(bs, i, n, new');
      && FreeBytes(r) + FreeBytes(bs[i..i + n]) == FreeBytes(bs) + FreeBytes(new')
      && UsedBytes(h, r) + UsedBytes(h, bs[i..i + n]) == UsedBytes(h, bs) + UsedBytes(h, new')
  {
    var a, o, c := bs[..i], bs[i..i + n], bs[i + n..];
    assert bs == (a + o) + c;
    SumsConcat(h, a + new', c);
    SumsConcat(h, a, new');
    SumsConcat(h, a + o, c);
    SumsConcat(h, a, o);
  }

  /** The blocks of the result are those of `new'` and the ones outside the exchanged stretch. */
  lemma ReplaceMembers(bs: seq<Block>, i: nat, n: nat, new': seq<Block>)
    requires i + n <= |bs|
    ensures forall b :: b in Replace(bs, i, n, new') <==> b in bs[..i] || b in new' || b in bs[i + n..]
    ensures forall b :: b in bs <==> b in bs[..i] || b in bs[i..i + n] || b in bs[i + n..]
  {
    assert bs == bs[..i] + bs[i..i + n] + bs[i + n..];
  }

  /** In a tiling a block occurs once, so taking it out leaves no copy elsewhere. */
  lemma NotElsewhere(h: nat, lo: nat, hi: nat, bs: seq<Block>, i: nat)
    requires h > 0
    requires Tiled(h, lo, hi, bs)
    requires i < |bs|
    ensures bs[i] !in bs[..i] && bs[i] !in bs[i + 1..]
  {
    if bs[i] in bs[..i] {
      var j :| 0 <= j < i && bs[j] == bs[i];
      SameAddrSameIndex(h, lo, hi, bs, i, j);
    }
    if bs[i] in bs[i + 1..] {
      var j :| i + 1 <= j < |bs| && bs[j] == bs[i];
      SameAddrSameIndex(h, lo, hi, bs, i, j);
    }
  }

  /** Exchanging one block for others, in the set of allocated blocks. */
  lemma ReplaceUsedBlocks(h: nat, lo: nat, hi: nat, bs: seq<Block>, i: nat, new': seq<Block>)
    requires h > 0
    requires Tiled(h, lo, hi, bs) && i < |bs|
    ensures UsedBlocks(Replace(bs, i, 1, new')) == (UsedBlocks(bs) - {bs[i]}) + UsedBlocks(new')
  {
    ReplaceMembers(bs, i, 1, new');
    NotElsewhere(h, lo, hi, bs, i);
    assert bs[i..i + 1] == [bs[i]];
  }

  lemma ReplaceNoAdjacentFree(bs: seq<Block>, i: nat, n: nat, new': seq<Block>)
    requires NoAdjacentFree(bs) && NoAdjacentFree(new')
    requires n > 0 && i + n < |bs| && |new'| > 0
    requires i > 0 && !new'[0].used ==> bs[i - 1].used
    requires !new'[|new'| - 1].used ==> bs[i + n].used
    ensures NoAdjacentFree(Replace(bs, i, n, new'))
  {
    var r := Replace(bs, i, n, new');
    var m := |new'|;
    forall k, l | 0 <= k < l < |r| && l == k + 1
      ensures r[k].used || r[l].used
    {
      if l < i {
        assert bs[k].used || bs[l].used;
      } else if i <= k && l < i + m {
        assert new'[k - i].used || new'[l - i].used;
      } else if k >= i + m {
        assert bs[k - m + n].used || bs[l - m + n].used;
      }
    }
  }

  /** Neighbours of a free block are allocated. */
  lemma FreeIsIsolated(bs: seq<Block>, i: nat)
    requires NoAdjacentFree(bs) && i < |bs| && !bs[i].used
    ensures i > 0 ==> bs[i - 1].used
    ensures i + 1 < |bs| ==> bs[i + 1].used
  {
  }

  /** An address strictly inside a block is not the address of any block. */
  lemma NoBlockInside(h: nat, lo: nat, hi: nat, bs: seq<Block>, i: nat, a: nat)
    requires Tiled(h, lo, hi, bs)
    requires i < |bs| && bs[i].addr < a < End(h, bs[i])
    ensures forall j :: 0 <= j < |bs| ==> bs[j].addr != a
  {
    forall j | 0 <= j < |bs|
      ensures bs[j].addr != a
    {
      if j < i {
        Ordered(h, lo, hi, bs, j, i);
      } else if i < j {
        Ordered(h, lo, hi, bs, i, j);
      }
    }
  }

  lemma SplitMeaning(h: nat, lo: nat, hi: nat, bs: seq<Block>, i: nat, size: nat, restUsed: bool)
    requires h > 0
    requires Tiled(h, lo, hi, bs)
    requires i < |bs| - 1 && bs[i].size >= size + h
    ensures Tiled(h, lo, hi, Split(h, bs, i, size, restUsed))
    ensures FreeBytes(Split(h, bs, i, size, restUsed)) + (if bs[i].used then 0 else bs[i].size)
      == FreeBytes(bs) + (if restUsed then 0 else bs[i].size - size - h)
    ensures UsedBytes(h, Split(h, bs, i, size, restUsed)) + (if bs[i].used then h + bs[i].size else 0)
      == UsedBytes(h, bs) + h + size + (if restUsed then bs[i].size - size else 0)
  {
    var b := bs[i];
    var x, y := Halves(h, b, size, restUsed)[0], Halves(h, b, size, restUsed)[1];
    ReplaceTiled(h, lo, hi, bs, i, 1, Halves(h, b, size, restUsed));
    ReplaceEffect(h, bs, i, 1, Halves(h, b, size, restUsed));
    assert bs[i..i + 1] == [b];
    SumsOfTwo(h, x, y);
    SumsOfOne(h, x);
    SumsOfOne(h, y);
    SumsOfOne(h, b);
  }

  lemma MergeUsed(bs: seq<Block>, i: nat, m: Block)
    requires i + 1 < |bs| && !bs[i].used && !bs[i + 1].used && !m.used
    ensures UsedBlocks(Replace(bs, i, 2, [m])) == UsedBlocks(bs)
  {
    ReplaceMembers(bs, i, 2, [m]);
    assert bs[i..i + 2] == [bs[i], bs[i + 1]];
  }

  lemma MergeMeaning(h: nat, lo: nat, hi: nat, bs: seq<Block>, i: nat)
    requires Tiled(h, lo, hi, bs)
    requires i + 2 < |bs| && !bs[i].used && !bs[i + 1].used
    ensures Tiled(h, lo, hi, MergeAt(h, bs, i))
    ensures UsedBlocks(MergeAt(h, bs, i)) == UsedBlocks(bs)
    ensures FreeBytes(MergeAt(h, bs, i)) == FreeBytes(bs) + h
    ensures UsedBytes(h, MergeAt(h, bs, i)) == UsedBytes(h, bs)
  {
    hide UsedBlocks, FreeBytes, UsedBytes;
    var x, y := bs[i], bs[i + 1];
    assert y.addr == End(h, x);
    var m := Block(x.addr, x.size + h + y.size, false);
    MergeUsed(bs, i, m);
    ReplaceTiled(h, lo, hi, bs, i, 2, [m]);
    ReplaceEffect(h, bs, i, 2, [m]);
    assert bs[i..i + 2] == [x, y];
    SumsOfTwo(h, x, y);
    SumsOfOne(h, x);
    SumsOfOne(h, y);
    SumsOfOne(h, m);
  }

  lemma SetUsedMeaning(h: nat, lo: nat, hi: nat, bs: seq<Block>, i: nat, used: bool)
    requires h > 0
    requires Tiled(h, lo, hi, bs)
    requires i < |bs| - 1 && bs[i].used != used
    ensures Tiled(h, lo, hi, SetUsed(bs, i, used))
    ensures used ==> UsedBlocks(SetUsed(bs, i, used)) == UsedBlocks(bs) + {bs[i].(used := true)}
    ensures !used ==> UsedBlocks(SetUsed(bs, i, used)) == UsedBlocks(bs) - {bs[i]}
    ensures used ==> FreeBytes(SetUsed(bs, i, used)) + bs[i].size == FreeBytes(bs)
    ensures !used ==> FreeBytes(SetUsed(bs, i, used)) == FreeBytes(bs) + bs[i].size
    ensures used ==> UsedBytes(h, SetUsed(bs, i, used)) == UsedBytes(h, bs) + h + bs[i].size
    ensures !used ==> UsedBytes(h, SetUsed(bs, i, used)) + h + bs[i].size == UsedBytes(h, bs)
  {
    var b := bs[i].(used := used);
    ReplaceTiled(h, lo, hi, bs, i, 1, [b]);
    ReplaceMembers(bs, i, 1, [b]);
    ReplaceEffect(h, bs, i, 1, [b]);
    NotElsewhere(h, lo, hi, bs, i);
    assert bs[i..i + 1] == [bs[i]];
    SumsOfOne(h, bs[i]);
    SumsOfOne(h, b);
  }

  /** After freeing block i and merging to the right, only the left seam can still hold two free neighbours. */
  lemma MergeRightSeams(h: nat, bs: seq<Block>, i: nat)
    requires i < |bs| - 1 && bs[|bs| - 1].used && NoAdjacentFree(bs)
    ensures var r := MergeRight(h, SetUsed(bs, i, false), i);
      && i < |r| - 1 && !r[i].used && r[i + 1].used && r[|r| - 1].used
      && (forall k, l :: 0 <= k < l < |r| && l == k + 1 && l != i ==> r[k].used || r[l].used)
      && r[..i] == bs[..i]
  {
    var f := SetUsed(bs, i, false);
    var r := MergeRight(h, f, i);
    assert bs[i + 1].used || (i + 2 < |bs| && bs[i + 2].used);
    forall k, l | 0 <= k < l < |r| && l == k + 1 && l != i
      ensures r[k].used || r[l].used
    {
      var d := |bs| - |r|;
      if l < i {
        assert bs[k].used || bs[l].used;
      } else if k > i {
        assert bs[k + d].used || bs[l + d].used;
      }
    }
  }

  lemma MergeLeftSeams(h: nat, bs: seq<Block>, i: nat)
    requires i < |bs| - 1 && bs[|bs| - 1].used && !bs[i].used
    requires forall k, l :: 0 <= k < l < |bs| && l == k + 1 && l != i ==> bs[k].used || bs[l].used
    ensures NoAdjacentFree(MergeLeft(h, bs, i))
  {
    var r := MergeLeft(h, bs, i);
    if i > 0 && !bs[i - 1].used {
      forall k, l | 0 <= k < l < |r| && l == k + 1
        ensures r[k].used || r[l].used
      {
        if l <= i - 1 {
          assert bs[l].used || bs[k].used;
        } else {
          assert bs[k + 1].used || bs[l + 1].used;
        }
      }
    }
  }

  lemma MergeRightMeaning(h: nat, lo: nat, hi: nat, bs: seq<Block>, i: nat)
    requires Tiled(h, lo, hi, bs)
    requires i < |bs| - 1 && !bs[i].used
    ensures Tiled(h, lo, hi, MergeRight(h, bs, i))
    ensures UsedBlocks(MergeRight(h, bs, i)) == UsedBlocks(bs)
    ensures FreeBytes(MergeRight(h, bs, i)) == FreeBytes(bs) + if bs[i + 1].used then 0 else h
    ensures UsedBytes(h, MergeRight(h, bs, i)) == UsedBytes(h, bs)
  {
    if !bs[i + 1].used {
      MergeMeaning(h, lo, hi, bs, i);
    }
  }

  lemma MergeLeftMeaning(h: nat, lo: nat, hi: nat, bs: seq<Block>, i: nat)
    requires Tiled(h, lo, hi, bs)
    requires i < |bs| - 1 && !bs[i].used
    ensures Tiled(h, lo, hi, MergeLeft(h, bs, i))
    ensures UsedBlocks(MergeLeft(h, bs, i)) == UsedBlocks(bs)
    ensures FreeBytes(MergeLeft(h, bs, i)) == FreeBytes(bs) + if i == 0 || bs[i - 1].used then 0 else h
    ensures UsedBytes(h, MergeLeft(h, bs, i)) == UsedBytes(h, bs)
  {
    if i > 0 && !bs[i - 1].used {
      MergeMeaning(h, lo, hi, bs, i - 1);
    }
  }

  /** The first half of a release: the block is free and merged to the right, its left neighbour is still as it was. */
  lemma ReleaseRightMeaning(h: nat, lo: nat, hi: nat, bs: seq<Block>, i: nat)
    requires h > 0
    requires Canonical(h, lo, hi, bs)
    requires i < |bs| - 1 && bs[i].used
    ensures var r := MergeRight(h, SetUsed(bs, i, false), i);
      && Tiled(h, lo, hi, r)
      && UsedBlocks(r) == UsedBlocks(bs) - {bs[i]}
      && FreeBytes(r) == FreeBytes(bs) + bs[i].size + (if bs[i + 1].used then 0 else h)
      && UsedBytes(h, r) + h + bs[i].size == UsedBytes(h, bs)
  {
    SetUsedMeaning(h, lo, hi, bs, i, false);
    MergeRightMeaning(h, lo, hi, SetUsed(bs, i, false), i);
  }

  /**
   Releasing an allocated block leaves a canonical tiling in which exactly that
   block is gone; every merge also turns one header into free payload.
   */
  lemma ReleaseMeaning(h: nat, lo: nat, hi: nat, bs: seq<Block>, i: nat)
    requires h > 0
    requires Canonical(h, lo, hi, bs)
    requires i < |bs| - 1 && bs[i].used
    ensures Canonical(h, lo, hi, Release(h, bs, i))
    ensures UsedBlocks(Release(h, bs, i)) == UsedBlocks(bs) - {bs[i]}
    ensures FreeBytes(Release(h, bs, i)) == FreeBytes(bs) + bs[i].size
      + (if i == 0 || bs[i - 1].used then 0 else h) + (if bs[i + 1].used then 0 else h)
    ensures UsedBytes(h, Release(h, bs, i)) + h + bs[i].size == UsedBytes(h, bs)
  {
    var right := MergeRight(h, SetUsed(bs, i, false), i);
    ReleaseRightMeaning(h, lo, hi, bs, i);
    MergeRightSeams(h, bs, i);
    FinishRelease(h, lo, hi, bs, i, right);
  }

  lemma FinishRelease(h: nat, lo: nat, hi: nat, bs: seq<Block>, i: nat, right: seq<Block>)
    requires Tiled(h, lo, hi, right)
    requires i < |bs| && i < |right| - 1 && !right[i].used && right[..i] == bs[..i]
    requires forall k, l :: 0 <= k < l < |right| && l == k + 1 && l != i ==> right[k].used || right[l].used
    ensures Canonical(h, lo, hi, MergeLeft(h, right, i))
    ensures UsedBlocks(MergeLeft(h, right, i)) == UsedBlocks(right)
    ensures FreeBytes(MergeLeft(h, right, i)) == FreeBytes(right) + if i == 0 || bs[i - 1].used then 0 else h
    ensures UsedBytes(h, MergeLeft(h, right, i)) == UsedBytes(h, right)
  {
    assert i > 0 ==> right[i - 1] == right[..i][i - 1] == bs[i - 1];
    MergeLeftMeaning(h, lo, hi, right, i);
    MergeLeftSeams(h, right, i);
  }

  // ---- A canonical tiling is determined by its allocated blocks ----

  /**
   Where both tilings have a block starting at the same address, allocated blocks agree and free ones
   have the same end.
   */
  lemma SameHead(h: nat, lo: nat, hi: nat, bs: seq<Block>, cs: seq<Block>, k: nat)
    requires h > 0
    requires Canonical(h, lo, hi, bs) && Canonical(h, lo, hi, cs)
    requires UsedBlocks(bs) == UsedBlocks(cs)
    requires k < |bs| && k < |cs| && bs[k].addr == cs[k].addr
    ensures bs[k].used ==> bs[k] == cs[k]
    ensures !bs[k].used && !cs[k].used ==> cs[k].size <= bs[k].size
  {
    if bs[k].used {
      assert bs[k] in UsedBlocks(bs);
      var j :| 0 <= j < |cs| && cs[j] == bs[k];
      SameAddrSameIndex(h, lo, hi, cs, j, k);
    } else if !cs[k].used && bs[k].size < cs[k].size {
      var nb := bs[k + 1];
      assert nb.addr == End(h, bs[k]) && nb in UsedBlocks(bs);
      var j :| 0 <= j < |cs| && cs[j] == nb;
      if j < k {
        Ordered(h, lo, hi, cs, j, k);
      } else if k < j {
        Ordered(h, lo, hi, cs, k, j);
      }
    }
  }

  lemma {:induction false} SamePrefix(h: nat, lo: nat, hi: nat, bs: seq<Block>, cs: seq<Block>, i: nat)
    requires h > 0
    requires Canonical(h, lo, hi, bs) && Canonical(h, lo, hi, cs)
    requires UsedBlocks(bs) == UsedBlocks(cs)
    requires i <= |bs| && i <= |cs|
    ensures forall k :: 0 <= k < i ==> bs[k] == cs[k]
  {
    if i > 0 {
      var k := i - 1;
      SamePrefix(h, lo, hi, bs, cs, k);
      if k > 0 {
        assert bs[k].addr == End(h, bs[k - 1]);
        assert cs[k].addr == End(h, cs[k - 1]);
      }
      SameHead(h, lo, hi, bs, cs, k);
      SameHead(h, lo, hi, cs, bs, k);
    }
  }

  /** A tiling that agrees with the first blocks of another up to its own end is the whole of it. */
  lemma SameLength(h: nat, lo: nat, hi: nat, bs: seq<Block>, cs: seq<Block>)
    requires h > 0
    requires Tiled(h, lo, hi, bs) && Tiled(h, lo, hi, cs)
    requires |bs| <= |cs| && forall k :: 0 <= k < |bs| ==> bs[k] == cs[k]
    ensures bs == cs
  {
    if |bs| < |cs| {
      Ordered(h, lo, hi, cs, |bs| - 1, |cs| - 1);
    }
  }

  /**
   A heap without two free neighbours is determined by its allocated blocks alone.
   Hence the order of allocations and releases that led to them does not matter.
   */
  lemma CanonicalForm(h: nat, lo: nat, hi: nat, bs: seq<Block>, cs: seq<Block>)
    requires h > 0
    requires Canonical(h, lo, hi, bs) && Canonical(h, lo, hi, cs)
    requires UsedBlocks(bs) == UsedBlocks(cs)
    ensures bs == cs
  {
    if |bs| <= |cs| {
      SamePrefix(h, lo, hi, bs, cs, |bs|);
      SameLength(h, lo, hi, bs, cs);
    } else {
      SamePrefix(h, lo, hi, cs, bs, |cs|);
      SameLength(h, lo, hi, cs, bs);
    }
  }
}
