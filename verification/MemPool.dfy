/**
 Memory pools (mempool.c): blocks of one size, the free ones chained through their
 own first words; the first word of an allocated block names its pool. A thread
 that finds no block waits, the one that came last first in line.
 */
module MemPool {
  import opened WaitQueue
  import opened Ipc
  import opened Chains
  import opened Sequences
  import opened Arithmetic

  /** sizeof(rt_uint8_t *), the word in front of every payload. */
  const WORD: nat := 4

  datatype State = State(blocks: set<nat>, free: seq<nat>, live: set<nat>, waiters: seq<Waiter>, resumed: Resumed)

  datatype Report = Allocated(tid: nat, payload: nat) | Denied(tid: nat, err: Err) | Quiet

  /** The steps: the first pass of rt_mp_alloc, a further one of a resumed thread, a release, a timeout or signal. */
  datatype Call =
    | Alloc(w: Waiter, time: int)
    | Retry(w: Waiter, time: int)
    | Free(payload: nat)
    | Abort(tid: nat, err: Err)

  predicate Enabled(s: State, c: Call) {
    match c
    case Alloc(w, _) => !WaitsFor(s.waiters, w.tid) && w.tid !in s.resumed
    case Retry(w, _) => w.tid in s.resumed
    case Free(payload) => payload >= WORD && payload - WORD in s.live
    case Abort(tid, err) => WaitsFor(s.waiters, tid) && err != Ok
  }

  function AllocPass(s: State, w: Waiter, time: int): (State, Report) {
    if s.free != [] then (s.(free := s.free[1..], live := s.live + {s.free[0]}), Allocated(w.tid, s.free[0] + WORD))
    else if time == 0 then (s, Denied(w.tid, Timeout))
    else (s.(waiters := [w] + s.waiters), Quiet)
  }

  function Step(s: State, c: Call): (State, Report)
    requires Enabled(s, c)
  {
    match c
    case Alloc(w, time) => AllocPass(s, w, time)
    case Retry(w, time) =>
      var t := s.(resumed := s.resumed - {w.tid});
      if s.resumed[w.tid] != Ok then (t, Denied(w.tid, s.resumed[w.tid])) else AllocPass(t, w, time)
    case Free(payload) =>
      var t := s.(free := [payload - WORD] + s.free, live := s.live - {payload - WORD});
      if t.waiters == [] then (t, Quiet)
      else (t.(waiters := t.waiters[1..], resumed := t.resumed[t.waiters[0].tid := Ok]), Quiet)
    case Abort(tid, err) =>
      (s.(waiters := Remove(s.waiters, tid), resumed := s.resumed[tid := err]), Quiet)
  }

  // ---- The invariant ----

  /** Every block is either free, once, or live. */
  ghost predicate Partition(blocks: set<nat>, free: seq<nat>, live: set<nat>) {
    && Distinct(free)
    && (forall b :: b in free ==> b in blocks && b !in live)
    && live <= blocks
    && (forall b :: b in blocks ==> b in free || b in live)
    && |free| + |live| == |blocks|
  }

  ghost predicate Inv(s: State) {
    && Partition(s.blocks, s.free, s.live)
    && Placed(s.waiters, s.resumed)
    && (s.waiters != [] ==> |s.free| <= |Woken(s.resumed)|)
  }

  lemma TakeFirst(blocks: set<nat>, free: seq<nat>, live: set<nat>)
    requires Partition(blocks, free, live) && free != []
    ensures Partition(blocks, free[1..], live + {free[0]}) && free[0] !in live
  {
    assert free[0] in free;
    assert free == [free[0]] + free[1..];
  }

  lemma PutFirst(blocks: set<nat>, free: seq<nat>, live: set<nat>, b: nat)
    requires Partition(blocks, free, live) && b in live
    ensures Partition(blocks, [b] + free, live - {b})
  {
  }

  lemma FrontJoins(q: seq<Waiter>, resumed: Resumed, w: Waiter)
    requires Placed(q, resumed) && !WaitsFor(q, w.tid) && w.tid !in resumed
    ensures Placed([w] + q, resumed)
  {
    assert forall i :: 0 <= i < |q| ==> q[i] in q;
  }

  lemma PassInv(s: State, w: Waiter, time: int)
    requires Partition(s.blocks, s.free, s.live) && Placed(s.waiters, s.resumed)
    requires s.waiters != [] ==> |s.free| - 1 <= |Woken(s.resumed)|
    requires s.free == [] || s.waiters == [] || |s.free| - 1 <= |Woken(s.resumed)|
    requires !WaitsFor(s.waiters, w.tid) && w.tid !in s.resumed
    ensures Inv(AllocPass(s, w, time).0)
  {
    hide Partition, Placed, WaitsFor;
    if s.free != [] {
      TakeFirst(s.blocks, s.free, s.live);
    } else if time != 0 {
      FrontJoins(s.waiters, s.resumed, w);
    }
  }

  lemma StepInv(s: State, c: Call)
    requires Inv(s) && Enabled(s, c)
    ensures Inv(Step(s, c).0)
  {
    hide Partition, Unique;
    match c
    case Alloc(w, time) => PassInv(s, w, time);
    case Retry(w, time) =>
      Rerun(s.resumed, w.tid);
      if s.resumed[w.tid] == Ok {
        PassInv(s.(resumed := s.resumed - {w.tid}), w, time);
      }
    case Free(payload) =>
      PutFirst(s.blocks, s.free, s.live, payload - WORD);
      if s.waiters != [] {
        FrontLeaves(s.waiters, s.resumed, Ok);
        WakeOne(s.resumed, s.waiters[0].tid);
      }
    case Abort(tid, err) =>
      OneLeaves(s.waiters, s.resumed, tid, err);
      WakeWithError(s.resumed, tid, err);
      RemoveMeaning(s.waiters, tid);
  }

  // ---- Runs ----

  function Next(s: State, c: Call): State {
    if Enabled(s, c) then Step(s, c).0 else s
  }

  function Run(s: State, calls: seq<Call>): State
    decreases |calls|
  {
    if calls == [] then s else Run(Next(s, calls[0]), calls[1..])
  }

  lemma NextInv(s: State, c: Call)
    requires Inv(s)
    ensures Inv(Next(s, c)) && Next(s, c).blocks == s.blocks
  {
    hide Inv;
    if Enabled(s, c) {
      StepInv(s, c);
    }
  }

  /** In every interleaving blocks are conserved and no wake-up is lost. */
  lemma {:induction false} RunInv(s: State, calls: seq<Call>)
    requires Inv(s)
    ensures Inv(Run(s, calls)) && Run(s, calls).blocks == s.blocks
    decreases |calls|
  {
    hide Inv, Next;
    if calls != [] {
      NextInv(s, calls[0]);
      RunInv(Next(s, calls[0]), calls[1..]);
    }
  }

  /** Once every woken thread has run, threads wait only if no block is free. */
  lemma QuiescentWaiting(s: State, calls: seq<Call>)
    requires Inv(s) && Woken(Run(s, calls).resumed) == {}
    ensures Run(s, calls).waiters != [] ==> Run(s, calls).free == [] && Run(s, calls).live == s.blocks
  {
    RunInv(s, calls);
  }

  /** A block that was just released is the next one to be allocated, and the release undoes the allocation. */
  lemma FreeThenAlloc(s: State, payload: nat, w: Waiter, time: int)
    requires Inv(s) && s.waiters == [] && Enabled(s, Free(payload)) && Enabled(s, Alloc(w, time))
    ensures var t := Step(s, Free(payload)).0;
      && Enabled(t, Alloc(w, time))
      && Step(t, Alloc(w, time)) == (s, Allocated(w.tid, payload))
  {
    var b := payload - WORD;
    assert ([b] + s.free)[1..] == s.free;
    assert (s.live - {b}) + {b} == s.live;
  }

  // ---- When a call succeeds ----

  /** A thread that goes through the loop: on its first pass, or woken without an error. */
  predicate Passes(s: State, c: Call)
    requires Enabled(s, c)
  {
    c.Retry? ==> s.resumed[c.w.tid] == Ok
  }

  /**
   An allocation gets the first free block exactly if one is free; otherwise it is denied with time 0 and
   waits, in front of all others, with any other.
   */
  lemma AllocAnswers(s: State, c: Call)
    requires Inv(s) && Enabled(s, c) && (c.Alloc? || c.Retry?) && Passes(s, c)
    ensures var (t, r) := Step(s, c);
      && (r.Allocated? <==> s.free != [])
      && (r.Allocated? ==>
            && r.tid == c.w.tid && r.payload == s.free[0] + WORD
            && t.free == s.free[1..] && s.free[0] !in s.live && t.live == s.live + {s.free[0]})
      && (r == Denied(c.w.tid, Timeout) <==> s.free == [] && c.time == 0)
      && (r == Quiet <==> s.free == [] && c.time != 0)
      && t.waiters == (if r == Quiet then [c.w] + s.waiters else s.waiters)
      && (!r.Allocated? ==> t.free == s.free && t.live == s.live)
  {
    if s.free != [] {
      TakeFirst(s.blocks, s.free, s.live);
    }
  }

  /** A timeout or a signal takes exactly its thread off the list, with its error, and does nothing else. */
  lemma AbortAnswers(s: State, tid: nat, err: Err)
    requires Inv(s) && Enabled(s, Abort(tid, err))
    ensures var t := Step(s, Abort(tid, err)).0;
      OneFailed(s.waiters, s.resumed, tid, err, t.waiters, t.resumed) && t.free == s.free && t.live == s.live
  {
    RemoveMeaning(s.waiters, tid);
  }

  /** A thread that has been woken keeps its error until it runs. */
  lemma ResumedStep(s: State, c: Call, tid: nat)
    requires Inv(s) && tid in s.resumed && !(c.Retry? && c.w.tid == tid)
    ensures tid in Next(s, c).resumed && Next(s, c).resumed[tid] == s.resumed[tid]
  {
    hide Partition;
    ResumedDoesNotWait(s.waiters, s.resumed, tid);
    assert s.waiters != [] ==> s.waiters[0] in s.waiters;
  }

  lemma {:induction false} ResumedStays(s: State, calls: seq<Call>, tid: nat)
    requires Inv(s) && tid in s.resumed && forall i :: 0 <= i < |calls| ==> !(calls[i].Retry? && calls[i].w.tid == tid)
    ensures tid in Run(s, calls).resumed && Run(s, calls).resumed[tid] == s.resumed[tid]
    decreases |calls|
  {
    hide Inv, Next;
    if calls != [] {
      ResumedStep(s, calls[0], tid);
      NextInv(s, calls[0]);
      ResumedStays(Next(s, calls[0]), calls[1..], tid);
    }
  }

  lemma LeavesWith(s: State, c: Call, tid: nat)
    requires Inv(s) && Enabled(s, c) && WaitsFor(s.waiters, tid) && !WaitsFor(Step(s, c).0.waiters, tid)
    ensures tid in Step(s, c).0.resumed && Step(s, c).0.resumed[tid] == if c.Abort? then c.err else Ok
    ensures c.Abort? ==> c.tid == tid
  {
    hide Partition, WaitsFor, Remove, Unique;
    FrontLeft(s.waiters, tid);
    match c
    case Alloc(w, _) => FrontJoinLeaves(s.waiters, w, tid);
    case Retry(w, _) => FrontJoinLeaves(s.waiters, w, tid);
    case Free(_) =>
    case Abort(t, _) => RemovedLeft(s.waiters, t, tid);
  }

  lemma FrontJoinLeaves(q: seq<Waiter>, w: Waiter, tid: nat)
    requires WaitsFor(q, tid)
    ensures WaitsFor([w] + q, tid)
  {
    var x :| x in q && x.tid == tid;
    assert x in [w] + q;
  }

  /**
   A waiting thread leaves the list woken by a release, or by a timeout or signal; when it runs, whatever ran before,
   it goes through the loop in the first case and is denied with that error in the other.
   */
  lemma {:induction false} WaiterReturns(s: State, c: Call, calls: seq<Call>, w: Waiter, time: int)
    requires Inv(s) && Enabled(s, c) && WaitsFor(s.waiters, w.tid) && !WaitsFor(Step(s, c).0.waiters, w.tid)
    requires forall i :: 0 <= i < |calls| ==> !(calls[i].Retry? && calls[i].w.tid == w.tid)
    ensures var t, again, err := Run(Step(s, c).0, calls), Retry(w, time), if c.Abort? then c.err else Ok;
      && Enabled(t, again) && (Passes(t, again) <==> err == Ok)
      && (err != Ok ==> Step(t, again).1 == Denied(w.tid, err))
      && (err != Ok ==> Step(t, again).0.free == t.free && Step(t, again).0.live == t.live)
  {
    hide Inv, Run, WaitsFor, AllocPass;
    LeavesWith(s, c, w.tid);
    StepInv(s, c);
    ResumedStays(Step(s, c).0, calls, w.tid);
  }

  /** A release frees exactly its block, which is the next one to go, and wakes the first waiter. */
  lemma FreeAnswers(s: State, payload: nat)
    requires Inv(s) && Enabled(s, Free(payload))
    ensures var t := Step(s, Free(payload)).0;
      && t.free == [payload - WORD] + s.free && t.live == s.live - {payload - WORD}
      && FirstWoken(s.waiters, s.resumed, t.waiters, t.resumed)
  {
  }

  /** In every run an allocation without waiting is denied exactly if every block is live. */
  lemma PollFailsIff(s: State, calls: seq<Call>, w: Waiter)
    requires Inv(s) && Enabled(Run(s, calls), Alloc(w, 0))
    ensures var t := Run(s, calls);
      && (Step(t, Alloc(w, 0)).1 == Denied(w.tid, Timeout) <==> t.live == s.blocks)
      && (Step(t, Alloc(w, 0)).1.Allocated? <==> t.live != s.blocks)
  {
    hide Inv, Step;
    RunInv(s, calls);
    AllocAnswers(Run(s, calls), Alloc(w, 0));
    NoneFreeIff(Run(s, calls));
  }

  lemma NoneFreeIff(s: State)
    requires Inv(s)
    ensures s.free == [] <==> s.live == s.blocks
  {
    assert s.free != [] ==> s.free[0] in s.free;
  }

  // ---- Layout ----

  /** Address of block i of a pool whose blocks are `stride` bytes apart. */
  function BlockAt(start: nat, stride: nat, i: nat): nat {
    start + i * stride
  }

  function PoolBlocks(start: nat, stride: nat, n: nat): (r: seq<nat>)
    ensures |r| == n
    ensures forall i :: 0 <= i < n ==> r[i] == BlockAt(start, stride, i)
  {
    seq(n, i requires 0 <= i < n => BlockAt(start, stride, i))
  }

  lemma SlotsApart(start: nat, stride: nat, i: nat, j: nat)
    requires i < j
    ensures BlockAt(start, stride, i) + stride <= BlockAt(start, stride, j)
  {
    var d: nat := j - i - 1;
    assert j * stride == (i + 1 + d) * stride == i * stride + stride + d * stride;
    assert d * stride >= 0;
  }

  lemma LowerSlots(start: nat, stride: nat, n: nat)
    requires stride > 0
    ensures forall i :: 0 <= i < n ==> BlockAt(start, stride, i) != BlockAt(start, stride, n)
  {
    forall i | 0 <= i < n
      ensures BlockAt(start, stride, i) != BlockAt(start, stride, n)
    {
      SlotsApart(start, stride, i, n);
    }
  }

  /** Blocks lie inside the pool and do not overlap. */
  lemma PayloadsDisjoint(start: nat, stride: nat, n: nat, i: nat, j: nat)
    requires i < n && j < n && i != j && stride >= WORD
    ensures start <= BlockAt(start, stride, i) && BlockAt(start, stride, i) + stride <= start + n * stride
    ensures var x, y := BlockAt(start, stride, i), BlockAt(start, stride, j); x + stride <= y || y + stride <= x
  {
    SlotsApart(start, stride, i, n);
    if i < j {
      SlotsApart(start, stride, i, j);
    } else {
      SlotsApart(start, stride, j, i);
    }
  }

  function Stride(blockSize: nat): nat {
    (blockSize + 3) / 4 * 4 + WORD
  }

  function BlockCount(size: nat, blockSize: nat): nat {
    size / 4 * 4 / Stride(blockSize)
  }

  lemma Layout(size: nat, blockSize: nat)
    ensures Stride(blockSize) == (blockSize + 3) / 4 * 4 + WORD
    ensures BlockCount(size, blockSize) == size / 4 * 4 / Stride(blockSize) >= 0
  {
  }

  /** All blocks fit into the pool handed to rt_mp_init. */
  lemma PoolFits(size: nat, blockSize: nat)
    ensures BlockCount(size, blockSize) * Stride(blockSize) <= size
  {
    var a, d := size / 4 * 4, Stride(blockSize);
    assert a == a / d * d + a % d;
  }

  /** Where rt_mp_init writes behind its loop: the word of the last block, or in 32-bit arithmetic below the pool. */
  function LastWord(start: nat, stride: nat, n: nat): nat
    requires stride <= ADDRESSES
  {
    if n >= 1 then BlockAt(start, stride, n - 1) else (start + ADDRESSES - stride) % ADDRESSES
  }

  /**
   That word belongs to the area handed over exactly if the area holds a block, or the way down
   leads round the address space into it.
   */
  lemma LastWordInPool(start: nat, size: nat, blockSize: nat)
    requires 0 < size && start + size <= ADDRESSES && Stride(blockSize) <= ADDRESSES
    ensures var stride, n := Stride(blockSize), BlockCount(size, blockSize);
      (start <= LastWord(start, stride, n) && LastWord(start, stride, n) + WORD <= start + size) <==>
        n >= 1 || (start < stride && ADDRESSES + WORD <= size + stride)
  {
    hide Stride, BlockCount, BlockAt;
    var stride, n := Stride(blockSize), BlockCount(size, blockSize);
    StrideHoldsWord(blockSize);
    if n >= 1 {
      PoolFits(size, blockSize);
      SlotsApart(start, stride, n - 1, n);
      FirstAndLast(start, stride, n);
    } else if start >= stride {
      assert (start + ADDRESSES - stride) % ADDRESSES == start - stride;
    } else {
      assert (start + ADDRESSES - stride) % ADDRESSES == start + ADDRESSES - stride;
    }
  }

  lemma FirstAndLast(start: nat, stride: nat, n: nat)
    requires n >= 1
    ensures start <= BlockAt(start, stride, n - 1) && BlockAt(start, stride, n) == start + n * stride
  {
  }

  /**
   In every state reached from a fresh pool live blocks lie in the area handed to rt_mp_init and do
   not overlap, and behind its first word each has room for as many bytes as were asked for.
   */
  lemma LivePayloadsApart(start: nat, size: nat, blockSize: nat, calls: seq<Call>, b: nat, c: nat)
    requires var all := PoolBlocks(start, Stride(blockSize), BlockCount(size, blockSize));
      b in Run(Fresh(all), calls).live && c in Run(Fresh(all), calls).live && b != c
    ensures start <= b && b + WORD + blockSize <= b + Stride(blockSize) <= start + size
    ensures b + Stride(blockSize) <= c || c + Stride(blockSize) <= b
  {
    hide Run, Stride, BlockCount;
    var stride, n := Stride(blockSize), BlockCount(size, blockSize);
    var all := PoolBlocks(start, stride, n);
    StrideHoldsWord(blockSize);
    PoolBlocksDistinct(start, stride, n);
    FreshInv(all);
    RunInv(Fresh(all), calls);
    LiveInPool(Run(Fresh(all), calls), all, b);
    LiveInPool(Run(Fresh(all), calls), all, c);
    var i :| 0 <= i < n && all[i] == b;
    var j :| 0 <= j < n && all[j] == c;
    PoolFits(size, blockSize);
    PayloadsDisjoint(start, stride, n, i, j);
  }

  lemma StrideHoldsWord(blockSize: nat)
    ensures WORD + blockSize <= Stride(blockSize) < WORD + blockSize + 4
  {
  }

  lemma LiveInPool(s: State, all: seq<nat>, b: nat)
    requires Inv(s) && s.blocks == Elements(all) && b in s.live
    ensures b in all
  {
  }

  /** The blocks of a fresh pool are distinct. */
  lemma PoolBlocksDistinct(start: nat, stride: nat, n: nat)
    requires stride > 0
    ensures Distinct(PoolBlocks(start, stride, n))
  {
    forall i, j | 0 <= i < j < n
      ensures PoolBlocks(start, stride, n)[i] != PoolBlocks(start, stride, n)[j]
    {
      SlotsApart(start, stride, i, j);
    }
  }

  function Fresh(all: seq<nat>): State {
    State(Elements(all), all, {}, [], map[])
  }

  /** The state that rt_mp_init builds satisfies the invariant. */
  lemma FreshInv(all: seq<nat>)
    requires Distinct(all)
    ensures Inv(Fresh(all))
  {
    DistinctCount(all);
  }

  // ---- The object ----

  /**
   The first words: the free blocks are chained, every live block names the pool; without any block
   none is promised.
   */
  ghost predicate Words(none: bool, word: map<nat, nat>, blockList: nat, free: seq<nat>, live: set<nat>, pool: nat) {
    if none then free == [] && live == {}
    else Chain(word, blockList, free) && forall b :: b in live ==> b in word && word[b] == pool
  }

  lemma WordsTake(none: bool, word: map<nat, nat>, blockList: nat, free: seq<nat>, live: set<nat>, pool: nat)
    requires Words(none, word, blockList, free, live, pool) && free != [] && Distinct(free)
    ensures blockList == free[0] != 0 && blockList in word
    ensures Words(none, word[blockList := pool], word[blockList], free[1..], live + {blockList}, pool)
  {
    ChainPop(word, blockList, free);
    assert blockList !in free[1..];
    ChainElsewhere(word, word[blockList], free[1..], blockList, pool);
  }

  lemma WordsPut(none: bool, word: map<nat, nat>, blockList: nat, free: seq<nat>, live: set<nat>, pool: nat, b: nat)
    requires Words(none, word, blockList, free, live, pool) && b in live && b != 0 && b !in free
    ensures Words(none, word[b := blockList], b, [b] + free, live - {b}, pool)
  {
    ChainPush(word, blockList, free, b);
  }

  lemma LiveBlock(s: State, b: nat)
    requires Inv(s) && b in s.live && 0 !in s.blocks
    ensures b != 0 && b !in s.free
  {
  }

  /** The loop of rt_mp_init and the word behind it. */
  method BuildChain(start: nat, stride: nat, n: nat) returns (w: map<nat, nat>)
    requires 0 < stride <= ADDRESSES
    ensures forall i :: 0 <= i < n ==> BlockAt(start, stride, i) in w
    ensures forall i :: 0 <= i < n - 1 ==> w[BlockAt(start, stride, i)] == BlockAt(start, stride, i + 1)
    ensures n >= 1 ==> w[BlockAt(start, stride, n - 1)] == 0
    ensures n == 0 ==> w == map[LastWord(start, stride, 0) := 0]
  {
    hide BlockAt, LastWord;
    w := map[];
    var offset := 0;
    while offset < n
      invariant offset <= n && (n == 0 ==> w == map[])
      invariant forall i :: 0 <= i < offset ==>
        BlockAt(start, stride, i) in w && w[BlockAt(start, stride, i)] == BlockAt(start, stride, i + 1)
    {
      LowerSlots(start, stride, offset);
      w := w[BlockAt(start, stride, offset) := BlockAt(start, stride, offset + 1)];
      offset := offset + 1;
    }
    LastIsBlock(start, stride, n);
    w := w[LastWord(start, stride, offset) := 0];
  }

  class Pool {
    /** Where the control block is: the value in the first word of live blocks. */
    const self: nat
    const startAddress: nat
    const blockSize: nat
    const blockTotalCount: nat
    ghost const blocks: set<nat>
    var word: map<nat, nat>
    var blockList: nat
    var blockFreeCount: nat
    var waiters: seq<Waiter>
    var resumed: Resumed
    ghost var free: seq<nat>
    ghost var live: set<nat>

    ghost function View(): State
      reads this
    {
      State(blocks, free, live, waiters, resumed)
    }

    ghost predicate Valid()
      reads this
    {
      && Inv(View())
      && Words(blockTotalCount == 0, word, blockList, free, live, self)
      && blockFreeCount == |free|
      && 0 !in blocks
    }

    /** rt_mp_init; in an area too small for a block it writes outside the area (LastWordInPool). */
    constructor (self: nat, start: nat, size: nat, blockSize: nat)
      requires start > 0 && size > 0 && blockSize > 0 && Stride(blockSize) <= ADDRESSES
      ensures Valid() && View() == Fresh(PoolBlocks(start, Stride(blockSize), BlockCount(size, blockSize)))
      ensures this.self == self && blockFreeCount == blockTotalCount == BlockCount(size, blockSize)
      ensures BlockCount(size, blockSize) == 0 ==> word == map[LastWord(start, Stride(blockSize), 0) := 0]
    {
      hide Inv, Words, Chain, BlockAt, Distinct, PoolBlocks, LastWord, Stride, BlockCount;
      Layout(size, blockSize);
      var aligned := size / 4 * 4;
      var bsize := (blockSize + 3) / 4 * 4;
      var stride := bsize + WORD;
      var n: nat := aligned / stride;
      ghost var all := PoolBlocks(start, stride, n);
      var w := BuildChain(start, stride, n);
      if n >= 1 {
        ChainBuilt(start, stride, n, w, self);
      } else {
        NoWords(start, stride, w, self);
      }
      FreshInv(all);
      this.self, this.startAddress, this.blockSize, this.blockTotalCount := self, start, bsize, n;
      this.blocks := Elements(all);
      this.word, this.blockList, this.blockFreeCount := w, start, n;
      this.waiters, this.resumed, this.free, this.live := [], map[], all, {};
    }

    /** One pass of the loop of rt_mp_alloc. */
    method TryAlloc(w: Waiter, time: int) returns (r: Report)
      requires Partition(blocks, free, live) && Words(blockTotalCount == 0, word, blockList, free, live, self)
      requires blockFreeCount == |free|
      modifies this
      ensures (View(), r) == AllocPass(old(View()), w, time)
      ensures Words(blockTotalCount == 0, word, blockList, free, live, self) && blockFreeCount == |free|
    {
      hide Words;
      if blockFreeCount == 0 {
        if time == 0 {
          return Denied(w.tid, Timeout);
        }
        waiters := [w] + waiters;
        return Quiet;
      }
      WordsTake(blockTotalCount == 0, word, blockList, free, live, self);
      blockFreeCount := blockFreeCount - 1;
      var block: nat := blockList;
      blockList := word[block];
      word := word[block := self];
      free, live := free[1..], live + {block};
      return Allocated(w.tid, block + WORD);
    }

    /** rt_mp_alloc up to the point where the thread returns or is suspended. */
    method Alloc(w: Waiter, time: int) returns (r: Report)
      requires Valid() && Enabled(View(), Call.Alloc(w, time))
      modifies this
      ensures Valid() && (View(), r) == Step(old(View()), Call.Alloc(w, time))
    {
      hide Words, WaitsFor, AllocPass, Partition, Placed;
      StepInv(View(), Call.Alloc(w, time));
      r := TryAlloc(w, time);
    }

    /** rt_mp_alloc after the thread was resumed, with the time that remains. */
    method Retry(w: Waiter, time: int) returns (r: Report)
      requires Valid() && Enabled(View(), Call.Retry(w, time))
      modifies this
      ensures Valid() && (View(), r) == Step(old(View()), Call.Retry(w, time))
    {
      hide Words, WaitsFor, AllocPass, Partition, Placed;
      StepInv(View(), Call.Retry(w, time));
      var error := resumed[w.tid];
      resumed := resumed - {w.tid};
      if error != Ok {
        return Denied(w.tid, error);
      }
      r := TryAlloc(w, time);
    }

    /** rt_mp_free: the word in front of the payload leads to the pool. */
    method Free(payload: nat)
      requires Valid() && Enabled(View(), Call.Free(payload))
      modifies this
      ensures old(word)[payload - WORD] == self
      ensures Valid() && View() == Step(old(View()), Call.Free(payload)).0
    {
      hide WaitsFor, Inv, Chain, Remove;
      StepInv(View(), Call.Free(payload));
      var block: nat := payload - WORD;
      LiveBlock(View(), block);
      WordsPut(blockTotalCount == 0, word, blockList, free, live, self, block);
      blockFreeCount := blockFreeCount + 1;
      word := word[block := blockList];
      blockList := block;
      free, live := [block] + free, live - {block};
      if waiters != [] {
        resumed := resumed[waiters[0].tid := Ok];
        waiters := waiters[1..];
      }
    }

    /** rt_thread_timeout, or a signal, takes a thread off the waiting list. */
    method Abort(tid: nat, err: Err)
      requires Valid() && Enabled(View(), Call.Abort(tid, err))
      modifies this
      ensures Valid() && View() == Step(old(View()), Call.Abort(tid, err)).0
    {
      hide Words, WaitsFor, Partition, Placed;
      StepInv(View(), Call.Abort(tid, err));
      waiters := Remove(waiters, tid);
      resumed := resumed[tid := err];
    }
  }

  lemma LastIsBlock(start: nat, stride: nat, n: nat)
    requires 0 < stride <= ADDRESSES
    ensures n >= 1 ==> LastWord(start, stride, n) == BlockAt(start, stride, n - 1)
    ensures n >= 1 ==> forall i :: 0 <= i < n - 1 ==> BlockAt(start, stride, i) != BlockAt(start, stride, n - 1)
  {
    if n >= 1 {
      LowerSlots(start, stride, n - 1);
    }
  }

  lemma NoWords(start: nat, stride: nat, w: map<nat, nat>, pool: nat)
    ensures var all := PoolBlocks(start, stride, 0);
      Words(true, w, start, all, {}, pool) && Distinct(all) && |all| == 0 && 0 !in Elements(all)
  {
  }

  lemma ChainBuilt(start: nat, stride: nat, n: nat, w: map<nat, nat>, pool: nat)
    requires start > 0 && stride > 0 && n >= 1
    requires forall i :: 0 <= i < n ==> BlockAt(start, stride, i) in w
    requires forall i :: 0 <= i < n - 1 ==> w[BlockAt(start, stride, i)] == BlockAt(start, stride, i + 1)
    requires w[BlockAt(start, stride, n - 1)] == 0
    ensures var all := PoolBlocks(start, stride, n);
      Words(false, w, start, all, {}, pool) && Distinct(all) && |all| == n && 0 !in Elements(all)
  {
    var all := PoolBlocks(start, stride, n);
    forall i, j | 0 <= i < j < n
      ensures all[i] != all[j]
    {
      SlotsApart(start, stride, i, j);
    }
    assert BlockAt(start, stride, 0) == start;
  }
}
