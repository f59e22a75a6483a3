/**
 The moving branch of rt_memheap_realloc while other threads run: the lock is free
 between the allocation, the copying and the release, and during the copying.
 */
module MemHeapMoves {
  import opened Tiling
  import opened Bytes
  import opened MemHeapModel
  import opened MemHeapRuns
  import opened Arithmetic

  /** A heap and the memory it hands out. */
  datatype Machine = Machine(heap: Heap, mem: Memory)

  /** A section under the lock, or a thread writing to a block it owns; `mem` is the memory afterwards. */
  datatype Step = Section(action: Action, mem: Memory) | Write(ptr: nat, mem: Memory)

  /** A section writes headers only, so that it touches no byte that is allocated before and after. */
  ghost predicate Possible(m: Machine, s: Step) {
    && WellFormed(m.heap)
    && match s
       case Section(a, mem) =>
         Enabled(m.heap, a) && KeepsAllocated(HEADER, m.mem, mem, m.heap.blocks, Act(m.heap, a).blocks)
       case Write(ptr, mem) =>
         Live(m.heap, ptr) && forall a: nat :: !Holds(HEADER, BlockOf(m.heap, ptr), a) ==> SameByte(m.mem, mem, a)
  }

  /** Steps that would break a thread's duties do not occur. */
  ghost function Do(m: Machine, s: Step): Machine {
    if !Possible(m, s) then m
    else match s
      case Section(a, mem) => Machine(Act(m.heap, a), mem)
      case Write(_, mem) => Machine(m.heap, mem)
  }

  predicate Names(s: Step, ptr: nat) {
    match s
    case Section(Allocate(_), _) => false
    case Section(Deallocate(p), _) => p == ptr
    case Section(Resize(p, _), _) => p == ptr
    case Write(p, _) => p == ptr
  }

  ghost function DoAll(m: Machine, steps: seq<Step>): Machine
    decreases |steps|
  {
    if steps == [] then m else DoAll(Do(m, steps[0]), steps[1..])
  }

  // ---- What a step leaves alone ----

  /** From m to m' the block at q stays allocated, with the same extent and the same bytes. */
  ghost predicate Leaves(m: Machine, m': Machine, q: nat) {
    && WellFormed(m.heap) && WellFormed(m'.heap)
    && Live(m.heap, q) && Live(m'.heap, q) && BlockOf(m'.heap, q) == BlockOf(m.heap, q)
    && forall a: nat :: Holds(HEADER, BlockOf(m.heap, q), a) ==> SameByte(m.mem, m'.mem, a)
  }

  /** A section keeps allocated every block it does not name. */
  lemma ActKeepsUsed(h: Heap, a: Action, mem: Memory, q: nat)
    requires WellFormed(h) && Enabled(h, a) && Live(h, q) && !Names(Section(a, mem), q)
    ensures WellFormed(Act(h, a)) && BlockOf(h, q) in UsedBlocks(Act(h, a).blocks)
  {
    hide WellFormed, Live, UsedBlocks, Alloc, Free, ResizeInPlace, PlanFor;
    ActWellFormed(h, a);
    match a
    case Allocate(size) =>
      AllocFails(h, size);
      if Alloc(h, size).ptr != 0 {
        var b := AllocAdds(h, size);
      }
    case Deallocate(ptr) =>
      FreeWellFormed(h, ptr);
    case Resize(ptr, size) =>
      AlignedMultiple(size);
      var b := ResizeExchanges(h, LiveIndex(h, ptr), Request(size));
  }

  lemma ActLeaves(m: Machine, a: Action, mem: Memory, q: nat)
    requires Possible(m, Section(a, mem)) && Live(m.heap, q) && !Names(Section(a, mem), q)
    ensures Leaves(m, Machine(Act(m.heap, a), mem), q)
  {
    hide WellFormed, Live, UsedBlocks, Act, Enabled, Allocated;
    var h, c := m.heap, BlockOf(m.heap, q);
    ActKeepsUsed(h, a, mem, q);
    LiveTransfer(h, Act(h, a), q);
    forall x: nat | Holds(HEADER, c, x)
      ensures SameByte(m.mem, mem, x)
    {
      AllocatedIff(HEADER, h.blocks, x);
      AllocatedIff(HEADER, Act(h, a).blocks, x);
    }
  }

  lemma TiledOf(h: Heap)
    requires WellFormed(h)
    ensures Tiled(HEADER, h.start, h.start + h.pool, h.blocks)
  {
  }

  /** Writes to one block leave every other one alone. */
  lemma WriteLeaves(m: Machine, ptr: nat, mem: Memory, q: nat)
    requires WellFormed(m.heap) && Live(m.heap, ptr) && Live(m.heap, q) && ptr != q
    requires forall a: nat :: !Holds(HEADER, BlockOf(m.heap, ptr), a) ==> SameByte(m.mem, mem, a)
    ensures Leaves(m, Machine(m.heap, mem), q)
  {
    hide WellFormed, Live, UsedBlocks, Holds, Tiled;
    TiledOf(m.heap);
    forall x: nat | Holds(HEADER, BlockOf(m.heap, q), x)
      ensures SameByte(m.mem, mem, x)
    {
      if Holds(HEADER, BlockOf(m.heap, ptr), x) {
        PayloadsApart(HEADER, m.heap.start, m.heap.start + m.heap.pool, m.heap.blocks,
                      BlockOf(m.heap, ptr), BlockOf(m.heap, q), x);
      }
    }
  }

  lemma StepLeaves(m: Machine, s: Step, q: nat)
    requires WellFormed(m.heap) && Live(m.heap, q) && !Names(s, q)
    ensures Leaves(m, Do(m, s), q)
  {
    hide WellFormed, Live, Act, Enabled, KeepsAllocated, Holds, SameByte;
    if Possible(m, s) {
      match s
      case Section(a, mem) => ActLeaves(m, a, mem, q);
      case Write(ptr, mem) => WriteLeaves(m, ptr, mem, q);
    } else {
      LeavesSelf(m, q);
    }
  }

  lemma LeavesSelf(m: Machine, q: nat)
    requires WellFormed(m.heap) && Live(m.heap, q)
    ensures Leaves(m, m, q)
  {
  }

  lemma LeavesTwice(m: Machine, m': Machine, m'': Machine, q: nat)
    requires Leaves(m, m', q) && Leaves(m', m'', q)
    ensures Leaves(m, m'', q)
  {
    hide WellFormed, Live;
  }

  lemma {:induction false} RunLeaves(m: Machine, steps: seq<Step>, q: nat)
    requires WellFormed(m.heap) && Live(m.heap, q) && forall s :: s in steps ==> !Names(s, q)
    ensures Leaves(m, DoAll(m, steps), q)
    decreases |steps|
  {
    hide WellFormed, Live, Do, Names;
    if steps == [] {
      LeavesSelf(m, q);
    } else {
      StepLeaves(m, steps[0], q);
      RunLeaves(Do(m, steps[0]), steps[1..], q);
      LeavesTwice(m, Do(m, steps[0]), DoAll(m, steps), q);
    }
  }

  // ---- The copying ----

  /** The copying of n bytes under way: `done` of them have been copied. */
  datatype Copying = Copying(machine: Machine, done: nat)

  /** A step of another thread, or one byte copied. */
  datatype Event = Other(step: Step) | CopyByte

  function CopyOne(mem: Memory, src: nat, dst: nat): Memory {
    if src in mem then mem[dst := mem[src]] else mem - {dst}
  }

  ghost function Proceed(w: Copying, e: Event, src: nat, dst: nat, n: nat): Copying {
    match e
    case Other(s) => Copying(Do(w.machine, s), w.done)
    case CopyByte =>
      if w.done == n then w
      else Copying(Machine(w.machine.heap, CopyOne(w.machine.mem, src + w.done, dst + w.done)), w.done + 1)
  }

  ghost function ProceedAll(w: Copying, events: seq<Event>, src: nat, dst: nat, n: nat): Copying
    decreases |events|
  {
    if events == [] then w else ProceedAll(Proceed(w, events[0], src, dst, n), events[1..], src, dst, n)
  }

  predicate Involves(e: Event, q: nat) {
    e.Other? && Names(e.step, q)
  }

  /** The block to copy to is allocated and large enough. */
  ghost predicate Room(m: Machine, dst: nat, n: nat) {
    WellFormed(m.heap) && Live(m.heap, dst) && BlockOf(m.heap, dst).size >= n
  }

  lemma CopyOneLeaves(w: Copying, src: nat, dst: nat, n: nat, q: nat)
    requires Room(w.machine, dst, n) && w.done < n && Live(w.machine.heap, q) && q != dst
    ensures Leaves(w.machine, Proceed(w, CopyByte, src, dst, n).machine, q)
  {
    hide WellFormed, Live;
    WriteLeaves(w.machine, dst, CopyOne(w.machine.mem, src + w.done, dst + w.done), q);
  }

  /** Another block than the one copied to is left alone by the copying, and by others that do not name it. */
  lemma ProceedLeaves(w: Copying, e: Event, src: nat, dst: nat, n: nat, q: nat)
    requires Room(w.machine, dst, n) && w.done <= n && Live(w.machine.heap, q) && q != dst && !Involves(e, q)
    ensures Leaves(w.machine, Proceed(w, e, src, dst, n).machine, q)
  {
    hide WellFormed, Live, Do, Names, Leaves;
    match e
    case Other(s) => StepLeaves(w.machine, s, q);
    case CopyByte =>
      if w.done < n {
        CopyOneLeaves(w, src, dst, n, q);
      } else {
        LeavesSelf(w.machine, q);
      }
  }

  /** Since `m` the source is untouched, the destination is still allocated and holds the bytes copied so far. */
  ghost predicate Underway(m: Machine, w: Copying, src: nat, dst: nat, n: nat, b: Block) {
    && Leaves(m, w.machine, src) && w.done <= n <= b.size && n <= BlockOf(m.heap, src).size && src != dst
    && Live(w.machine.heap, dst) && BlockOf(w.machine.heap, dst) == b
    && Copied(m.mem, src, w.machine.mem, dst, w.done)
  }

  lemma OtherUnderway(m: Machine, w: Copying, s: Step, src: nat, dst: nat, n: nat, b: Block)
    requires Underway(m, w, src, dst, n, b) && !Names(s, src) && !Names(s, dst)
    ensures Underway(m, Copying(Do(w.machine, s), w.done), src, dst, n, b)
  {
    hide WellFormed, Live, Do, Names;
    var m' := Do(w.machine, s);
    StepLeaves(w.machine, s, src);
    StepLeaves(w.machine, s, dst);
    LeavesTwice(m, w.machine, m', src);
    forall x: nat, d: nat | dst <= d < dst + w.done && x == d - dst + src
      ensures (x in m.mem <==> d in m'.mem) && (x in m.mem ==> m.mem[x] == m'.mem[d])
    {
      assert Holds(HEADER, b, d);
      assert SameByte(w.machine.mem, m'.mem, d);
    }
  }

  lemma CopyUnderway(m: Machine, w: Copying, src: nat, dst: nat, n: nat, b: Block)
    requires Underway(m, w, src, dst, n, b) && w.done < n
    ensures Underway(m, Proceed(w, CopyByte, src, dst, n), src, dst, n, b)
  {
    hide WellFormed, Live;
    var w' := Proceed(w, CopyByte, src, dst, n);
    CopyOneLeaves(w, src, dst, n, src);
    LeavesTwice(m, w.machine, w'.machine, src);
    assert Holds(HEADER, BlockOf(m.heap, src), src + w.done);
    assert SameByte(m.mem, w.machine.mem, src + w.done);
  }

  lemma {:induction false} CopyArrives(m: Machine, w: Copying, events: seq<Event>, src: nat, dst: nat, n: nat, b: Block)
    requires Underway(m, w, src, dst, n, b)
    requires forall e :: e in events ==> !Involves(e, src) && !Involves(e, dst)
    ensures Underway(m, ProceedAll(w, events, src, dst, n), src, dst, n, b)
    decreases |events|
  {
    hide Underway, Names, Do, Proceed;
    if events != [] {
      ProceedUnderway(m, w, events[0], src, dst, n, b);
      CopyArrives(m, Proceed(w, events[0], src, dst, n), events[1..], src, dst, n, b);
    }
  }

  lemma ProceedUnderway(m: Machine, w: Copying, e: Event, src: nat, dst: nat, n: nat, b: Block)
    requires Underway(m, w, src, dst, n, b) && !Involves(e, src) && !Involves(e, dst)
    ensures Underway(m, Proceed(w, e, src, dst, n), src, dst, n, b)
  {
    hide Leaves, Names, Do, Copied, Live, WellFormed;
    match e
    case Other(s) => OtherUnderway(m, w, s, src, dst, n, b);
    case CopyByte =>
      if w.done < n {
        CopyUnderway(m, w, src, dst, n, b);
      }
  }

  /** Any other block stays as it is during the copying. */
  lemma {:induction false} CopyLeaves(m: Machine, w: Copying, events: seq<Event>, src: nat, dst: nat, n: nat, b: Block,
                                      q: nat)
    requires Underway(m, w, src, dst, n, b) && Live(w.machine.heap, q) && q != dst
    requires forall e :: e in events ==> !Involves(e, src) && !Involves(e, dst) && !Involves(e, q)
    ensures Leaves(w.machine, ProceedAll(w, events, src, dst, n).machine, q)
    decreases |events|
  {
    hide Names, Do, Proceed, Live, WellFormed, Copied;
    if events == [] {
      LeavesSelf(w.machine, q);
    } else {
      var w' := Proceed(w, events[0], src, dst, n);
      ProceedUnderway(m, w, events[0], src, dst, n, b);
      ProceedLeaves(w, events[0], src, dst, n, q);
      CopyLeaves(m, w', events[1..], src, dst, n, b, q);
      LeavesTwice(w.machine, w'.machine, ProceedAll(w, events, src, dst, n).machine, q);
    }
  }

  // ---- The whole move ----

  /** The allocation of a move at m succeeded with `r`, with the memory `mem` afterwards. */
  ghost predicate Obtains(m: Machine, size: nat, mem: Memory, r: nat) {
    Possible(m, Section(Allocate(size), mem)) && r != 0 && r == Alloc(m.heap, size).ptr
  }

  lemma Obtained(m: Machine, size: nat, mem: Memory, r: nat, q: nat) returns (m': Machine)
    requires Obtains(m, size, mem, r) && Live(m.heap, q)
    ensures m' == Do(m, Section(Allocate(size), mem)) && Leaves(m, m', q) && q != r
    ensures Live(m'.heap, r) && BlockOf(m'.heap, r).size >= size
  {
    hide WellFormed, Alloc, UsedBlocks;
    m' := Do(m, Section(Allocate(size), mem));
    StepLeaves(m, Section(Allocate(size), mem), q);
    var b := AllocAdds(m.heap, size);
    AllocThenFree(m.heap, size);
    BlockOfUnique(m'.heap, r, b);
    assert BlockOf(m.heap, q) in UsedBlocks(m.heap.blocks);
  }

  /** Allocation at m1 after other steps, then copying until all n bytes are copied. */
  ghost predicate MovedTo(m: Machine, before: seq<Step>, m1: Machine, size: nat, mem: Memory, r: nat, m2: Machine,
                          ptr: nat, n: nat, events: seq<Event>, m3: Machine) {
    && m1 == DoAll(m, before)
    && Obtains(m1, size, mem, r) && m2 == Do(m1, Section(Allocate(size), mem))
    && ProceedAll(Copying(m2, 0), events, ptr, r, n) == Copying(m3, n)
  }

  /** No step of another thread names q. */
  predicate Untouched(before: seq<Step>, events: seq<Event>, q: nat) {
    (forall s :: s in before ==> !Names(s, q)) && forall e :: e in events ==> !Involves(e, q)
  }

  /** Up to the release: the bytes are there, and the source and any other block are as they were. */
  lemma CopyEnds(m: Machine, before: seq<Step>, m1: Machine, size: nat, mem: Memory, r: nat, m2: Machine,
                 ptr: nat, n: nat, events: seq<Event>, m3: Machine, q: nat)
    requires WellFormed(m.heap) && Live(m.heap, ptr) && n == Min(BlockOf(m.heap, ptr).size, size)
    requires MovedTo(m, before, m1, size, mem, r, m2, ptr, n, events, m3)
    requires Untouched(before, events, ptr) && forall e :: e in events ==> !Involves(e, r)
    requires Live(m.heap, q) && Untouched(before, events, q)
    ensures Leaves(m, m3, q) && Leaves(m, m3, ptr) && q != r && ptr != r
    ensures Live(m3.heap, r) && BlockOf(m3.heap, r).size >= size && Copied(m.mem, ptr, m3.mem, r, n)
  {
    hide Alloc, Names, Involves, Do, Proceed, WellFormed, Live;
    RunLeaves(m, before, ptr);
    RunLeaves(m, before, q);
    var o := Obtained(m1, size, mem, r, ptr);
    o := Obtained(m1, size, mem, r, q);
    LeavesTwice(m, m1, m2, ptr);
    LeavesTwice(m, m1, m2, q);
    var b, w := BlockOf(m2.heap, r), Copying(m2, 0);
    LeavesSelf(m2, ptr);
    CopyArrives(m2, w, events, ptr, r, n, b);
    CopyLeaves(m2, w, events, ptr, r, n, b, q);
    LeavesTwice(m, m2, m3, ptr);
    LeavesTwice(m, m2, m3, q);
    CopiedFrom(m, m2, m3, ptr, r, n);
  }

  /** A copy of bytes that have not changed since m is a copy of the bytes of m. */
  lemma CopiedFrom(m: Machine, m': Machine, m'': Machine, ptr: nat, r: nat, n: nat)
    requires Leaves(m, m', ptr) && n <= BlockOf(m.heap, ptr).size && Copied(m'.mem, ptr, m''.mem, r, n)
    ensures Copied(m.mem, ptr, m''.mem, r, n)
  {
    hide WellFormed, Live;
    forall x: nat, d: nat | r <= d < r + n && x == d - r + ptr
      ensures (x in m.mem <==> d in m''.mem) && (x in m.mem ==> m.mem[x] == m''.mem[d])
    {
      assert Holds(HEADER, BlockOf(m.heap, ptr), x);
      assert SameByte(m.mem, m'.mem, x);
    }
  }

  /**
   A moving realloc delivers the first min(old, new) bytes that the block held at the call, releases
   exactly the old block, and leaves every other block alone, whatever sections and writes of other threads
   come between its parts and between the bytes it copies, as long as they do not name the blocks in question.
   */
  lemma MoveArrives(m: Machine, before: seq<Step>, m1: Machine, size: nat, mem: Memory, r: nat, m2: Machine,
                    ptr: nat, n: nat, events: seq<Event>, m3: Machine, mem': Memory)
    requires WellFormed(m.heap) && Live(m.heap, ptr) && n == Min(BlockOf(m.heap, ptr).size, size)
    requires MovedTo(m, before, m1, size, mem, r, m2, ptr, n, events, m3)
    requires Untouched(before, events, ptr) && forall e :: e in events ==> !Involves(e, r)
    ensures Live(m3.heap, ptr)
    ensures var m' := Do(m3, Section(Deallocate(ptr), mem'));
      Possible(m3, Section(Deallocate(ptr), mem')) ==>
        && WellFormed(m'.heap) && Live(m'.heap, r) && BlockOf(m'.heap, r).size >= size
        && Copied(m.mem, ptr, m'.mem, r, n)
        && UsedBlocks(m'.heap.blocks) == UsedBlocks(m3.heap.blocks) - {BlockOf(m.heap, ptr)}
        && forall q :: Live(m.heap, q) && q != ptr && Untouched(before, events, q) ==> Leaves(m, m', q)
  {
    hide MovedTo, Untouched, WellFormed, Live, Act, Free, UsedBlocks;
    CopyEnds(m, before, m1, size, mem, r, m2, ptr, n, events, m3, ptr);
    var s := Section(Deallocate(ptr), mem');
    if Possible(m3, s) {
      var m' := Do(m3, s);
      Released(m3, ptr, mem');
      StepLeaves(m3, s, r);
      CopiedOn(m, m3, m', ptr, r, n);
      forall q | Live(m.heap, q) && q != ptr && Untouched(before, events, q)
        ensures Leaves(m, m', q)
      {
        CopyEnds(m, before, m1, size, mem, r, m2, ptr, n, events, m3, q);
        StepLeaves(m3, s, q);
        LeavesTwice(m, m3, m', q);
      }
    }
  }

  lemma Released(m: Machine, ptr: nat, mem: Memory)
    requires Possible(m, Section(Deallocate(ptr), mem)) && Live(m.heap, ptr)
    ensures var m' := Do(m, Section(Deallocate(ptr), mem));
      WellFormed(m'.heap) && UsedBlocks(m'.heap.blocks) == UsedBlocks(m.heap.blocks) - {BlockOf(m.heap, ptr)}
  {
    hide WellFormed, Live, UsedBlocks, Free;
    FreeWellFormed(m.heap, ptr);
  }

  lemma CopiedOn(m: Machine, m': Machine, m'': Machine, ptr: nat, r: nat, n: nat)
    requires Copied(m.mem, ptr, m'.mem, r, n) && Leaves(m', m'', r) && n <= BlockOf(m'.heap, r).size
    ensures Copied(m.mem, ptr, m''.mem, r, n)
  {
    hide WellFormed, Live;
    forall x: nat, d: nat | r <= d < r + n && x == d - r + ptr
      ensures (x in m.mem <==> d in m''.mem) && (x in m.mem ==> m.mem[x] == m''.mem[d])
    {
      assert Holds(HEADER, BlockOf(m'.heap, r), d);
      assert SameByte(m'.mem, m''.mem, d);
    }
  }
}
