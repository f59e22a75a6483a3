/**
 Message queues (ipc.c): fixed slots threaded on a free list and a queue. A sender
 takes a slot, fills it with interrupts enabled and links it; a receiver unlinks a
 slot, copies it with interrupts enabled and gives it back. Between two regions
 a slot belongs to the thread alone.
 */
module MessageQueue {
  import opened WaitQueue
  import opened Ipc
  import opened Chains
  import opened Sequences
  import opened Arithmetic
  import Lanes

  type Text = seq<byte>

  const ENTRY_MAX: nat := 65535
  /** sizeof(struct rt_mq_message). */
  const LINK: nat := 4

  /** What a thread between two regions of its call is doing with its slot. */
  datatype Hold =
    | Filling(slot: nat, urgent: bool, size: nat)
    | Filled(slot: nat, urgent: bool)
    | Taken(slot: nat, size: nat)
    | Copied(slot: nat, text: Text)

  datatype State = State(flag: Flag, msgSize: nat, slots: set<nat>,
                         free: seq<nat>, queue: seq<nat>, held: map<nat, Hold>, data: map<nat, Text>,
                         receivers: seq<Waiter>, senders: seq<Waiter>,
                         resumedReceivers: Resumed, resumedSenders: Resumed)

  datatype Report =
    | Sent(tid: nat, err: Err)
    | Missed(tid: nat, err: Err)
    | Unlinked(tid: nat, slot: nat)
    | Got(tid: nat, text: Text)
    | Quiet

  /**
   The steps. Send and Recv are the first pass of the retry loop, Resend and Rerecv
   the next one of a resumed thread. Fill and Copy run with interrupts enabled.
   */
  datatype Call =
    | Send(w: Waiter, size: nat, timeout: int)
    | Resend(w: Waiter, size: nat, timeout: int)
    | Urgent(tid: nat, size: nat)
    | Fill(tid: nat, text: Text)
    | Link(tid: nat)
    | Recv(w: Waiter, size: nat, timeout: int)
    | Rerecv(w: Waiter, size: nat, timeout: int)
    | Copy(tid: nat)
    | PutAway(tid: nat)
    | Abort(tid: nat, err: Err)
    | Reset

  predicate Running(s: State, tid: nat) {
    && !WaitsFor(s.receivers, tid) && !WaitsFor(s.senders, tid)
    && tid !in s.resumedReceivers && tid !in s.resumedSenders && tid !in s.held
  }

  predicate Enabled(s: State, c: Call) {
    match c
    case Send(w, size, _) => Running(s, w.tid) && size != 0
    case Resend(w, size, _) => w.tid in s.resumedSenders && 0 < size <= s.msgSize
    case Urgent(tid, size) => Running(s, tid) && size != 0
    case Fill(tid, text) => tid in s.held && s.held[tid].Filling? && |text| == s.held[tid].size
    case Link(tid) => tid in s.held && s.held[tid].Filled?
    case Recv(w, size, _) => Running(s, w.tid) && size != 0
    case Rerecv(w, size, _) => w.tid in s.resumedReceivers && size != 0
    case Copy(tid) => tid in s.held && s.held[tid].Taken?
    case PutAway(tid) => tid in s.held && s.held[tid].Copied?
    case Abort(tid, err) => err != Ok && (WaitsFor(s.receivers, tid) || WaitsFor(s.senders, tid))
    case Reset => true
  }

  function TextIn(s: State, slot: nat): Text {
    if slot in s.data then s.data[slot] else []
  }

  /** rt_memcpy over the beginning of a slot. */
  function Overwrite(old': Text, text: Text): Text {
    text + if |text| <= |old'| then old'[|text|..] else []
  }

  function Prefix(text: Text, n: nat): Text {
    if n <= |text| then text[..n] else text
  }

  function WakeReceiver(s: State): State {
    if s.receivers == [] then s
    else s.(receivers := s.receivers[1..], resumedReceivers := s.resumedReceivers[s.receivers[0].tid := Ok])
  }

  function WakeSender(s: State): State {
    if s.senders == [] then s
    else s.(senders := s.senders[1..], resumedSenders := s.resumedSenders[s.senders[0].tid := Ok])
  }

  function Claim(s: State, tid: nat, urgent: bool, size: nat): State
    requires s.free != []
  {
    s.(free := s.free[1..], held := s.held[tid := Filling(s.free[0], urgent, size)])
  }

  function SendPass(s: State, w: Waiter, size: nat, timeout: int): (State, Report) {
    if s.free != [] then (Claim(s, w.tid, false, size), Quiet)
    else if timeout == 0 then (s, Sent(w.tid, Full))
    else (s.(senders := Enqueue(s.flag, s.senders, w)), Quiet)
  }

  function RecvPass(s: State, w: Waiter, size: nat, timeout: int): (State, Report) {
    if s.queue != [] then
      (s.(queue := s.queue[1..], held := s.held[w.tid := Taken(s.queue[0], size)]), Unlinked(w.tid, s.queue[0]))
    else if timeout == 0 then (s, Missed(w.tid, Timeout))
    else (s.(receivers := Enqueue(s.flag, s.receivers, w)), Quiet)
  }

  /** The queued slots go back one by one, the first of the queue first. */
  function Recycle(free: seq<nat>, queue: seq<nat>): seq<nat>
    decreases |queue|
  {
    if queue == [] then free else Recycle([queue[0]] + free, queue[1..])
  }

  function Step(s: State, c: Call): (State, Report)
    requires Enabled(s, c)
  {
    match c
    case Send(w, size, timeout) =>
      if size > s.msgSize then (s, Sent(w.tid, Failed)) else SendPass(s, w, size, timeout)
    case Resend(w, size, timeout) =>
      var t := s.(resumedSenders := s.resumedSenders - {w.tid});
      if s.resumedSenders[w.tid] != Ok then (t, Sent(w.tid, s.resumedSenders[w.tid])) else SendPass(t, w, size, timeout)
    case Urgent(tid, size) =>
      if size > s.msgSize then (s, Sent(tid, Failed))
      else if s.free == [] then (s, Sent(tid, Full))
      else (Claim(s, tid, true, size), Quiet)
    case Fill(tid, text) =>
      var h := s.held[tid];
      (s.(data := s.data[h.slot := Overwrite(TextIn(s, h.slot), text)],
          held := s.held[tid := Filled(h.slot, h.urgent)]),
       Quiet)
    case Link(tid) =>
      var h := s.held[tid];
      var queue := if h.urgent then [h.slot] + s.queue else s.queue + [h.slot];
      (WakeReceiver(s.(queue := queue, held := s.held - {tid})), Sent(tid, Ok))
    case Recv(w, size, timeout) => RecvPass(s, w, size, timeout)
    case Rerecv(w, size, timeout) =>
      var t := s.(resumedReceivers := s.resumedReceivers - {w.tid});
      if s.resumedReceivers[w.tid] != Ok then (t, Missed(w.tid, s.resumedReceivers[w.tid]))
      else RecvPass(t, w, size, timeout)
    case Copy(tid) =>
      var h := s.held[tid];
      var text := Prefix(TextIn(s, h.slot), if h.size > s.msgSize then s.msgSize else h.size);
      (s.(held := s.held[tid := Copied(h.slot, text)]), Quiet)
    case PutAway(tid) =>
      var h := s.held[tid];
      (WakeSender(s.(free := [h.slot] + s.free, held := s.held - {tid})), Got(tid, h.text))
    case Abort(tid, err) =>
      if WaitsFor(s.receivers, tid) then
        (s.(receivers := Remove(s.receivers, tid), resumedReceivers := s.resumedReceivers[tid := err]), Quiet)
      else
        (s.(senders := Remove(s.senders, tid), resumedSenders := s.resumedSenders[tid := err]), Quiet)
    case Reset =>
      (s.(free := Recycle(s.free, s.queue), queue := [], receivers := [], senders := [],
          resumedReceivers := ResumeAll(s.resumedReceivers, s.receivers),
          resumedSenders := ResumeAll(s.resumedSenders, s.senders)), Quiet)
  }

  // What single steps do, for the proofs about the object.

  lemma StepLink(s: State, tid: nat)
    requires Enabled(s, Link(tid))
    ensures tid in s.held && s.held[tid].Filled?
    ensures var h := s.held[tid];
      var queue := if h.urgent then [h.slot] + s.queue else s.queue + [h.slot];
      Step(s, Link(tid)) == (WakeReceiver(s.(queue := queue, held := s.held - {tid})), Sent(tid, Ok))
  {
  }

  lemma StepPutAway(s: State, tid: nat)
    requires Enabled(s, PutAway(tid))
    ensures tid in s.held && s.held[tid].Copied?
    ensures var h := s.held[tid];
      Step(s, PutAway(tid)) == (WakeSender(s.(free := [h.slot] + s.free, held := s.held - {tid})), Got(tid, h.text))
  {
  }

  lemma StepFill(s: State, tid: nat, text: Text)
    requires Enabled(s, Fill(tid, text))
    ensures tid in s.held && s.held[tid].Filling?
    ensures var h := s.held[tid];
      Step(s, Fill(tid, text)).0
        == s.(data := s.data[h.slot := Overwrite(TextIn(s, h.slot), text)],
              held := s.held[tid := Filled(h.slot, h.urgent)])
  {
  }

  lemma StepResend(s: State, w: Waiter, size: nat, timeout: int)
    requires Enabled(s, Resend(w, size, timeout))
    ensures w.tid in s.resumedSenders
    ensures Step(s, Resend(w, size, timeout)) ==
      var t := s.(resumedSenders := s.resumedSenders - {w.tid});
      if s.resumedSenders[w.tid] != Ok then (t, Sent(w.tid, s.resumedSenders[w.tid])) else SendPass(t, w, size, timeout)
  {
  }

  lemma StepRerecv(s: State, w: Waiter, size: nat, timeout: int)
    requires Enabled(s, Rerecv(w, size, timeout))
    ensures w.tid in s.resumedReceivers
    ensures Step(s, Rerecv(w, size, timeout)) ==
      var t := s.(resumedReceivers := s.resumedReceivers - {w.tid});
      if s.resumedReceivers[w.tid] != Ok then (t, Missed(w.tid, s.resumedReceivers[w.tid]))
      else RecvPass(t, w, size, timeout)
  {
  }

  lemma StepAbort(s: State, tid: nat, err: Err)
    requires Enabled(s, Abort(tid, err))
    ensures Step(s, Abort(tid, err)).0 ==
      if WaitsFor(s.receivers, tid) then
        s.(receivers := Remove(s.receivers, tid), resumedReceivers := s.resumedReceivers[tid := err])
      else s.(senders := Remove(s.senders, tid), resumedSenders := s.resumedSenders[tid := err])
  {
  }

  // ---- Slots ----

  /** No slot is in two places, and the places together have as many as there are. */
  ghost predicate Apart(slots: set<nat>, free: seq<nat>, queue: seq<nat>, held: map<nat, Hold>) {
    && Distinct(free) && Distinct(queue)
    && (forall x :: x in free ==> x in slots && x !in queue)
    && (forall x :: x in queue ==> x in slots)
    && (forall t :: t in held ==> held[t].slot in slots && held[t].slot !in free && held[t].slot !in queue)
    && (forall t, u :: t in held && u in held && t != u ==> held[t].slot != held[u].slot)
    && |free| + |queue| + |held| == |slots|
  }

  lemma ClaimFree(slots: set<nat>, free: seq<nat>, queue: seq<nat>, held: map<nat, Hold>, tid: nat, h: Hold)
    requires Apart(slots, free, queue, held) && free != [] && tid !in held && h.slot == free[0]
    ensures Apart(slots, free[1..], queue, held[tid := h])
  {
    assert free == [free[0]] + free[1..];
    assert forall i :: 0 <= i < |free| - 1 ==> free[1..][i] == free[i + 1];
  }

  lemma ClaimFirst(slots: set<nat>, free: seq<nat>, queue: seq<nat>, held: map<nat, Hold>, tid: nat, h: Hold)
    requires Apart(slots, free, queue, held) && queue != [] && tid !in held && h.slot == queue[0]
    ensures Apart(slots, free, queue[1..], held[tid := h])
  {
    assert queue == [queue[0]] + queue[1..];
    assert forall i :: 0 <= i < |queue| - 1 ==> queue[1..][i] == queue[i + 1];
  }

  lemma OneLess(held: map<nat, Hold>, tid: nat)
    requires tid in held
    ensures |held - {tid}| == |held| - 1
  {
    assert held.Keys == (held - {tid}).Keys + {tid};
  }

  lemma GiveBack(slots: set<nat>, free: seq<nat>, queue: seq<nat>, held: map<nat, Hold>, tid: nat)
    requires Apart(slots, free, queue, held) && tid in held
    ensures Apart(slots, [held[tid].slot] + free, queue, held - {tid})
  {
    OneLess(held, tid);
  }

  lemma LinkUp(slots: set<nat>, free: seq<nat>, queue: seq<nat>, held: map<nat, Hold>, tid: nat)
    requires Apart(slots, free, queue, held) && tid in held
    ensures Apart(slots, free, [held[tid].slot] + queue, held - {tid})
    ensures Apart(slots, free, queue + [held[tid].slot], held - {tid})
  {
    OneLess(held, tid);
  }

  /** A held slot leaves room in the queue. */
  lemma RoomLeft(slots: set<nat>, free: seq<nat>, queue: seq<nat>, held: map<nat, Hold>, tid: nat)
    requires Apart(slots, free, queue, held) && tid in held
    ensures |queue| < |slots|
  {
    OneLess(held, tid);
  }

  lemma Restage(slots: set<nat>, free: seq<nat>, queue: seq<nat>, held: map<nat, Hold>, tid: nat, h: Hold)
    requires Apart(slots, free, queue, held) && tid in held && h.slot == held[tid].slot
    ensures Apart(slots, free, queue, held[tid := h])
  {
    assert held[tid := h].Keys == held.Keys;
  }

  lemma {:induction false} RecycleApart(slots: set<nat>, free: seq<nat>, queue: seq<nat>, held: map<nat, Hold>)
    requires Apart(slots, free, queue, held)
    ensures Apart(slots, Recycle(free, queue), [], held)
    ensures |Recycle(free, queue)| == |free| + |queue|
    decreases |queue|
  {
    if queue != [] {
      RecycleOne(slots, free, queue, held);
      RecycleApart(slots, [queue[0]] + free, queue[1..], held);
    }
  }

  lemma RecycleOne(slots: set<nat>, free: seq<nat>, queue: seq<nat>, held: map<nat, Hold>)
    requires Apart(slots, free, queue, held) && queue != []
    ensures Apart(slots, [queue[0]] + free, queue[1..], held)
  {
    var f, q := [queue[0]] + free, queue[1..];
    assert queue[0] in queue;
    assert forall x :: x in q ==> x in queue;
    assert forall i :: 0 < i < |f| ==> f[i] == free[i - 1] && free[i - 1] in free;
    assert forall i :: 0 <= i < |q| ==> q[i] == queue[i + 1];
    assert forall x :: x in f ==> x in free || x == queue[0];
  }

  function SlotsHeld(held: map<nat, Hold>): set<nat> {
    set t | t in held :: held[t].slot
  }

  lemma {:induction false} HeldCount(held: map<nat, Hold>)
    requires forall t, u :: t in held && u in held && t != u ==> held[t].slot != held[u].slot
    ensures |SlotsHeld(held)| == |held|
    decreases |held|
  {
    if held == map[] {
      assert SlotsHeld(held) == {};
    } else {
      var t :| t in held;
      var rest := held - {t};
      assert held.Keys == rest.Keys + {t};
      HeldCount(rest);
      assert SlotsHeld(held) == SlotsHeld(rest) + {held[t].slot};
    }
  }

  /** Conservation: every slot of the pool is in exactly one of the free list, the queue and the hands of one thread. */
  lemma EverySlotSomewhere(slots: set<nat>, free: seq<nat>, queue: seq<nat>, held: map<nat, Hold>, x: nat)
    requires Apart(slots, free, queue, held) && x in slots
    ensures x in free || x in queue || exists t :: t in held && held[t].slot == x
  {
    var f, q, h := Elements(free), Elements(queue), SlotsHeld(held);
    DistinctCount(free);
    DistinctCount(queue);
    HeldCount(held);
    assert f !! q && h !! (f + q);
    assert |f + q + h| == |slots|;
    if x !in f + q + h {
      SubsetCount(f + q + h, slots - {x});
      assert false;
    }
  }

  lemma {:induction false} SubsetCount(a: set<nat>, b: set<nat>)
    requires a <= b
    ensures |a| <= |b|
  {
    if a != {} {
      var x :| x in a;
      SubsetCount(a - {x}, b - {x});
    }
  }

  // ---- The invariant ----

  /** While receivers wait, every queued message has a woken receiver on its way; dually for free slots and senders. */
  ghost predicate NoLostWakeup(s: State) {
    && (s.receivers != [] ==> |s.queue| <= |Woken(s.resumedReceivers)|)
    && (s.senders != [] ==> |s.free| <= |Woken(s.resumedSenders)|)
  }

  ghost predicate Texts(s: State) {
    && (forall x :: x in s.slots ==> x in s.data && |s.data[x]| == s.msgSize)
    && (forall t :: t in s.held && s.held[t].Filling? ==> s.held[t].size <= s.msgSize)
  }

  /** In how many of its calls' stages a thread is. */
  function Stages(s: State, t: nat): nat {
    (if WaitsFor(s.receivers, t) then 1 else 0) + (if WaitsFor(s.senders, t) then 1 else 0)
    + (if t in s.resumedReceivers then 1 else 0) + (if t in s.resumedSenders then 1 else 0)
    + (if t in s.held then 1 else 0)
  }

  /** A thread waits, has been resumed or holds a slot, but no two of these. */
  ghost predicate OneStage(s: State) {
    forall t: nat :: Stages(s, t) <= 1
  }

  ghost predicate Core(s: State) {
    && |s.slots| <= ENTRY_MAX
    && Apart(s.slots, s.free, s.queue, s.held)
    && Texts(s)
    && Placed(s.receivers, s.resumedReceivers)
    && Placed(s.senders, s.resumedSenders)
    && NoLostWakeup(s)
  }

  ghost predicate Inv(s: State) {
    Core(s) && OneStage(s)
  }

  lemma WaitsForFront(q: seq<Waiter>, resumed: Resumed, t: nat)
    requires Placed(q, resumed) && q != []
    ensures WaitsFor(q[1..], t) <==> WaitsFor(q, t) && t != q[0].tid
    ensures WaitsFor(q, q[0].tid)
  {
    assert q == [q[0]] + q[1..];
    assert q[0] in q;
    FrontLeaves(q, resumed, Ok);
  }

  lemma WaitsForEnqueue(flag: Flag, q: seq<Waiter>, w: Waiter, t: nat)
    ensures WaitsFor(Enqueue(flag, q, w), t) <==> WaitsFor(q, t) || t == w.tid
  {
    assert w in Enqueue(flag, q, w);
  }

  /** No step lets a thread be in two stages. */
  lemma StepStages(s: State, c: Call, t: nat)
    requires Placed(s.receivers, s.resumedReceivers) && Placed(s.senders, s.resumedSenders)
    requires OneStage(s) && Enabled(s, c)
    ensures Stages(Step(s, c).0, t) <= 1
  {
    hide Placed, Unique, WaitsFor, Enqueue, Remove, ResumeAll;
    assert Stages(s, t) <= 1;
    match c
    case Send(_, _, _) => SendStages(s, c, t);
    case Resend(_, _, _) => SendStages(s, c, t);
    case Recv(_, _, _) => RecvStages(s, c, t);
    case Rerecv(_, _, _) => RecvStages(s, c, t);
    case Urgent(_, _) =>
    case Fill(_, _) =>
    case Copy(_) =>
    case Link(_) =>
      if s.receivers != [] {
        WaitsForFront(s.receivers, s.resumedReceivers, t);
      }
    case PutAway(_) =>
      if s.senders != [] {
        WaitsForFront(s.senders, s.resumedSenders, t);
      }
    case Abort(tid, _) => AbortStages(s, c, t);
    case Reset => ResetStages(s, t);
  }

  lemma SendStages(s: State, c: Call, t: nat)
    requires OneStage(s) && Enabled(s, c) && (c.Send? || c.Resend?)
    ensures Stages(Step(s, c).0, t) <= 1
  {
    hide WaitsFor, Enqueue;
    assert Stages(s, t) <= 1;
    WaitsForEnqueue(s.flag, s.senders, c.w, t);
  }

  lemma RecvStages(s: State, c: Call, t: nat)
    requires OneStage(s) && Enabled(s, c) && (c.Recv? || c.Rerecv?)
    ensures Stages(Step(s, c).0, t) <= 1
  {
    hide WaitsFor, Enqueue;
    assert Stages(s, t) <= 1;
    WaitsForEnqueue(s.flag, s.receivers, c.w, t);
  }

  lemma AbortStages(s: State, c: Call, t: nat)
    requires Placed(s.receivers, s.resumedReceivers) && Placed(s.senders, s.resumedSenders)
    requires Enabled(s, c) && c.Abort? && Stages(s, t) <= 1
    ensures Stages(Step(s, c).0, t) <= 1
  {
    RemoveMeaning(s.receivers, c.tid);
    RemoveMeaning(s.senders, c.tid);
  }

  lemma ResetStages(s: State, t: nat)
    requires Stages(s, t) <= 1
    ensures Stages(Step(s, Reset).0, t) <= 1
  {
    ResumeAllMeaning(s.resumedReceivers, s.receivers, t);
    ResumeAllMeaning(s.resumedSenders, s.senders, t);
  }

  lemma ClaimInv(s: State, tid: nat, urgent: bool, size: nat)
    requires s.free != [] && tid !in s.held && size <= s.msgSize
    requires |s.slots| <= ENTRY_MAX && Apart(s.slots, s.free, s.queue, s.held) && Texts(s)
    requires Placed(s.receivers, s.resumedReceivers) && Placed(s.senders, s.resumedSenders)
    requires s.receivers != [] ==> |s.queue| <= |Woken(s.resumedReceivers)|
    requires s.senders != [] ==> |s.free| - 1 <= |Woken(s.resumedSenders)|
    ensures Core(Claim(s, tid, urgent, size))
  {
    hide Apart, Placed;
    ClaimFree(s.slots, s.free, s.queue, s.held, tid, Filling(s.free[0], urgent, size));
  }

  lemma TakeInv(s: State, tid: nat, size: nat)
    requires s.queue != [] && tid !in s.held
    requires |s.slots| <= ENTRY_MAX && Apart(s.slots, s.free, s.queue, s.held) && Texts(s)
    requires Placed(s.receivers, s.resumedReceivers) && Placed(s.senders, s.resumedSenders)
    requires s.receivers != [] ==> |s.queue| - 1 <= |Woken(s.resumedReceivers)|
    requires s.senders != [] ==> |s.free| <= |Woken(s.resumedSenders)|
    ensures Core(s.(queue := s.queue[1..], held := s.held[tid := Taken(s.queue[0], size)]))
  {
    hide Apart, Placed;
    ClaimFirst(s.slots, s.free, s.queue, s.held, tid, Taken(s.queue[0], size));
  }

  lemma StageOf(s: State, t: nat)
    requires Inv(s)
    ensures t in s.resumedReceivers || t in s.resumedSenders ==> t !in s.held
  {
    assert Stages(s, t) <= 1;
  }

  lemma SendInv(s: State, c: Call)
    requires Inv(s) && Enabled(s, c) && (c.Send? || c.Resend?)
    ensures Core(Step(s, c).0)
  {
    hide Apart, Texts, OneStage;
    var w := c.w;
    StageOf(s, w.tid);
    if c.Send? {
      if c.size <= s.msgSize {
        if s.free != [] {
          ClaimInv(s, w.tid, false, c.size);
        } else if c.timeout != 0 {
          OneJoins(s.flag, s.senders, s.resumedSenders, w);
          TextsOnly(s, Step(s, c).0);
        }
      }
    } else {
      var t := s.(resumedSenders := s.resumedSenders - {w.tid});
      Rerun(s.resumedSenders, w.tid);
      TextsOnly(s, t);
      if s.resumedSenders[w.tid] == Ok {
        if s.free != [] {
          ClaimInv(t, w.tid, false, c.size);
        } else if c.timeout != 0 {
          ResumedDoesNotWait(s.senders, s.resumedSenders, w.tid);
          OneJoins(s.flag, s.senders, t.resumedSenders, w);
          TextsOnly(s, Step(s, c).0);
        }
      }
    }
  }

  lemma RecvInv(s: State, c: Call)
    requires Inv(s) && Enabled(s, c) && (c.Recv? || c.Rerecv?)
    ensures Core(Step(s, c).0)
  {
    hide Apart, Texts, OneStage;
    var w := c.w;
    StageOf(s, w.tid);
    if c.Recv? {
      if s.queue != [] {
        TakeInv(s, w.tid, c.size);
      } else if c.timeout != 0 {
        OneJoins(s.flag, s.receivers, s.resumedReceivers, w);
        TextsOnly(s, Step(s, c).0);
      }
    } else {
      var t := s.(resumedReceivers := s.resumedReceivers - {w.tid});
      Rerun(s.resumedReceivers, w.tid);
      TextsOnly(s, t);
      if s.resumedReceivers[w.tid] == Ok {
        if s.queue != [] {
          TakeInv(t, w.tid, c.size);
        } else if c.timeout != 0 {
          ResumedDoesNotWait(s.receivers, s.resumedReceivers, w.tid);
          OneJoins(s.flag, s.receivers, t.resumedReceivers, w);
          TextsOnly(s, Step(s, c).0);
        }
      }
    }
  }

  lemma TextsOnly(s: State, t: State)
    requires Texts(s) && t.slots == s.slots && t.data == s.data && t.held == s.held && t.msgSize == s.msgSize
    ensures Texts(t)
  {
  }

  lemma TextsLess(s: State, t: State, tid: nat)
    requires Texts(s) && t.slots == s.slots && t.data == s.data && t.held == s.held - {tid} && t.msgSize == s.msgSize
    ensures Texts(t)
  {
  }

  lemma LinkInv(s: State, tid: nat)
    requires Inv(s) && Enabled(s, Link(tid))
    ensures Core(Step(s, Link(tid)).0)
  {
    hide Apart, Texts, Placed;
    LinkUp(s.slots, s.free, s.queue, s.held, tid);
    TextsLess(s, Step(s, Link(tid)).0, tid);
    if s.receivers != [] {
      FrontLeaves(s.receivers, s.resumedReceivers, Ok);
      WakeOne(s.resumedReceivers, s.receivers[0].tid);
    }
  }

  lemma PutAwayInv(s: State, tid: nat)
    requires Inv(s) && Enabled(s, PutAway(tid))
    ensures Core(Step(s, PutAway(tid)).0)
  {
    hide Apart, Texts, Placed;
    GiveBack(s.slots, s.free, s.queue, s.held, tid);
    TextsLess(s, Step(s, PutAway(tid)).0, tid);
    if s.senders != [] {
      FrontLeaves(s.senders, s.resumedSenders, Ok);
      WakeOne(s.resumedSenders, s.senders[0].tid);
    }
  }

  lemma AbortInv(s: State, tid: nat, err: Err)
    requires Inv(s) && Enabled(s, Abort(tid, err))
    ensures Core(Step(s, Abort(tid, err)).0)
  {
    hide Apart, Texts;
    TextsOnly(s, Step(s, Abort(tid, err)).0);
    if WaitsFor(s.receivers, tid) {
      OneLeaves(s.receivers, s.resumedReceivers, tid, err);
      WakeWithError(s.resumedReceivers, tid, err);
      RemoveMeaning(s.receivers, tid);
    } else {
      OneLeaves(s.senders, s.resumedSenders, tid, err);
      WakeWithError(s.resumedSenders, tid, err);
      RemoveMeaning(s.senders, tid);
    }
  }

  lemma StepCore(s: State, c: Call)
    requires Inv(s) && Enabled(s, c)
    ensures Core(Step(s, c).0)
  {
    hide Apart;
    match c
    case Send(_, _, _) => SendInv(s, c);
    case Resend(_, _, _) => SendInv(s, c);
    case Recv(_, _, _) => RecvInv(s, c);
    case Rerecv(_, _, _) => RecvInv(s, c);
    case Urgent(tid, size) =>
      if size <= s.msgSize && s.free != [] {
        ClaimInv(s, tid, true, size);
      }
    case Fill(tid, _) => Restage(s.slots, s.free, s.queue, s.held, tid, Filled(s.held[tid].slot, s.held[tid].urgent));
    case Copy(tid) => Restage(s.slots, s.free, s.queue, s.held, tid, Step(s, c).0.held[tid]);
    case Link(tid) => LinkInv(s, tid);
    case PutAway(tid) => PutAwayInv(s, tid);
    case Abort(tid, err) => AbortInv(s, tid, err);
    case Reset =>
      RecycleApart(s.slots, s.free, s.queue, s.held);
      TextsOnly(s, Step(s, Reset).0);
  }

  lemma StepInv(s: State, c: Call)
    requires Inv(s) && Enabled(s, c)
    ensures Inv(Step(s, c).0)
  {
    StepCore(s, c);
    hide Step, Stages;
    forall t: nat
      ensures Stages(Step(s, c).0, t) <= 1
    {
      StepStages(s, c, t);
    }
  }

  // ---- Runs ----

  function Next(s: State, c: Call): State {
    if Enabled(s, c) then Step(s, c).0 else s
  }

  function Run(s: State, calls: seq<Call>): State
    decreases |calls|
  {
    if calls == [] then s else Run(Next(s, calls[0]), calls[1..])
  }

  lemma NextInv(s: State, c: Call)
    requires Inv(s)
    ensures Inv(Next(s, c)) && Next(s, c).slots == s.slots
  {
    hide Inv;
    if Enabled(s, c) {
      StepInv(s, c);
    }
  }

  /** Slots are conserved and no wake-up is lost in any interleaving. */
  lemma {:induction false} RunInv(s: State, calls: seq<Call>)
    requires Inv(s)
    ensures Inv(Run(s, calls)) && Run(s, calls).slots == s.slots
    decreases |calls|
  {
    hide Next, Inv;
    if calls != [] {
      NextInv(s, calls[0]);
      RunInv(Next(s, calls[0]), calls[1..]);
    }
  }

  // ---- Messages over runs ----

  /** The texts of the queued messages, next one first. */
  function Queued(s: State): (q: seq<Text>)
    ensures |q| == |s.queue|
  {
    seq(|s.queue|, i requires 0 <= i < |s.queue| => TextIn(s, s.queue[i]))
  }

  /** What a step adds to the messages linked by normal sends. */
  function LinkedBy(s: State, c: Call): seq<Text> {
    if Enabled(s, c) && c.Link? then [TextIn(s, s.held[c.tid].slot)] else []
  }

  /** What a step adds to the messages unlinked by receivers. */
  function UnlinkedBy(s: State, c: Call): seq<Text> {
    if Enabled(s, c) && Step(s, c).1.Unlinked? then [TextIn(s, Step(s, c).1.slot)] else []
  }

  function LinkedTexts(s: State, calls: seq<Call>): seq<Text>
    decreases |calls|
  {
    if calls == [] then [] else LinkedBy(s, calls[0]) + LinkedTexts(Next(s, calls[0]), calls[1..])
  }

  function UnlinkedTexts(s: State, calls: seq<Call>): seq<Text>
    decreases |calls|
  {
    if calls == [] then [] else UnlinkedBy(s, calls[0]) + UnlinkedTexts(Next(s, calls[0]), calls[1..])
  }

  /** An urgent message goes to the front and everything else stays; a normal one goes to the end. */
  lemma LinkOrder(s: State, tid: nat)
    requires Enabled(s, Link(tid))
    ensures var t, text := Step(s, Link(tid)).0, TextIn(s, s.held[tid].slot);
      Queued(t) == if s.held[tid].urgent then [text] + Queued(s) else Queued(s) + [text]
  {
  }

  lemma FillKeepsQueue(s: State, tid: nat, text: Text)
    requires Inv(s) && Enabled(s, Fill(tid, text))
    ensures Queued(Step(s, Fill(tid, text)).0) == Queued(s)
  {
    assert forall i :: 0 <= i < |s.queue| ==> s.queue[i] in s.queue;
  }

  ghost predicate NoUrgent(s: State) {
    forall t :: t in s.held && (s.held[t].Filling? || s.held[t].Filled?) ==> !s.held[t].urgent
  }

  lemma NotUrgent(s: State, c: Call)
    requires NoUrgent(s)
    ensures Enabled(s, c) && c.Link? ==> !s.held[c.tid].urgent
  {
  }

  lemma NoUrgentStep(s: State, c: Call)
    requires NoUrgent(s) && !c.Urgent?
    ensures NoUrgent(Next(s, c))
  {
    hide WaitsFor, TextIn, Overwrite, Prefix, Recycle, ResumeAll, Remove, Enqueue;
  }

  lemma StepOrder(s: State, c: Call)
    requires Inv(s) && !c.Reset? && (Enabled(s, c) && c.Link? ==> !s.held[c.tid].urgent)
    ensures Queued(s) + LinkedBy(s, c) == UnlinkedBy(s, c) + Queued(Next(s, c))
  {
    hide Inv, WaitsFor, TextIn, Overwrite, Prefix, Recycle, ResumeAll, Remove, Enqueue, Queued;
    if Enabled(s, c) {
      if c.Link? {
        LinkOrder(s, c.tid);
      } else if c.Fill? {
        FillKeepsQueue(s, c.tid, c.text);
      } else if c.Recv? || c.Rerecv? {
        UnlinkOrder(s, c);
      } else {
        TextStays(s, c);
        QueueStays(s, c);
        SameTexts(s, Next(s, c));
      }
    }
  }

  lemma QueueStays(s: State, c: Call)
    requires !c.Link? && !c.Recv? && !c.Rerecv? && !c.Reset?
    ensures Next(s, c).queue == s.queue
    ensures Enabled(s, c) ==> !Step(s, c).1.Unlinked?
  {
    hide WaitsFor, TextIn, Overwrite, Prefix, Recycle, ResumeAll, Remove, Enqueue;
  }

  lemma SameTexts(s: State, t: State)
    requires t.queue == s.queue && t.data == s.data
    ensures Queued(t) == Queued(s)
  {
  }

  lemma RecvPassOrder(s: State, w: Waiter, size: nat, timeout: int)
    ensures var (t, r) := RecvPass(s, w, size, timeout);
      Queued(s) == (if r.Unlinked? then [TextIn(s, r.slot)] else []) + Queued(t)
  {
    hide Enqueue;
    if s.queue != [] {
      assert s.queue == [s.queue[0]] + s.queue[1..];
    }
  }

  lemma UnlinkOrder(s: State, c: Call)
    requires Enabled(s, c) && (c.Recv? || c.Rerecv?)
    ensures Queued(s) == UnlinkedBy(s, c) + Queued(Step(s, c).0)
  {
    hide WaitsFor, RecvPass, Queued;
    if c.Recv? {
      RecvPassOrder(s, c.w, c.size, c.timeout);
    } else {
      var t := s.(resumedReceivers := s.resumedReceivers - {c.w.tid});
      SameTexts(s, t);
      RecvPassOrder(t, c.w, c.size, c.timeout);
    }
  }

  /**
   Without urgent sends and resets, messages come out in the order in which they
   were linked, each exactly once, or are still queued; no unlocked copy disturbs a
   queued message.
   */
  lemma {:induction false} FirstInFirstOut(s: State, calls: seq<Call>)
    requires Inv(s) && NoUrgent(s)
    requires forall i :: 0 <= i < |calls| ==> !calls[i].Urgent? && !calls[i].Reset?
    ensures Queued(s) + LinkedTexts(s, calls) == UnlinkedTexts(s, calls) + Queued(Run(s, calls))
    decreases |calls|
  {
    hide Inv, NoUrgent, Next, Queued, LinkedBy, UnlinkedBy;
    if calls == [] {
      assert Queued(s) + [] == Queued(s);
    } else {
      var c, t := calls[0], Next(s, calls[0]);
      NotUrgent(s, c);
      StepOrder(s, c);
      NoUrgentStep(s, c);
      NextInv(s, c);
      FirstInFirstOut(t, calls[1..]);
      JoinMoves(Queued(s), LinkedBy(s, c), LinkedTexts(t, calls[1..]), UnlinkedBy(s, c), Queued(t),
                UnlinkedTexts(t, calls[1..]), Queued(Run(t, calls[1..])));
    }
  }

  lemma StepExactlyOnce(s: State, c: Call)
    requires Inv(s) && !c.Reset?
    ensures multiset(Queued(s)) + multiset(LinkedBy(s, c)) == multiset(UnlinkedBy(s, c)) + multiset(Queued(Next(s, c)))
  {
    hide Inv, Queued, WaitsFor;
    if Enabled(s, c) && c.Link? && s.held[c.tid].urgent {
      LinkOrder(s, c.tid);
      var text := TextIn(s, s.held[c.tid].slot);
      assert multiset([text] + Queued(s)) == multiset([text]) + multiset(Queued(s));
    } else {
      StepOrder(s, c);
      SameUnion(Queued(s), LinkedBy(s, c), UnlinkedBy(s, c), Queued(Next(s, c)));
    }
  }

  /** Urgent or not, without resets every message that was linked comes out exactly once or is still queued. */
  lemma {:induction false} ExactlyOnce(s: State, calls: seq<Call>)
    requires Inv(s) && forall i :: 0 <= i < |calls| ==> !calls[i].Reset?
    ensures multiset(Queued(s)) + multiset(LinkedTexts(s, calls))
      == multiset(UnlinkedTexts(s, calls)) + multiset(Queued(Run(s, calls)))
    decreases |calls|
  {
    hide Inv, Next, Queued, LinkedBy, UnlinkedBy;
    if calls != [] {
      var c, t := calls[0], Next(s, calls[0]);
      StepExactlyOnce(s, c);
      NextInv(s, c);
      ExactlyOnce(t, calls[1..]);
      var l, u := LinkedTexts(t, calls[1..]), UnlinkedTexts(t, calls[1..]);
      assert multiset(LinkedBy(s, c) + l) == multiset(LinkedBy(s, c)) + multiset(l);
      assert multiset(UnlinkedBy(s, c) + u) == multiset(UnlinkedBy(s, c)) + multiset(u);
      assert LinkedTexts(s, calls) == LinkedBy(s, c) + l && UnlinkedTexts(s, calls) == UnlinkedBy(s, c) + u;
      Rearrange(multiset(Queued(s)), multiset(LinkedBy(s, c)), multiset(l), multiset(UnlinkedBy(s, c)), multiset(u),
                multiset(Queued(t)), multiset(Queued(Run(t, calls[1..]))));
    }
  }

  // ---- Normal messages among urgent ones ----

  /** What a step does to the queue. */
  function OpOf(s: State, c: Call): Lanes.Op<Text> {
    if LinkedBy(s, c) != [] then
      (if s.held[c.tid].urgent then Lanes.Front(LinkedBy(s, c)[0]) else Lanes.Back(LinkedBy(s, c)[0]))
    else if UnlinkedBy(s, c) != [] then Lanes.Pop
    else Lanes.Keep
  }

  function Ops(s: State, calls: seq<Call>): seq<Lanes.Op<Text>>
    decreases |calls|
  {
    if calls == [] then [] else [OpOf(s, calls[0])] + Ops(Next(s, calls[0]), calls[1..])
  }

  /** By which kind of call each thread claimed the slot it is about to link: true for an urgent one. */
  type Claims = map<nat, bool>

  function Claimant(c: Call): nat
    requires c.Send? || c.Resend? || c.Urgent?
  {
    if c.Urgent? then c.tid else c.w.tid
  }

  /** A send of any kind that gets a slot. */
  predicate GetsSlot(s: State, c: Call) {
    Enabled(s, c) && (c.Send? || c.Resend? || c.Urgent?) && Claimant(c) in Next(s, c).held
  }

  function ClaimsAfter(s: State, m: Claims, c: Call): Claims {
    if GetsSlot(s, c) then m[Claimant(c) := c.Urgent?] else m
  }

  /** The flag kept with a slot says which kind of call claimed it. */
  ghost predicate Flagged(s: State, m: Claims) {
    forall t :: t in s.held && (s.held[t].Filling? || s.held[t].Filled?) ==> t in m && m[t] == s.held[t].urgent
  }

  lemma StepFlagged(s: State, m: Claims, c: Call)
    requires OneStage(s) && Flagged(s, m)
    ensures Flagged(Next(s, c), ClaimsAfter(s, m, c))
  {
    hide OneStage, Next, GetsSlot;
    forall t | t in Next(s, c).held && (Next(s, c).held[t].Filling? || Next(s, c).held[t].Filled?)
      ensures t in ClaimsAfter(s, m, c) && ClaimsAfter(s, m, c)[t] == Next(s, c).held[t].urgent
    {
      FlagOf(s, c, t);
    }
  }

  /** Where the flag of a slot comes from: the call that claims it, or the slot as it was. */
  lemma FlagOf(s: State, c: Call, t: nat)
    requires OneStage(s) && t in Next(s, c).held && (Next(s, c).held[t].Filling? || Next(s, c).held[t].Filled?)
    ensures if GetsSlot(s, c) && t == Claimant(c) then Next(s, c).held[t].urgent == c.Urgent?
      else t in s.held && (s.held[t].Filling? || s.held[t].Filled?) && Next(s, c).held[t].urgent == s.held[t].urgent
  {
    hide OneStage, Next, GetsSlot;
    if c.Send? || c.Resend? || c.Urgent? {
      FlagOfClaim(s, c, t);
    } else {
      FlagOfOther(s, c, t);
    }
  }

  lemma FlagOfClaim(s: State, c: Call, t: nat)
    requires OneStage(s) && t in Next(s, c).held && (Next(s, c).held[t].Filling? || Next(s, c).held[t].Filled?)
    requires c.Send? || c.Resend? || c.Urgent?
    ensures if GetsSlot(s, c) && t == Claimant(c) then Next(s, c).held[t].urgent == c.Urgent?
      else t in s.held && Next(s, c).held[t] == s.held[t]
  {
    hide WaitsFor, Enqueue, OneStage;
    if Enabled(s, c) {
      HoldsNothing(s, c);
    }
  }

  lemma HoldsNothing(s: State, c: Call)
    requires OneStage(s) && Enabled(s, c) && (c.Send? || c.Resend? || c.Urgent?)
    ensures Claimant(c) !in s.held
  {
    assert Stages(s, Claimant(c)) <= 1;
  }

  lemma FlagOfOther(s: State, c: Call, t: nat)
    requires t in Next(s, c).held && (Next(s, c).held[t].Filling? || Next(s, c).held[t].Filled?)
    requires !c.Send? && !c.Resend? && !c.Urgent?
    ensures !GetsSlot(s, c)
    ensures t in s.held && (s.held[t].Filling? || s.held[t].Filled?) && Next(s, c).held[t].urgent == s.held[t].urgent
  {
    hide WaitsFor, TextIn, Overwrite, Prefix, Recycle, ResumeAll, Remove, Enqueue;
  }

  function NormalBy(s: State, m: Claims, c: Call): seq<Text> {
    if c.Link? && c.tid in m && m[c.tid] then [] else LinkedBy(s, c)
  }

  /** The messages whose slots were claimed by normal sends, in the order in which they are linked. */
  function NormalTexts(s: State, m: Claims, calls: seq<Call>): seq<Text>
    decreases |calls|
  {
    if calls == [] then []
    else NormalBy(s, m, calls[0]) + NormalTexts(Next(s, calls[0]), ClaimsAfter(s, m, calls[0]), calls[1..])
  }

  /** At which end a step adds to the queue or takes from it. */
  lemma StepEnds(s: State, c: Call)
    requires Inv(s) && !c.Reset?
    ensures LinkedBy(s, c) != [] ==> c.tid in s.held && UnlinkedBy(s, c) == [] && |LinkedBy(s, c)| == 1
    ensures |UnlinkedBy(s, c)| <= 1
    ensures LinkedBy(s, c) != [] ==>
      Queued(Next(s, c)) == if s.held[c.tid].urgent then LinkedBy(s, c) + Queued(s) else Queued(s) + LinkedBy(s, c)
    ensures LinkedBy(s, c) == [] ==> Queued(s) == UnlinkedBy(s, c) + Queued(Next(s, c))
  {
    hide Inv, Queued, Step, WaitsFor, TextIn;
    OneMoved(s, c);
    if LinkedBy(s, c) != [] && s.held[c.tid].urgent {
      LinkOrder(s, c.tid);
    } else {
      StepOrder(s, c);
      assert Queued(s) + [] == Queued(s) && [] + Queued(Next(s, c)) == Queued(Next(s, c));
    }
  }

  lemma OneMoved(s: State, c: Call)
    ensures |LinkedBy(s, c)| <= 1 && |UnlinkedBy(s, c)| <= 1
    ensures LinkedBy(s, c) != [] ==> UnlinkedBy(s, c) == [] && Enabled(s, c) && c.Link? && c.tid in s.held
    ensures LinkedBy(s, c) == [] ==> !(Enabled(s, c) && c.Link?)
  {
    hide WaitsFor, TextIn, Overwrite, Prefix, Recycle, ResumeAll, Remove, Enqueue;
  }

  lemma StepRefines(s: State, c: Call, l: Lanes.Lanes<Text>)
    requires Inv(s) && !c.Reset? && Queued(s) == Lanes.Whole(l)
    ensures Queued(Next(s, c)) == Lanes.Whole(Lanes.Apply(l, OpOf(s, c)))
    ensures UnlinkedBy(s, c) == Lanes.Values(Lanes.TakenBy(l, OpOf(s, c)))
  {
    hide Inv, Queued, Next, LinkedBy, UnlinkedBy, Lanes.Whole, Lanes.Apply, Lanes.TakenBy;
    StepEnds(s, c);
    match OpOf(s, c)
    case Back(v) => Lanes.AddedTo(l, v);
    case Front(v) => Lanes.AddedTo(l, v);
    case Pop =>
      assert UnlinkedBy(s, c) == [UnlinkedBy(s, c)[0]];
      Lanes.TakenFrom(l, UnlinkedBy(s, c)[0], Queued(Next(s, c)));
    case Keep => Lanes.NothingMoves(l);
  }

  /** A run moves the messages as the lanes do. */
  lemma {:induction false} RunRefines(s: State, m: Claims, calls: seq<Call>, l: Lanes.Lanes<Text>)
    requires Inv(s) && Flagged(s, m) && Queued(s) == Lanes.Whole(l)
    requires forall i :: 0 <= i < |calls| ==> !calls[i].Reset?
    ensures Queued(Run(s, calls)) == Lanes.Whole(Lanes.ApplyAll(l, Ops(s, calls)))
    ensures UnlinkedTexts(s, calls) == Lanes.Values(Lanes.TakenByAll(l, Ops(s, calls)))
    ensures NormalTexts(s, m, calls) == Lanes.Backs(Ops(s, calls))
    decreases |calls|
  {
    hide Inv, Flagged, Queued, Next, OpOf, NormalBy, ClaimsAfter, UnlinkedBy, Lanes.Apply, Lanes.TakenBy, Lanes.Whole;
    if calls != [] {
      var c, rest := calls[0], calls[1..];
      var t, o := Next(s, c), OpOf(s, c);
      StepRefines(s, c, l);
      NextInv(s, c);
      StepFlagged(s, m, c) by {
        InvStage(s);
      }
      RunRefines(t, ClaimsAfter(s, m, c), rest, Lanes.Apply(l, o));
      Lanes.ValuesJoin(Lanes.TakenBy(l, o), Lanes.TakenByAll(Lanes.Apply(l, o), Ops(t, rest)));
      assert Ops(s, calls)[1..] == Ops(t, rest);
      NormalGoesBack(s, m, c);
    }
  }

  lemma InvStage(s: State)
    requires Inv(s)
    ensures OneStage(s)
  {
  }

  /** What goes to the end of the queue is what a normal send claimed its slot for. */
  lemma NormalGoesBack(s: State, m: Claims, c: Call)
    requires Flagged(s, m)
    ensures NormalBy(s, m, c) == Lanes.BackOf(OpOf(s, c))
  {
    hide UnlinkedBy, TextIn;
    OneMoved(s, c);
  }

  /**
   In every run without resets, urgent messages in between or not, the messages of normal sends come
   out in the order in which they were linked, each exactly once, or are still queued. `urgent` and `normal` are
   what is queued at the start, `out` is what comes out with a mark of what it was, and `end` what is left.
   */
  lemma NormalsInOrder(s: State, m: Claims, calls: seq<Call>, urgent: seq<Text>, normal: seq<Text>)
    returns (out: seq<Lanes.Item<Text>>, end: Lanes.Lanes<Text>)
    requires Inv(s) && Flagged(s, m) && Queued(s) == urgent + normal
    requires forall i :: 0 <= i < |calls| ==> !calls[i].Reset?
    ensures UnlinkedTexts(s, calls) == Lanes.Values(out) && Queued(Run(s, calls)) == Lanes.Whole(end)
    ensures normal + NormalTexts(s, m, calls) == Lanes.Normals(out) + end.normal
    ensures out == Lanes.TakenByAll(Lanes.Lanes(urgent, normal), Ops(s, calls))
  {
    hide Inv, Flagged, Queued;
    var l := Lanes.Lanes(urgent, normal);
    RunRefines(s, m, calls, l);
    Lanes.InOrder(l, Ops(s, calls));
    out, end := Lanes.TakenByAll(l, Ops(s, calls)), Lanes.ApplyAll(l, Ops(s, calls));
  }

  /**
   Once every woken thread has run, nobody waits in vain: receivers wait only on an
   empty queue, senders only when no slot is free.
   */
  lemma QuiescentWaiting(s: State, calls: seq<Call>)
    requires Inv(s) && Woken(Run(s, calls).resumedReceivers) == {} && Woken(Run(s, calls).resumedSenders) == {}
    ensures Run(s, calls).receivers != [] ==> Run(s, calls).queue == []
    ensures Run(s, calls).senders != [] ==>
      Run(s, calls).free == [] && |Run(s, calls).queue| + |Run(s, calls).held| == |s.slots|
  {
    RunInv(s, calls);
  }

  /** Whose call a step is, if it works on a held slot. */
  function Actor(c: Call): set<nat> {
    if c.Fill? || c.Link? || c.Copy? || c.PutAway? then {c.tid} else {}
  }

  lemma HoldStays(s: State, c: Call, tid: nat)
    requires OneStage(s) && tid in s.held && tid !in Actor(c)
    ensures tid in Next(s, c).held && Next(s, c).held[tid] == s.held[tid]
  {
    hide WaitsFor, ResumeAll, Remove, Enqueue, Recycle, Overwrite, Prefix, TextIn;
    assert Stages(s, tid) <= 1;
  }

  lemma HeldStep(s: State, c: Call, tid: nat)
    requires Inv(s) && tid in s.held && tid !in Actor(c)
    ensures tid in Next(s, c).held && Next(s, c).held[tid] == s.held[tid]
    ensures TextIn(Next(s, c), s.held[tid].slot) == TextIn(s, s.held[tid].slot)
    ensures Next(s, c).msgSize == s.msgSize
  {
    hide Apart, Texts, Placed, NoLostWakeup, OneStage, Step, Enabled;
    HoldStays(s, c, tid);
    NextSize(s, c);
    if c.Fill? {
      if Enabled(s, c) {
        FillElsewhere(s, c, tid);
      }
    } else {
      TextStays(s, c);
    }
  }

  lemma FillElsewhere(s: State, c: Call, tid: nat)
    requires Apart(s.slots, s.free, s.queue, s.held) && Enabled(s, c) && c.Fill? && tid in s.held && tid != c.tid
    ensures TextIn(Next(s, c), s.held[tid].slot) == TextIn(s, s.held[tid].slot)
  {
    hide Apart, Overwrite;
    OthersSlot(s, c.tid, tid);
  }

  lemma OthersSlot(s: State, t: nat, u: nat)
    requires Apart(s.slots, s.free, s.queue, s.held) && t in s.held && u in s.held && t != u
    ensures s.held[t].slot != s.held[u].slot
  {
  }

  /** While a thread works on its slot, no interleaving of the others changes the slot or its text. */
  lemma {:induction false} HeldSlotIsPrivate(s: State, calls: seq<Call>, tid: nat)
    requires Inv(s) && tid in s.held
    requires forall i :: 0 <= i < |calls| ==> tid !in Actor(calls[i])
    ensures tid in Run(s, calls).held && Run(s, calls).held[tid] == s.held[tid]
    ensures TextIn(Run(s, calls), s.held[tid].slot) == TextIn(s, s.held[tid].slot)
    ensures Run(s, calls).msgSize == s.msgSize
    decreases |calls|
  {
    hide Inv, Next, TextIn, Actor;
    if calls != [] {
      HeldStep(s, calls[0], tid);
      NextInv(s, calls[0]);
      HeldSlotIsPrivate(Next(s, calls[0]), calls[1..], tid);
    }
  }

  /** A step in which a receiver unlinks a slot: the first pass, or a later one after waiting. */
  predicate Takes(s: State, c: Call) {
    Enabled(s, c) && (c.Recv? || c.Rerecv?) && Step(s, c).1.Unlinked?
  }

  lemma RecvTakes(s: State, c: Call)
    requires Inv(s) && Takes(s, c)
    ensures var t := Step(s, c).0;
      && s.queue != [] && Inv(t) && c.w.tid in t.held && t.held[c.w.tid] == Taken(s.queue[0], c.size)
      && t.msgSize == s.msgSize
      && TextIn(t, s.queue[0]) == Queued(s)[0] && |Queued(s)[0]| == s.msgSize
      && UnlinkedBy(s, c) == [Queued(s)[0]]
  {
    hide Apart, Placed, NoLostWakeup, OneStage;
    StepInv(s, c);
    assert s.queue[0] in s.slots by {
      QueueInSlots(s.slots, s.free, s.queue, s.held);
    }
  }

  lemma QueueInSlots(slots: set<nat>, free: seq<nat>, queue: seq<nat>, held: map<nat, Hold>)
    requires Apart(slots, free, queue, held) && queue != []
    ensures queue[0] in slots
  {
    assert queue[0] in queue;
  }

  lemma CopyThenPutAway(s: State, tid: nat, slot: nat, size: nat)
    requires tid in s.held && s.held[tid] == Taken(slot, size) && |TextIn(s, slot)| == s.msgSize
    ensures Enabled(s, Copy(tid)) && Enabled(Step(s, Copy(tid)).0, PutAway(tid))
    ensures Step(Step(s, Copy(tid)).0, PutAway(tid)).1
      == Got(tid, TextIn(s, slot)[..if size > s.msgSize then s.msgSize else size])
  {
  }

  /**
   A receiver that asks for `size` bytes gets the first min(size, msgSize) bytes of the message
   that was first in the queue when it unlinked it, whether it had waited or not and whatever
   ran between its two regions.
   */
  lemma ReceivedText(s: State, c: Call, calls: seq<Call>)
    requires Inv(s) && Takes(s, c)
    requires forall i :: 0 <= i < |calls| ==> c.w.tid !in Actor(calls[i])
    ensures var t := Run(Step(s, c).0, calls);
      && Enabled(t, Copy(c.w.tid)) && Enabled(Step(t, Copy(c.w.tid)).0, PutAway(c.w.tid))
      && s.queue != [] && |Queued(s)[0]| == s.msgSize
      && Step(Step(t, Copy(c.w.tid)).0, PutAway(c.w.tid)).1
        == Got(c.w.tid, Queued(s)[0][..if c.size > s.msgSize then s.msgSize else c.size])
  {
    hide Run, Inv, Step, Enabled, Queued, TextIn, Actor;
    var s' := Step(s, c).0;
    RecvTakes(s, c);
    HeldSlotIsPrivate(s', calls, c.w.tid);
    CopyThenPutAway(Run(s', calls), c.w.tid, s.queue[0], c.size);
  }

  /** A message of `size` bytes is queued as those bytes followed by what the slot held before. */
  lemma SentText(s: State, tid: nat, text: Text, calls: seq<Call>)
    requires Inv(s) && Enabled(s, Fill(tid, text))
    requires forall i :: 0 <= i < |calls| ==> tid !in Actor(calls[i])
    ensures var t := Run(Step(s, Fill(tid, text)).0, calls);
      && Enabled(t, Link(tid)) && |TextIn(t, t.held[tid].slot)| == s.msgSize
      && text <= TextIn(t, t.held[tid].slot)
      && LinkedBy(t, Link(tid)) == [TextIn(t, t.held[tid].slot)]
  {
    StepInv(s, Fill(tid, text));
    HeldSlotIsPrivate(Step(s, Fill(tid, text)).0, calls, tid);
  }

  // ---- From the sender's buffer to the receiver's ----

  /** The texts that threads have put into the slots they are about to link. */
  type Pending = map<nat, Text>

  function PendingAfter(s: State, p: Pending, c: Call): Pending {
    if Enabled(s, c) && c.Fill? then p[c.tid := c.text] else p
  }

  /** Every filled slot starts with the text its thread has put there. */
  ghost predicate Agrees(s: State, p: Pending) {
    forall t :: t in s.held && s.held[t].Filled? ==> t in p && p[t] <= TextIn(s, s.held[t].slot)
  }

  /** What a step sends: the text its thread passed to Fill. */
  function SentBy(s: State, p: Pending, c: Call): seq<Text> {
    if Enabled(s, c) && c.Link? && c.tid in p then [p[c.tid]] else []
  }

  /** The texts that were passed to Fill, in the order in which they were linked. */
  function SentTexts(s: State, p: Pending, calls: seq<Call>): seq<Text>
    decreases |calls|
  {
    if calls == [] then []
    else SentBy(s, p, calls[0]) + SentTexts(Next(s, calls[0]), PendingAfter(s, p, calls[0]), calls[1..])
  }

  lemma FillAgrees(s: State, p: Pending, c: Call)
    requires Inv(s) && Agrees(s, p) && Enabled(s, c) && c.Fill?
    ensures Agrees(Next(s, c), PendingAfter(s, p, c))
  {
    hide Apart, Texts, Placed, NoLostWakeup, OneStage;
    var u := Next(s, c);
    forall t | t in u.held && u.held[t].Filled?
      ensures t in PendingAfter(s, p, c) && PendingAfter(s, p, c)[t] <= TextIn(u, u.held[t].slot)
    {
      if t != c.tid {
        OthersSlot(s, c.tid, t);
      }
    }
  }

  /** Only Fill fills a slot and changes a text. */
  lemma FilledStays(s: State, c: Call, t: nat)
    requires !c.Fill? && Enabled(s, c) && t in Next(s, c).held && Next(s, c).held[t].Filled?
    ensures t in s.held && s.held[t] == Next(s, c).held[t]
  {
    hide WaitsFor, TextIn, Overwrite, Prefix, Recycle, ResumeAll, Remove, Enqueue;
  }

  lemma TextStays(s: State, c: Call)
    requires !c.Fill?
    ensures Next(s, c).data == s.data
  {
    hide WaitsFor, TextIn, Overwrite, Prefix, Recycle, ResumeAll, Remove, Enqueue;
  }

  lemma StepAgrees(s: State, p: Pending, c: Call)
    requires Inv(s) && Agrees(s, p)
    ensures Agrees(Next(s, c), PendingAfter(s, p, c))
  {
    hide Inv, Enabled, Step;
    var u := Next(s, c);
    if Enabled(s, c) {
      if c.Fill? {
        FillAgrees(s, p, c);
      } else {
        TextStays(s, c);
        forall t | t in u.held && u.held[t].Filled?
          ensures t in p && p[t] <= TextIn(u, u.held[t].slot)
        {
          FilledStays(s, c, t);
        }
      }
    }
  }

  /** Message by message, what is linked starts with what was passed to Fill. */
  ghost predicate Begin(a: seq<Text>, b: seq<Text>) {
    |a| == |b| && forall k :: 0 <= k < |a| ==> a[k] <= b[k]
  }

  lemma StepBegins(s: State, p: Pending, c: Call)
    requires Agrees(s, p)
    ensures Begin(SentBy(s, p, c), LinkedBy(s, c))
  {
  }

  lemma BeginJoined(a: seq<Text>, b: seq<Text>, c: seq<Text>, d: seq<Text>)
    requires Begin(a, b) && Begin(c, d)
    ensures Begin(a + c, b + d)
  {
  }

  lemma {:induction false} SentBegins(s: State, p: Pending, calls: seq<Call>)
    requires Inv(s) && Agrees(s, p)
    ensures Begin(SentTexts(s, p, calls), LinkedTexts(s, calls))
    decreases |calls|
  {
    hide Inv, Agrees, Next, PendingAfter, SentBy, LinkedBy;
    if calls != [] {
      var c := calls[0];
      StepBegins(s, p, c);
      StepAgrees(s, p, c);
      NextInv(s, c);
      SentBegins(Next(s, c), PendingAfter(s, p, c), calls[1..]);
      BeginJoined(SentBy(s, p, c), LinkedBy(s, c),
                  SentTexts(Next(s, c), PendingAfter(s, p, c), calls[1..]), LinkedTexts(Next(s, c), calls[1..]));
    }
  }

  /** Before the k-th message is unlinked it is at the front of the queue and starts with the k-th text sent. */
  lemma NextIsSent(s: State, calls: seq<Call>)
    requires Inv(s) && s.queue == [] && s.held == map[] && Run(s, calls).queue != []
    requires forall i :: 0 <= i < |calls| ==> !calls[i].Urgent? && !calls[i].Reset?
    ensures var k, sent := |UnlinkedTexts(s, calls)|, SentTexts(s, map[], calls);
      k < |sent| && sent[k] <= Queued(Run(s, calls))[0]
  {
    hide Inv, LinkedTexts, UnlinkedTexts, Run;
    FirstInFirstOut(s, calls);
    SentBegins(s, map[], calls);
    assert Queued(s) + LinkedTexts(s, calls) == LinkedTexts(s, calls);
    var k := |UnlinkedTexts(s, calls)|;
    assert LinkedTexts(s, calls)[k] == Queued(Run(s, calls))[0];
  }

  /** Two prefixes of one text agree as far as the shorter goes. */
  lemma PrefixesAgree(a: Text, n: nat, x: Text)
    requires a <= x && n <= |x|
    ensures if |a| <= n then a <= x[..n] else x[..n] <= a
  {
  }

  /**
   End to end: from an idle queue, without urgent sends and resets, the k-th message taken is the
   k-th one linked, and the receiver's bytes are those passed to Fill as far as both go, whatever
   ran while either of them copied.
   */
  lemma EndToEnd(s: State, calls: seq<Call>, c: Call, later: seq<Call>)
    requires Inv(s) && s.queue == [] && s.held == map[]
    requires forall i :: 0 <= i < |calls| ==> !calls[i].Urgent? && !calls[i].Reset?
    requires Takes(Run(s, calls), c) && forall i :: 0 <= i < |later| ==> c.w.tid !in Actor(later[i])
    ensures var k, sent := |UnlinkedTexts(s, calls)|, SentTexts(s, map[], calls);
      var t := Run(Step(Run(s, calls), c).0, later);
      && k < |sent| && Enabled(t, Copy(c.w.tid)) && Enabled(Step(t, Copy(c.w.tid)).0, PutAway(c.w.tid))
      && var r := Step(Step(t, Copy(c.w.tid)).0, PutAway(c.w.tid)).1;
      && r.Got? && r.tid == c.w.tid && |r.text| == (if c.size > s.msgSize then s.msgSize else c.size)
      && (if |sent[k]| <= |r.text| then sent[k] <= r.text else r.text <= sent[k])
  {
    hide Inv, Step, Enabled, Actor, Queued, UnlinkedTexts, SentTexts, Run;
    var t := Run(s, calls);
    RunInv(s, calls);
    RunSize(s, calls);
    ReceivedText(t, c, later);
    NextIsSent(s, calls);
    var n := if c.size > s.msgSize then s.msgSize else c.size;
    PrefixesAgree(SentTexts(s, map[], calls)[|UnlinkedTexts(s, calls)|], n, Queued(t)[0]);
  }

  // ---- From the call to the place in the queue ----

  lemma ClaimedSlot(s: State, c: Call)
    requires Inv(s) && GetsSlot(s, c)
    ensures var t := Step(s, c).0;
      Inv(t) && t.held[Claimant(c)].Filling? && t.held[Claimant(c)].urgent == c.Urgent?
      && t.held[Claimant(c)].size == c.size && t.msgSize == s.msgSize
  {
    hide Inv, WaitsFor, TextIn, Enqueue, ResumeAll, Remove, Recycle;
    StepInv(s, c);
    StageOf(s, Claimant(c));
    ClaimedHold(s, c);
  }

  lemma ClaimedHold(s: State, c: Call)
    requires GetsSlot(s, c) && Claimant(c) !in s.held
    ensures var t := Step(s, c).0;
      && t.held[Claimant(c)].Filling? && t.held[Claimant(c)].urgent == c.Urgent?
      && t.held[Claimant(c)].size == c.size && t.msgSize == s.msgSize
  {
    hide WaitsFor, TextIn, Enqueue, ResumeAll, Remove, Recycle;
  }

  /**
   A message is queued where its call says, with the caller's bytes at its front: behind all others for a normal
   send, in front of them for an urgent one, whatever ran before and after its bytes were copied.
   */
  lemma MessageArrives(s: State, c: Call, before: seq<Call>, text: Text, after: seq<Call>) returns (x: Text)
    requires Inv(s) && GetsSlot(s, c) && |text| == c.size
    requires forall i :: 0 <= i < |before| ==> Claimant(c) !in Actor(before[i])
    requires forall i :: 0 <= i < |after| ==> Claimant(c) !in Actor(after[i])
    ensures var tid, t := Claimant(c), Run(Step(s, c).0, before);
      && Enabled(t, Fill(tid, text))
      && var u := Run(Step(t, Fill(tid, text)).0, after);
      && Enabled(u, Link(tid)) && Step(u, Link(tid)).1 == Sent(tid, Ok)
      && text <= x && |x| == s.msgSize
      && Queued(Step(u, Link(tid)).0) == if c.Urgent? then [x] + Queued(u) else Queued(u) + [x]
  {
    hide Inv, Run, Step, Queued, Actor, TextIn;
    var tid, s' := Claimant(c), Step(s, c).0;
    ClaimedSlot(s, c);
    HeldSlotIsPrivate(s', before, tid);
    RunInv(s', before);
    var t := Run(s', before);
    var t' := Step(t, Fill(tid, text)).0;
    SentText(t, tid, text, after);
    FillInv(t, tid, text);
    HeldSlotIsPrivate(t', after, tid);
    var u := Run(t', after);
    LinkOrder(u, tid);
    StepLink(u, tid);
    x := TextIn(u, u.held[tid].slot);
  }

  lemma FillInv(s: State, tid: nat, text: Text)
    requires Inv(s) && Enabled(s, Fill(tid, text))
    ensures var t := Step(s, Fill(tid, text)).0;
      Inv(t) && tid in t.held && t.held[tid].Filled? && t.held[tid].urgent == s.held[tid].urgent
  {
    StepInv(s, Fill(tid, text));
    StepFill(s, tid, text);
  }

  // ---- When a call succeeds ----

  /** A thread that goes through the loop: on its first pass, or woken without an error. */
  predicate Passes(s: State, c: Call)
    requires Enabled(s, c)
  {
    match c
    case Resend(w, _, _) => s.resumedSenders[w.tid] == Ok
    case Rerecv(w, _, _) => s.resumedReceivers[w.tid] == Ok
    case _ => true
  }

  /**
   A receive takes the first message exactly if one is queued; otherwise it fails with timeout 0 and
   waits with any other.
   */
  lemma RecvAnswers(s: State, c: Call)
    requires Inv(s) && Enabled(s, c) && (c.Recv? || c.Rerecv?) && Passes(s, c)
    ensures var (t, r) := Step(s, c);
      && (r.Unlinked? <==> s.queue != [])
      && (r.Unlinked? ==> r == Unlinked(c.w.tid, s.queue[0]) && t.queue == s.queue[1..])
      && (r == Missed(c.w.tid, Timeout) <==> s.queue == [] && c.timeout == 0)
      && (r == Quiet <==> s.queue == [] && c.timeout != 0)
      && (r == Quiet ==> Joins(s.flag, s.receivers, Prios(s.receivers), c.w, c.w.prio, t.receivers))
      && (r != Quiet ==> t.receivers == s.receivers)
      && (!r.Unlinked? ==> t.queue == s.queue && t.held == s.held) && t.senders == s.senders && t.free == s.free
  {
    hide Inv, Joins, Enqueue, WaitsFor;
    EnqueueJoins(s.flag, s.receivers, c.w);
  }

  /**
   A send gets a slot exactly if its message is not too long and a slot is free; too long a message fails at once,
   and without a free slot it fails with timeout 0 and waits with any other.
   */
  lemma SendAnswers(s: State, c: Call)
    requires Inv(s) && Enabled(s, c) && (c.Send? || c.Resend?) && Passes(s, c)
    ensures var (t, r) := Step(s, c);
      var waits := r == Quiet && !GetsSlot(s, c);
      && (GetsSlot(s, c) <==> c.size <= s.msgSize && s.free != [])
      && (GetsSlot(s, c) ==> r == Quiet && t.free == s.free[1..] && t.held[c.w.tid].slot == s.free[0])
      && (r == Sent(c.w.tid, Failed) <==> c.size > s.msgSize)
      && (r == Sent(c.w.tid, Full) <==> c.size <= s.msgSize && s.free == [] && c.timeout == 0)
      && (waits <==> c.size <= s.msgSize && s.free == [] && c.timeout != 0)
      && (waits ==> Joins(s.flag, s.senders, Prios(s.senders), c.w, c.w.prio, t.senders))
      && (!waits ==> t.senders == s.senders)
      && (!GetsSlot(s, c) ==> t.free == s.free && t.held == s.held) && t.queue == s.queue
  {
    hide Inv, Joins, Enqueue, WaitsFor, Prios;
    HoldsNothing(s, c) by {
      InvStage(s);
    }
    EnqueueJoins(s.flag, s.senders, c.w);
  }

  /** An urgent send gets a slot under the same conditions, and never waits. */
  lemma UrgentAnswers(s: State, tid: nat, size: nat)
    requires Inv(s) && Enabled(s, Urgent(tid, size))
    ensures var (t, r) := Step(s, Urgent(tid, size));
      && (GetsSlot(s, Urgent(tid, size)) <==> size <= s.msgSize && s.free != [])
      && (r == Sent(tid, Failed) <==> size > s.msgSize)
      && (r == Sent(tid, Full) <==> size <= s.msgSize && s.free == [])
      && (r == Quiet <==> GetsSlot(s, Urgent(tid, size)))
      && (r != Quiet ==> t == s) && t.senders == s.senders && t.queue == s.queue
  {
    hide Inv, WaitsFor;
  }

  /** Linking wakes the first receiver, putting a slot away frees it and wakes the first sender, and nobody else. */
  lemma WakeAnswers(s: State, c: Call)
    requires Enabled(s, c) && (c.Link? || c.PutAway?)
    ensures var (t, r) := Step(s, c);
      && (c.Link? ==>
            && r == Sent(c.tid, Ok) && t.free == s.free
            && FirstWoken(s.receivers, s.resumedReceivers, t.receivers, t.resumedReceivers)
            && t.senders == s.senders && t.resumedSenders == s.resumedSenders)
      && (c.PutAway? ==>
            && r == Got(c.tid, s.held[c.tid].text) && t.queue == s.queue
            && t.free == [s.held[c.tid].slot] + s.free
            && FirstWoken(s.senders, s.resumedSenders, t.senders, t.resumedSenders)
            && t.receivers == s.receivers && t.resumedReceivers == s.resumedReceivers)
      && t.held == s.held - {c.tid}
  {
    hide TextIn;
  }

  /** A timeout or a signal takes exactly its thread off its list, with its error, and does nothing else. */
  lemma AbortAnswers(s: State, tid: nat, err: Err)
    requires Inv(s) && Enabled(s, Abort(tid, err))
    ensures var t := Step(s, Abort(tid, err)).0;
      && t.queue == s.queue && t.free == s.free && t.held == s.held
      && if WaitsFor(s.receivers, tid) then
           && OneFailed(s.receivers, s.resumedReceivers, tid, err, t.receivers, t.resumedReceivers)
           && t.senders == s.senders && t.resumedSenders == s.resumedSenders
         else
           && OneFailed(s.senders, s.resumedSenders, tid, err, t.senders, t.resumedSenders)
           && t.receivers == s.receivers && t.resumedReceivers == s.resumedReceivers
  {
    hide Apart, Texts, NoLostWakeup, OneStage;
    RemoveMeaning(s.receivers, tid);
    RemoveMeaning(s.senders, tid);
  }

  /** What a thread learns that leaves a waiting list in this step. */
  function Verdict(c: Call): Err {
    match c
    case Abort(_, err) => err
    case Reset => Failed
    case _ => Ok
  }

  lemma ReceiverLeaves(s: State, c: Call, tid: nat)
    requires Inv(s) && Enabled(s, c) && WaitsFor(s.receivers, tid) && !WaitsFor(Step(s, c).0.receivers, tid)
    ensures tid in Step(s, c).0.resumedReceivers && Step(s, c).0.resumedReceivers[tid] == Verdict(c)
    ensures c.Abort? ==> c.tid == tid
  {
    hide Enqueue, WaitsFor, Remove, ResumeAll, Unique, TextIn, Overwrite, Prefix, Recycle, Apart, Texts, NoLostWakeup;
    hide OneStage;
    FrontLeft(s.receivers, tid);
    match c
    case Recv(w, _, _) => JoinLeavesNobody(s.flag, s.receivers, w, tid);
    case Rerecv(w, _, _) => JoinLeavesNobody(s.flag, s.receivers, w, tid);
    case Reset => ResumeAllMeaning(s.resumedReceivers, s.receivers, tid);
    case Abort(t, _) => RemovedLeft(s.receivers, t, tid);
    case _ =>
  }

  lemma SenderLeaves(s: State, c: Call, tid: nat)
    requires Inv(s) && Enabled(s, c) && WaitsFor(s.senders, tid) && !WaitsFor(Step(s, c).0.senders, tid)
    ensures tid in Step(s, c).0.resumedSenders && Step(s, c).0.resumedSenders[tid] == Verdict(c)
    ensures c.Abort? ==> c.tid == tid
  {
    hide Enqueue, WaitsFor, Remove, ResumeAll, Unique, TextIn, Overwrite, Prefix, Recycle, Apart, Texts, NoLostWakeup;
    hide OneStage;
    FrontLeft(s.senders, tid);
    match c
    case Send(w, _, _) => JoinLeavesNobody(s.flag, s.senders, w, tid);
    case Resend(w, _, _) => JoinLeavesNobody(s.flag, s.senders, w, tid);
    case Reset => ResumeAllMeaning(s.resumedSenders, s.senders, tid);
    case Abort(t, _) => RemovedLeft(s.senders, t, tid);
    case _ =>
  }

  /** A resumed thread keeps its error until it runs. */
  lemma ReceiverStep(s: State, c: Call, tid: nat)
    requires Inv(s) && tid in s.resumedReceivers && !(c.Rerecv? && c.w.tid == tid)
    ensures tid in Next(s, c).resumedReceivers && Next(s, c).resumedReceivers[tid] == s.resumedReceivers[tid]
  {
    hide Enqueue, Remove, ResumeAll, TextIn, Overwrite, Prefix, Recycle, Apart, Texts, NoLostWakeup, OneStage;
    ResumeAllMeaning(s.resumedReceivers, s.receivers, tid);
    ResumedDoesNotWait(s.receivers, s.resumedReceivers, tid);
    assert s.receivers != [] ==> s.receivers[0] in s.receivers;
  }

  lemma SenderStep(s: State, c: Call, tid: nat)
    requires Inv(s) && tid in s.resumedSenders && !(c.Resend? && c.w.tid == tid)
    ensures tid in Next(s, c).resumedSenders && Next(s, c).resumedSenders[tid] == s.resumedSenders[tid]
  {
    hide Enqueue, Remove, ResumeAll, TextIn, Overwrite, Prefix, Recycle, Apart, Texts, NoLostWakeup, OneStage;
    ResumeAllMeaning(s.resumedSenders, s.senders, tid);
    ResumedDoesNotWait(s.senders, s.resumedSenders, tid);
    assert s.senders != [] ==> s.senders[0] in s.senders;
  }

  lemma {:induction false} ResumedStays(s: State, calls: seq<Call>, tid: nat)
    requires Inv(s)
    requires forall i :: 0 <= i < |calls| ==> !((calls[i].Rerecv? || calls[i].Resend?) && calls[i].w.tid == tid)
    ensures tid in s.resumedReceivers ==>
      tid in Run(s, calls).resumedReceivers && Run(s, calls).resumedReceivers[tid] == s.resumedReceivers[tid]
    ensures tid in s.resumedSenders ==>
      tid in Run(s, calls).resumedSenders && Run(s, calls).resumedSenders[tid] == s.resumedSenders[tid]
    decreases |calls|
  {
    hide Inv, Next, Enabled;
    if calls != [] {
      if tid in s.resumedReceivers {
        ReceiverStep(s, calls[0], tid);
      }
      if tid in s.resumedSenders {
        SenderStep(s, calls[0], tid);
      }
      NextInv(s, calls[0]);
      ResumedStays(Next(s, calls[0]), calls[1..], tid);
    }
  }

  /**
   A waiting receiver leaves the list woken by a message, by a timeout or signal, or by a reset; when it runs, whatever
   ran before, it goes through the loop in the first case and returns the error in the others.
   */
  lemma {:induction false} ReceiverReturns(s: State, c: Call, calls: seq<Call>, w: Waiter, size: nat, timeout: int)
    requires Inv(s) && Enabled(s, c) && WaitsFor(s.receivers, w.tid) && !WaitsFor(Step(s, c).0.receivers, w.tid)
    requires forall i :: 0 <= i < |calls| ==> !((calls[i].Rerecv? || calls[i].Resend?) && calls[i].w.tid == w.tid)
    requires size > 0
    ensures var t, again := Run(Step(s, c).0, calls), Rerecv(w, size, timeout);
      && Enabled(t, again) && (Passes(t, again) <==> Verdict(c) == Ok)
      && (Verdict(c) != Ok ==> Step(t, again).1 == Missed(w.tid, Verdict(c)))
      && (Verdict(c) != Ok ==> Step(t, again).0.queue == t.queue && Step(t, again).0.held == t.held)
  {
    hide Inv, Run, WaitsFor, Verdict, RecvPass;
    ReceiverLeaves(s, c, w.tid);
    StepInv(s, c);
    ResumedStays(Step(s, c).0, calls, w.tid);
  }

  /** The same for a waiting sender. */
  lemma {:induction false} SenderReturns(s: State, c: Call, calls: seq<Call>, w: Waiter, size: nat, timeout: int)
    requires Inv(s) && Enabled(s, c) && WaitsFor(s.senders, w.tid) && !WaitsFor(Step(s, c).0.senders, w.tid)
    requires forall i :: 0 <= i < |calls| ==> !((calls[i].Rerecv? || calls[i].Resend?) && calls[i].w.tid == w.tid)
    requires 0 < size <= s.msgSize
    ensures var t, again := Run(Step(s, c).0, calls), Resend(w, size, timeout);
      && Enabled(t, again) && (Passes(t, again) <==> Verdict(c) == Ok)
      && (Verdict(c) != Ok ==> Step(t, again).1 == Sent(w.tid, Verdict(c)))
      && (Verdict(c) != Ok ==> Step(t, again).0.free == t.free && Step(t, again).0.held == t.held)
  {
    hide Inv, Run, WaitsFor, Verdict, SendPass;
    SenderLeaves(s, c, w.tid);
    StepInv(s, c);
    ResumedStays(Step(s, c).0, calls, w.tid);
    NextSize(s, c);
    RunSize(Step(s, c).0, calls);
  }

  /**
   A reset leaves no message and no waiting thread; who waited finds an error, and threads at work keep
   their slots.
   */
  lemma ResetAnswers(s: State, tid: nat)
    requires Inv(s)
    ensures var t := Step(s, Reset).0;
      && t.queue == [] && t.receivers == [] && t.senders == [] && t.held == s.held
      && |t.free| == |s.free| + |s.queue|
      && (WaitsFor(s.receivers, tid) ==> tid in t.resumedReceivers && t.resumedReceivers[tid] == Failed)
      && (WaitsFor(s.senders, tid) ==> tid in t.resumedSenders && t.resumedSenders[tid] == Failed)
  {
    ResumeAllMeaning(s.resumedReceivers, s.receivers, tid);
    ResumeAllMeaning(s.resumedSenders, s.senders, tid);
    RecycledCount(s.free, s.queue);
  }

  lemma {:induction false} RecycledCount(free: seq<nat>, queue: seq<nat>)
    ensures |Recycle(free, queue)| == |free| + |queue|
    decreases |queue|
  {
    if queue != [] {
      RecycledCount([queue[0]] + free, queue[1..]);
    }
  }

  /** How many messages are queued is known from what was linked and unlinked. */
  lemma QueuedCount(s: State, calls: seq<Call>)
    requires Inv(s) && forall i :: 0 <= i < |calls| ==> !calls[i].Reset?
    ensures |Run(s, calls).queue| == |s.queue| + |LinkedTexts(s, calls)| - |UnlinkedTexts(s, calls)|
  {
    hide Inv, Queued, LinkedTexts, UnlinkedTexts, Run;
    ExactlyOnce(s, calls);
    var q, l, u, e := Queued(s), LinkedTexts(s, calls), UnlinkedTexts(s, calls), Queued(Run(s, calls));
    assert |multiset(q) + multiset(l)| == |multiset(u) + multiset(e)|;
    assert |multiset(q)| == |q| && |multiset(l)| == |l| && |multiset(u)| == |u| && |multiset(e)| == |e|;
  }

  /**
   In every run without resets a poll comes back empty exactly if every linked message has been unlinked, and a
   send without waiting is refused exactly if every slot is queued or held.
   */
  lemma PollFailsIff(s: State, calls: seq<Call>, w: Waiter, size: nat)
    requires Inv(s) && forall i :: 0 <= i < |calls| ==> !calls[i].Reset?
    requires Running(Run(s, calls), w.tid) && 0 < size <= s.msgSize
    ensures var t, waiting := Run(s, calls), |s.queue| + |LinkedTexts(s, calls)| - |UnlinkedTexts(s, calls)|;
      && (Step(t, Recv(w, size, 0)).1 == Missed(w.tid, Timeout) <==> waiting == 0)
      && (Step(t, Recv(w, size, 0)).1.Unlinked? <==> waiting > 0)
      && (Step(t, Send(w, size, 0)).1 == Sent(w.tid, Full) <==> waiting + |t.held| == |s.slots|)
      && (GetsSlot(t, Send(w, size, 0)) <==> waiting + |t.held| < |s.slots|)
  {
    hide Inv, Run, LinkedTexts, UnlinkedTexts, Step, GetsSlot;
    RunInv(s, calls);
    RunSize(s, calls);
    QueuedCount(s, calls);
    SlotsCounted(Run(s, calls));
    RecvAnswers(Run(s, calls), Recv(w, size, 0));
    SendAnswers(Run(s, calls), Send(w, size, 0));
  }

  lemma SlotsCounted(s: State)
    requires Inv(s)
    ensures |s.free| + |s.queue| + |s.held| == |s.slots|
  {
  }

  /** How a waiting list changes: a thread joins it, or the first one, one of them or all leave. */
  predicate Changes(flag: Flag, q: seq<Waiter>, q': seq<Waiter>, c: Call) {
    || q' == q || q' == []
    || (q != [] && q' == q[1..])
    || ((c.Send? || c.Resend? || c.Recv? || c.Rerecv?) && q' == Enqueue(flag, q, c.w))
    || (c.Abort? && q' == Remove(q, c.tid))
  }

  lemma ChangesInLine(flag: Flag, q: seq<Waiter>, q': seq<Waiter>, c: Call)
    requires InLine(flag, Prios(q)) && Changes(flag, q, q', c)
    ensures InLine(flag, Prios(q'))
  {
    hide Enqueue, Remove, InLine, Prios;
    TailInLine(flag, q);
    NobodyInLine(flag);
    if c.Abort? {
      RemoveInLine(flag, q, c.tid);
    } else if c.Send? || c.Resend? || c.Recv? || c.Rerecv? {
      EnqueueInLine(flag, q, c.w);
    }
  }

  lemma ReceiversChange(s: State, c: Call)
    ensures Changes(s.flag, s.receivers, Next(s, c).receivers, c)
  {
    hide Enqueue, Remove, WaitsFor, ResumeAll, TextIn, Overwrite, Prefix, Recycle;
  }

  lemma SendersChange(s: State, c: Call)
    ensures Changes(s.flag, s.senders, Next(s, c).senders, c) && Next(s, c).flag == s.flag
  {
    hide Enqueue, Remove, WaitsFor, ResumeAll, TextIn, Overwrite, Prefix, Recycle;
  }

  /** In every run both waiting lists stay in line. */
  lemma {:induction false} RunInLine(s: State, calls: seq<Call>)
    requires InLine(s.flag, Prios(s.receivers)) && InLine(s.flag, Prios(s.senders))
    ensures var t := Run(s, calls); InLine(s.flag, Prios(t.receivers)) && InLine(s.flag, Prios(t.senders))
    decreases |calls|
  {
    hide Next, InLine, Changes;
    if calls != [] {
      var t := Next(s, calls[0]);
      ReceiversChange(s, calls[0]);
      SendersChange(s, calls[0]);
      ChangesInLine(s.flag, s.receivers, t.receivers, calls[0]);
      ChangesInLine(s.flag, s.senders, t.senders, calls[0]);
      RunInLine(Next(s, calls[0]), calls[1..]);
    }
  }

  lemma NextSize(s: State, c: Call)
    ensures Next(s, c).msgSize == s.msgSize
  {
    hide WaitsFor, TextIn, Overwrite, Prefix, Recycle, ResumeAll, Remove, Enqueue;
  }

  lemma {:induction false} RunSize(s: State, calls: seq<Call>)
    ensures Run(s, calls).msgSize == s.msgSize
    decreases |calls|
  {
    hide Next;
    if calls != [] {
      NextSize(s, calls[0]);
      RunSize(Next(s, calls[0]), calls[1..]);
    }
  }

  // ---- The object ----

  /** The slots of a pool in the order of the fresh free list: the last one first. */
  function PoolSlots(base: nat, stride: nat, n: nat): seq<nat> {
    if n == 0 then [] else [base + (n - 1) * stride] + PoolSlots(base, stride, n - 1)
  }

  /** Slots do not overlap and lie behind the base, one stride each. */
  lemma {:induction false} PoolSlotsDistinct(base: nat, stride: nat, n: nat)
    requires stride > 0
    ensures Distinct(PoolSlots(base, stride, n)) && |PoolSlots(base, stride, n)| == n
    ensures forall i :: 0 <= i < n ==>
      base <= PoolSlots(base, stride, n)[i] && PoolSlots(base, stride, n)[i] + stride <= base + n * stride
    ensures forall i, j :: 0 <= i < j < n ==> PoolSlots(base, stride, n)[j] + stride <= PoolSlots(base, stride, n)[i]
  {
    if n > 0 {
      PoolSlotsDistinct(base, stride, n - 1);
      var low: nat := (n - 1) * stride;
      assert n * stride == low + stride;
      var s, t := PoolSlots(base, stride, n), PoolSlots(base, stride, n - 1);
      assert s == [base + low] + t;
      assert forall i :: 0 < i < n ==> s[i] == t[i - 1];
    }
  }

  /** Link word and payload of every slot lie inside the pool handed to rt_mq_init, and no two slots overlap. */
  lemma SlotsInPool(base: nat, size: nat, poolSize: nat, x: nat, y: nat)
    requires var all := PoolSlots(base, AlignedSize(size) + LINK, SlotCount(size, poolSize));
      x in all && y in all && x != y
    ensures base <= x && x + LINK + AlignedSize(size) <= base + poolSize
    ensures x + LINK + AlignedSize(size) <= y || y + LINK + AlignedSize(size) <= x
  {
    hide AlignedSize, SlotCount, PoolSlots;
    var stride, n := AlignedSize(size) + LINK, SlotCount(size, poolSize);
    PoolSlotsDistinct(base, stride, n);
    SlotsFit(size, poolSize);
    var s := PoolSlots(base, stride, n);
    var i :| 0 <= i < n && s[i] == x;
    var j :| 0 <= j < n && s[j] == y;
  }

  /** A slot has room for a message of the size asked for exactly if that, rounded up, fits into 16 bits. */
  lemma SlotHoldsMessage(size: nat)
    ensures size <= AlignedSize(size) <==> (size + 3) / 4 * 4 < 65536
    ensures size <= AlignedSize(size) ==> AlignedSize(size) < size + 4
  {
    var n: nat := (size + 3) / 4 * 4;
    assert size <= n < size + 4;
    if n < 65536 {
      SmallRemainder(n, 65536);
    } else {
      assert n % 65536 % 4 == 0 by {
        WordOfFour((size + 3) / 4);
      }
    }
  }

  lemma WordOfFour(q: nat)
    ensures q * 4 % 65536 % 4 == 0
  {
    var a: nat, b: nat := q / 16384, q % 16384;
    assert q * 4 == a * 65536 + b * 4;
    RemainderIs(q * 4, 65536, a, b * 4);
  }

  lemma SlotsFit(size: nat, poolSize: nat)
    ensures SlotCount(size, poolSize) * (AlignedSize(size) + LINK) <= poolSize
  {
    hide AlignedSize;
    QuotientFits(poolSize, AlignedSize(size) + LINK, 65536);
  }

  lemma NotAgain(x: nat, s: seq<nat>)
    requires Distinct([x] + s)
    ensures x !in s
  {
    assert forall i :: 0 <= i < |s| ==> ([x] + s)[i + 1] == s[i] && ([x] + s)[0] == x;
  }

  /** The state that rt_mq_init builds satisfies the invariant. */
  lemma FreshInv(flag: Flag, msgSize: nat, all: seq<nat>, contents: map<nat, Text>)
    requires Distinct(all) && |all| <= ENTRY_MAX
    requires forall x :: x in all ==> x in contents && |contents[x]| == msgSize
    ensures Inv(State(flag, msgSize, Elements(all), all, [], map[], contents, [], [], map[], map[]))
  {
    DistinctCount(all);
  }

  /** How rt_mq_init lays out its pool: message size and number of slots, both 16-bit words. */
  function AlignedSize(size: nat): nat {
    (size + 3) / 4 * 4 % 65536
  }

  function SlotCount(size: nat, poolSize: nat): nat {
    poolSize / (AlignedSize(size) + LINK) % 65536
  }

  /** Link words of the cells and of both lists; `tail` and `entry` agree with the queue. */
  ghost predicate Shape(next: map<nat, nat>, freeHead: nat, free: seq<nat>, head: nat, tail: nat, entry: nat,
                        queue: seq<nat>) {
    && Chain(next, freeHead, free)
    && Chain(next, head, queue)
    && tail == (if queue == [] then 0 else queue[|queue| - 1])
    && entry == |queue|
  }

  /** The held cells exist, and one that is filled for a normal send ends a list. */
  ghost predicate Cells(next: map<nat, nat>, held: map<nat, Hold>) {
    forall t :: t in held ==>
      held[t].slot != 0 && held[t].slot in next && (held[t].Filled? && !held[t].urgent ==> next[held[t].slot] == 0)
  }

  /** What the invariant says about the slot of one thread. */
  lemma HeldApart(s: State, tid: nat)
    requires Inv(s) && tid in s.held
    ensures s.held[tid].slot !in s.free && s.held[tid].slot !in s.queue && s.held[tid].slot in s.data
    ensures Distinct(s.queue) && Distinct(s.free) && |s.queue| < |s.slots| <= ENTRY_MAX
    ensures forall t :: t in s.held && t != tid ==> s.held[t].slot != s.held[tid].slot
  {
    hide Placed, NoLostWakeup, OneStage;
    RoomLeft(s.slots, s.free, s.queue, s.held, tid);
  }

  lemma FirstApart(s: State)
    requires Inv(s)
    ensures Distinct(s.queue) && Distinct(s.free)
    ensures forall x :: x in s.free ==> x !in s.queue
    ensures forall t :: t in s.held ==> s.held[t].slot !in s.free && s.held[t].slot !in s.queue
  {
  }

  /** In a queue of distinct slots only a single one is both first and last. */
  lemma FirstIsLast(queue: seq<nat>)
    requires Distinct(queue) && queue != []
    ensures queue[0] == queue[|queue| - 1] <==> queue[1..] == []
    ensures queue[0] !in queue[1..]
  {
  }

  lemma FreshCell(slots: set<nat>, free: seq<nat>, queue: seq<nat>, held: map<nat, Hold>)
    requires Apart(slots, free, queue, held) && queue != []
    ensures queue[0] !in free && Distinct(queue)
    ensures forall t :: t in held ==> held[t].slot != queue[0]
  {
    assert queue[0] in queue;
  }

  lemma CellOf(next: map<nat, nat>, held: map<nat, Hold>, tid: nat)
    requires Cells(next, held) && tid in held
    ensures held[tid].slot != 0 && held[tid].slot in next
    ensures held[tid].Filled? && !held[tid].urgent ==> next[held[tid].slot] == 0
    ensures Cells(next, held - {tid})
  {
  }

  lemma CellsAfter(next: map<nat, nat>, held: map<nat, Hold>, x: nat, v: nat)
    requires Cells(next, held) && forall t :: t in held ==> held[t].slot != x
    ensures Cells(next[x := v], held)
  {
  }

  lemma FilledCell(next: map<nat, nat>, held: map<nat, Hold>, tid: nat)
    requires Cells(next, held) && tid in held && (held[tid].Filling? || held[tid].Filled?)
    requires forall t :: t in held && t != tid ==> held[t].slot != held[tid].slot
    ensures !held[tid].urgent ==> Cells(next[held[tid].slot := 0], held[tid := Filled(held[tid].slot, false)])
    ensures held[tid].urgent ==> Cells(next, held[tid := Filled(held[tid].slot, true)])
  {
  }

  lemma ShapeElsewhere(next: map<nat, nat>, freeHead: nat, free: seq<nat>, head: nat, tail: nat, entry: nat,
                       queue: seq<nat>, x: nat, v: nat)
    requires Shape(next, freeHead, free, head, tail, entry, queue) && x !in free && x !in queue
    ensures Shape(next[x := v], freeHead, free, head, tail, entry, queue)
  {
    ChainElsewhere(next, freeHead, free, x, v);
    ChainElsewhere(next, head, queue, x, v);
  }

  lemma EmptyChain(next: map<nat, nat>, p: nat, s: seq<nat>)
    requires Chain(next, p, s)
    ensures p == 0 <==> s == []
  {
  }

  lemma FirstIsCell(next: map<nat, nat>, p: nat, s: seq<nat>)
    requires Chain(next, p, s) && s != []
    ensures s[0] in next && s[0] != 0
  {
  }

  class MessageQueueObject {
    const flag: Flag
    const msgSize: nat
    ghost const slots: set<nat>
    /** The link word and the payload of every slot. */
    var next: map<nat, nat>
    var data: map<nat, Text>
    var head: nat
    var tail: nat
    var freeHead: nat
    var entry: nat
    var receivers: seq<Waiter>
    var senders: seq<Waiter>
    var resumedReceivers: Resumed
    var resumedSenders: Resumed
    /** The local variables of the threads between two regions. */
    var held: map<nat, Hold>
    ghost var free: seq<nat>
    ghost var queue: seq<nat>

    ghost function View(): State
      reads this
    {
      State(flag, msgSize, slots, free, queue, held, data, receivers, senders, resumedReceivers, resumedSenders)
    }

    ghost predicate Linked()
      reads this
    {
      Shape(next, freeHead, free, head, tail, entry, queue) && Cells(next, held)
    }

    ghost predicate Valid()
      reads this
    {
      Linked() && Inv(View())
    }

    /** rt_mq_init: the loop threads the slots of the pool on the free list. */
    constructor (flag: Flag, msgPool: nat, size: nat, poolSize: nat, contents: map<nat, Text>)
      requires msgPool > 0
      requires forall x :: x in PoolSlots(msgPool, AlignedSize(size) + LINK, SlotCount(size, poolSize)) ==>
        x in contents && |contents[x]| == AlignedSize(size)
      ensures Valid()
      ensures var all := PoolSlots(msgPool, AlignedSize(size) + LINK, SlotCount(size, poolSize));
        View() == State(flag, AlignedSize(size), Elements(all), all, [], map[], contents, [], [], map[], map[])
    {
      var msgSize := AlignedSize(size);
      var maxMsgs := poolSize / (msgSize + LINK) % 65536;
      var next: map<nat, nat> := map[];
      var freeHead: nat := 0;
      var temp := 0;
      while temp < maxMsgs
        invariant temp <= maxMsgs
        invariant Chain(next, freeHead, PoolSlots(msgPool, msgSize + LINK, temp))
      {
        ghost var s := PoolSlots(msgPool, msgSize + LINK, temp);
        var msg := msgPool + temp * (msgSize + LINK);
        PoolSlotsDistinct(msgPool, msgSize + LINK, temp + 1);
        assert PoolSlots(msgPool, msgSize + LINK, temp + 1) == [msg] + s;
        NotAgain(msg, s);
        ChainPush(next, freeHead, s, msg);
        next := next[msg := freeHead];
        freeHead := msg;
        temp := temp + 1;
      }
      ghost var all := PoolSlots(msgPool, msgSize + LINK, maxMsgs);
      PoolSlotsDistinct(msgPool, msgSize + LINK, maxMsgs);
      FreshInv(flag, msgSize, all, contents);
      this.flag, this.msgSize, this.slots := flag, msgSize, Elements(all);
      this.next, this.data := next, contents;
      this.head, this.tail, this.freeHead, this.entry := 0, 0, freeHead, 0;
      receivers, senders, resumedReceivers, resumedSenders := [], [], map[], map[];
      held := map[];
      free, queue := all, [];
    }

    /** Take the first free slot. */
    method PopFree() returns (msg: nat)
      requires Shape(next, freeHead, free, head, tail, entry, queue) && freeHead != 0
      modifies this`freeHead, this`free
      ensures Shape(next, freeHead, free, head, tail, entry, queue)
      ensures old(free) != [] && msg == old(free)[0] && free == old(free)[1..]
    {
      ChainPop(next, freeHead, free);
      msg := freeHead;
      freeHead := next[msg];
      free := free[1..];
    }

    /** Take the first queued slot. */
    method PopQueue() returns (msg: nat)
      requires Shape(next, freeHead, free, head, tail, entry, queue) && entry != 0 && Distinct(queue)
      modifies this`head, this`tail, this`entry, this`queue
      ensures Shape(next, freeHead, free, head, tail, entry, queue)
      ensures old(queue) != [] && msg == old(queue)[0] && queue == old(queue)[1..]
    {
      ChainPop(next, head, queue);
      msg := head;
      head := next[msg];
      if tail == msg {
        tail := 0;
      }
      if entry > 0 {
        entry := entry - 1;
      }
      queue := queue[1..];
    }

    method PushFree(msg: nat)
      requires Shape(next, freeHead, free, head, tail, entry, queue)
      requires msg != 0 && msg !in free && msg !in queue
      modifies this`next, this`freeHead, this`free
      ensures Shape(next, freeHead, free, head, tail, entry, queue)
      ensures free == [msg] + old(free) && next == old(next)[msg := old(freeHead)]
    {
      ChainPush(next, freeHead, free, msg);
      ChainElsewhere(next, head, queue, msg, freeHead);
      next := next[msg := freeHead];
      freeHead := msg;
      free := [msg] + free;
    }

    /** Append a slot; the overflow branch on `entry` cannot be taken. */
    method LinkLast(msg: nat) returns (linked: bool)
      requires Shape(next, freeHead, free, head, tail, entry, queue)
      requires msg != 0 && msg !in free && msg !in queue && msg in next && next[msg] == 0
      requires Distinct(queue) && (forall x :: x in queue ==> x !in free) && |queue| < ENTRY_MAX
      modifies this`next, this`head, this`tail, this`entry, this`queue
      ensures linked && Shape(next, freeHead, free, head, tail, entry, queue)
      ensures queue == old(queue) + [msg]
      ensures next == if old(queue) == [] then old(next) else old(next)[old(queue)[|old(queue)| - 1] := msg]
    {
      if queue != [] {
        ChainAppend(next, head, queue, msg);
        assert queue[|queue| - 1] in queue;
        ChainElsewhere(next, freeHead, free, queue[|queue| - 1], msg);
      }
      if tail != 0 {
        next := next[tail := msg];
      }
      tail := msg;
      if head == 0 {
        head := msg;
      }
      queue := queue + [msg];
      if entry < ENTRY_MAX {
        entry := entry + 1;
        linked := true;
      } else {
        linked := false;
      }
    }

    /** Prepend a slot; the overflow branch on `entry` cannot be taken. */
    method LinkFirst(msg: nat) returns (linked: bool)
      requires Shape(next, freeHead, free, head, tail, entry, queue)
      requires msg != 0 && msg !in free && msg !in queue && |queue| < ENTRY_MAX
      modifies this`next, this`head, this`tail, this`entry, this`queue
      ensures linked && Shape(next, freeHead, free, head, tail, entry, queue)
      ensures queue == [msg] + old(queue) && next == old(next)[msg := old(head)]
    {
      ChainPush(next, head, queue, msg);
      ChainElsewhere(next, freeHead, free, msg, head);
      next := next[msg := head];
      head := msg;
      if tail == 0 {
        tail := msg;
      }
      queue := [msg] + queue;
      if entry < ENTRY_MAX {
        entry := entry + 1;
        linked := true;
      } else {
        linked := false;
      }
    }

    method WakeFirstReceiver()
      modifies this`receivers, this`resumedReceivers
      ensures View() == WakeReceiver(old(View()))
    {
      if receivers != [] {
        resumedReceivers := resumedReceivers[receivers[0].tid := Ok];
        receivers := receivers[1..];
      }
    }

    method WakeFirstSender()
      modifies this`senders, this`resumedSenders
      ensures View() == WakeSender(old(View()))
    {
      if senders != [] {
        resumedSenders := resumedSenders[senders[0].tid := Ok];
        senders := senders[1..];
      }
    }

    /** One pass of the loop of rt_mq_send_wait. */
    method TrySend(w: Waiter, size: nat, timeout: int) returns (r: Report)
      requires Linked() && w.tid !in held
      modifies this
      ensures Linked() && (View(), r) == SendPass(old(View()), w, size, timeout)
    {
      hide Chain;
      if freeHead == 0 {
        assert free == [] by { EmptyChain(next, freeHead, free); }
        if timeout == 0 {
          return Sent(w.tid, Full);
        }
        senders := Enqueue(flag, senders, w);
        return Quiet;
      }
      EmptyChain(next, freeHead, free);
      FirstIsCell(next, freeHead, free);
      var msg := PopFree();
      held := held[w.tid := Filling(msg, false, size)];
      return Quiet;
    }

    /** One pass of the loop of rt_mq_recv. */
    method TryRecv(w: Waiter, size: nat, timeout: int) returns (r: Report)
      requires Linked() && w.tid !in held && Distinct(queue)
      modifies this
      ensures Linked() && (View(), r) == RecvPass(old(View()), w, size, timeout)
    {
      hide Chain;
      if entry == 0 {
        if timeout == 0 {
          return Missed(w.tid, Timeout);
        }
        receivers := Enqueue(flag, receivers, w);
        return Quiet;
      }
      assert queue != [];
      FirstIsCell(next, head, queue);
      var msg := PopQueue();
      held := held[w.tid := Taken(msg, size)];
      return Unlinked(w.tid, msg);
    }

    /** rt_mq_send_wait up to the point where the thread returns, is suspended or has a slot. */
    method Send(w: Waiter, size: nat, timeout: int) returns (r: Report)
      requires Valid() && Enabled(View(), Call.Send(w, size, timeout))
      modifies this
      ensures Valid() && (View(), r) == Step(old(View()), Call.Send(w, size, timeout))
    {
      hide Inv, WaitsFor, Shape, Cells, SendPass;
      StepInv(View(), Call.Send(w, size, timeout));
      if size > msgSize {
        return Sent(w.tid, Failed);
      }
      r := TrySend(w, size, timeout);
    }

    /** rt_mq_send_wait after the sender was resumed, with the timeout that remains. */
    method Resend(w: Waiter, size: nat, timeout: int) returns (r: Report)
      requires Valid() && Enabled(View(), Call.Resend(w, size, timeout))
      modifies this
      ensures Valid() && (View(), r) == Step(old(View()), Call.Resend(w, size, timeout))
    {
      hide Inv, WaitsFor, Shape, Cells, Step, Enabled, SendPass;
      StepInv(View(), Call.Resend(w, size, timeout));
      StepResend(View(), w, size, timeout);
      StageOf(View(), w.tid);
      var error := resumedSenders[w.tid];
      resumedSenders := resumedSenders - {w.tid};
      if error != Ok {
        return Sent(w.tid, error);
      }
      r := TrySend(w, size, timeout);
    }

    /** rt_mq_urgent up to the point where the thread returns or has a slot. */
    method Urgent(tid: nat, size: nat) returns (r: Report)
      requires Valid() && Enabled(View(), Call.Urgent(tid, size))
      modifies this
      ensures Valid() && (View(), r) == Step(old(View()), Call.Urgent(tid, size))
    {
      hide Inv, WaitsFor, Chain;
      StepInv(View(), Call.Urgent(tid, size));
      if size > msgSize {
        return Sent(tid, Failed);
      }
      if freeHead == 0 {
        assert free == [] by { EmptyChain(next, freeHead, free); }
        return Sent(tid, Full);
      }
      EmptyChain(next, freeHead, free);
      FirstIsCell(next, freeHead, free);
      var msg := PopFree();
      held := held[tid := Filling(msg, true, size)];
      return Quiet;
    }

    /** The part of a send that runs with interrupts enabled. */
    method Fill(tid: nat, text: Text)
      requires Valid() && Enabled(View(), Call.Fill(tid, text))
      modifies this
      ensures Valid() && View() == Step(old(View()), Call.Fill(tid, text)).0
    {
      hide Inv, Shape, Cells, Enabled, Step;
      StepInv(View(), Call.Fill(tid, text));
      StepFill(View(), tid, text);
      HeldApart(View(), tid);
      FillSlot(tid, text);
    }

    /** Copy the message into the slot; a normal send also ends the cell. */
    method FillSlot(tid: nat, text: Text)
      requires Linked() && tid in held && held[tid].Filling? && held[tid].slot in data
      requires held[tid].slot !in free && held[tid].slot !in queue
      requires forall t :: t in held && t != tid ==> held[t].slot != held[tid].slot
      modifies this`next, this`data, this`held
      ensures Linked()
      ensures data == old(data)[old(held)[tid].slot := Overwrite(old(data)[old(held)[tid].slot], text)]
      ensures held == old(held)[tid := Filled(old(held)[tid].slot, old(held)[tid].urgent)]
    {
      hide Shape, Cells;
      var h := held[tid];
      FilledCell(next, held, tid);
      if !h.urgent {
        ShapeElsewhere(next, freeHead, free, head, tail, entry, queue, h.slot, 0);
        next := next[h.slot := 0];
      }
      data := data[h.slot := Overwrite(data[h.slot], text)];
      held := held[tid := Filled(h.slot, h.urgent)];
    }

    /** The second region of a send. */
    method Link(tid: nat) returns (r: Report)
      requires Valid() && Enabled(View(), Call.Link(tid))
      modifies this
      ensures Valid() && (View(), r) == Step(old(View()), Call.Link(tid))
    {
      hide Inv, Shape, Cells, Enabled, Step, WakeReceiver;
      StepInv(View(), Call.Link(tid));
      StepLink(View(), tid);
      var linked := LinkSlot(tid);
      if linked {
        WakeFirstReceiver();
      }
      r := Sent(tid, if linked then Ok else Full);
    }

    /** Link a filled slot to the queue. */
    method LinkSlot(tid: nat) returns (linked: bool)
      requires Valid() && tid in held && held[tid].Filled?
      modifies this`next, this`head, this`tail, this`entry, this`queue, this`held
      ensures linked && Linked()
      ensures var h := old(held)[tid];
        View() == old(View()).(queue := if h.urgent then [h.slot] + old(queue) else old(queue) + [h.slot],
                               held := old(held) - {tid})
    {
      hide Inv, Shape, Cells;
      HeldApart(View(), tid);
      FirstApart(View());
      var h := held[tid];
      CellOf(next, held, tid);
      held := held - {tid};
      if h.urgent {
        CellsAfter(next, held, h.slot, head);
        linked := LinkFirst(h.slot);
      } else {
        if queue != [] {
          assert queue[|queue| - 1] in queue;
          CellsAfter(next, held, queue[|queue| - 1], h.slot);
        }
        linked := LinkLast(h.slot);
      }
    }

    /** rt_mq_recv up to the point where the thread returns, is suspended or has a slot. */
    method Recv(w: Waiter, size: nat, timeout: int) returns (r: Report)
      requires Valid() && Enabled(View(), Call.Recv(w, size, timeout))
      modifies this
      ensures Valid() && (View(), r) == Step(old(View()), Call.Recv(w, size, timeout))
    {
      hide Inv, WaitsFor, Shape, Cells, RecvPass, Distinct;
      StepInv(View(), Call.Recv(w, size, timeout));
      FirstApart(View());
      r := TryRecv(w, size, timeout);
    }

    /** rt_mq_recv after the receiver was resumed, with the timeout that remains. */
    method Rerecv(w: Waiter, size: nat, timeout: int) returns (r: Report)
      requires Valid() && Enabled(View(), Call.Rerecv(w, size, timeout))
      modifies this
      ensures Valid() && (View(), r) == Step(old(View()), Call.Rerecv(w, size, timeout))
    {
      hide Inv, WaitsFor, Shape, Cells, Step, Enabled, RecvPass, Distinct;
      StepInv(View(), Call.Rerecv(w, size, timeout));
      StepRerecv(View(), w, size, timeout);
      StageOf(View(), w.tid);
      FirstApart(View());
      var error := resumedReceivers[w.tid];
      resumedReceivers := resumedReceivers - {w.tid};
      if error != Ok {
        return Missed(w.tid, error);
      }
      r := TryRecv(w, size, timeout);
    }

    /** The part of a receive that runs with interrupts enabled. */
    method Copy(tid: nat)
      requires Valid() && Enabled(View(), Call.Copy(tid))
      modifies this
      ensures Valid() && View() == Step(old(View()), Call.Copy(tid)).0
    {
      hide Inv, WaitsFor, Shape;
      StepInv(View(), Call.Copy(tid));
      HeldApart(View(), tid);
      var h := held[tid];
      var text := Prefix(data[h.slot], if h.size > msgSize then msgSize else h.size);
      held := held[tid := Copied(h.slot, text)];
    }

    /** The second region of a receive. */
    method PutAway(tid: nat) returns (r: Report)
      requires Valid() && Enabled(View(), Call.PutAway(tid))
      modifies this
      ensures Valid() && (View(), r) == Step(old(View()), Call.PutAway(tid))
    {
      hide Inv, Shape, Cells, Enabled, Step, WakeSender;
      StepInv(View(), Call.PutAway(tid));
      StepPutAway(View(), tid);
      var h := held[tid];
      FreeSlot(tid);
      WakeFirstSender();
      return Got(tid, h.text);
    }

    /** Put a held slot on the free list. */
    method FreeSlot(tid: nat)
      requires Valid() && tid in held
      modifies this`next, this`freeHead, this`free, this`held
      ensures Linked()
      ensures View() == old(View()).(free := [old(held)[tid].slot] + old(free), held := old(held) - {tid})
    {
      hide Inv, Shape, Cells;
      HeldApart(View(), tid);
      var h := held[tid];
      CellOf(next, held, tid);
      held := held - {tid};
      CellsAfter(next, held, h.slot, freeHead);
      PushFree(h.slot);
    }

    /** rt_thread_timeout, or a signal, takes a thread off the list it waits in. */
    method Abort(tid: nat, err: Err)
      requires Valid() && Enabled(View(), Call.Abort(tid, err))
      modifies this
      ensures Valid() && View() == Step(old(View()), Call.Abort(tid, err)).0
    {
      hide Inv, WaitsFor, Shape, Cells, Enabled, Step;
      StepInv(View(), Call.Abort(tid, err));
      StepAbort(View(), tid, err);
      LeaveList(tid, err);
    }

    method LeaveList(tid: nat, err: Err)
      modifies this`receivers, this`senders, this`resumedReceivers, this`resumedSenders
      ensures View() == old(
        if WaitsFor(receivers, tid) then
          View().(receivers := Remove(receivers, tid), resumedReceivers := resumedReceivers[tid := err])
        else View().(senders := Remove(senders, tid), resumedSenders := resumedSenders[tid := err]))
    {
      hide WaitsFor;
      if WaitsFor(receivers, tid) {
        receivers := Remove(receivers, tid);
        resumedReceivers := resumedReceivers[tid := err];
      } else {
        senders := Remove(senders, tid);
        resumedSenders := resumedSenders[tid := err];
      }
    }

    /** rt_mq_control with RT_IPC_CMD_RESET. */
    method Reset()
      requires Valid()
      modifies this
      ensures Valid() && View() == Step(old(View()), Call.Reset).0
    {
      hide Apart, Texts, Placed, NoLostWakeup, OneStage, Shape, Cells;
      ghost var s := View();
      StepInv(s, Call.Reset);
      ResumeEveryone();
      RecycleAll();
    }

    method ResumeEveryone()
      modifies this`receivers, this`senders, this`resumedReceivers, this`resumedSenders
      ensures receivers == [] && senders == []
      ensures resumedReceivers == ResumeAll(old(resumedReceivers), old(receivers))
      ensures resumedSenders == ResumeAll(old(resumedSenders), old(senders))
    {
      while receivers != []
        invariant ResumeAll(resumedReceivers, receivers) == ResumeAll(old(resumedReceivers), old(receivers))
        invariant senders == old(senders) && resumedSenders == old(resumedSenders)
        decreases |receivers|
      {
        resumedReceivers := resumedReceivers[receivers[0].tid := Failed];
        receivers := receivers[1..];
      }
      while senders != []
        invariant ResumeAll(resumedSenders, senders) == ResumeAll(old(resumedSenders), old(senders))
        invariant receivers == [] && resumedReceivers == ResumeAll(old(resumedReceivers), old(receivers))
        decreases |senders|
      {
        resumedSenders := resumedSenders[senders[0].tid := Failed];
        senders := senders[1..];
      }
    }

    /** The loop of a reset over the queue. */
    method RecycleAll()
      requires Linked() && Apart(slots, free, queue, held)
      modifies this`next, this`head, this`tail, this`freeHead, this`entry, this`free, this`queue
      ensures Linked() && queue == [] && free == Recycle(old(free), old(queue))
    {
      hide Chain, Apart, Cells;
      while head != 0
        invariant Chain(next, freeHead, free) && Chain(next, head, queue) && Cells(next, held)
        invariant tail == if queue == [] then 0 else queue[|queue| - 1]
        invariant Apart(slots, free, queue, held)
        invariant Recycle(free, queue) == Recycle(old(free), old(queue))
        decreases |queue|
      {
        ChainPop(next, head, queue);
        FreshCell(slots, free, queue, held);
        FirstIsLast(queue);
        FirstIsCell(next, head, queue);
        RecycleOne(slots, free, queue, held);
        var msg := head;
        head := next[msg];
        if tail == msg {
          tail := 0;
        }
        ChainElsewhere(next, head, queue[1..], msg, freeHead);
        ChainPush(next, freeHead, free, msg);
        CellsAfter(next, held, msg, freeHead);
        next := next[msg := freeHead];
        freeHead := msg;
        free, queue := [msg] + free, queue[1..];
      }
      EmptyChain(next, head, queue);
      entry := 0;
    }
  }
}
