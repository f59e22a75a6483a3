/**
 Mailboxes (ipc.c): a ring of words between senders and receivers. A post only
 wakes a waiting thread, which then tests again; another thread may get in first.
 */
module Mailbox {
  import opened WaitQueue
  import opened Ipc
  import opened Sequences
  import Lanes

  const ENTRY_MAX: nat := 65535

  datatype State = State(flag: Flag, size: nat, queue: seq<nat>,
                         receivers: seq<Waiter>, senders: seq<Waiter>,
                         resumedReceivers: Resumed, resumedSenders: Resumed)

  datatype Report =
    | Sent(tid: nat, err: Err)
    | Got(tid: nat, value: nat)
    | Missed(tid: nat, err: Err)
    | Urged(err: Err)
    | Quiet

  /**
   The steps. Send and Recv are the first pass of the retry loop; Resend and Rerecv
   are what the resumed thread does next, with the timeout that remains.
   */
  datatype Call =
    | Send(w: Waiter, value: nat, timeout: int)
    | Resend(w: Waiter, value: nat, timeout: int)
    | Urgent(value: nat)
    | Recv(w: Waiter, timeout: int)
    | Rerecv(w: Waiter, timeout: int)
    | Abort(tid: nat, err: Err)
    | Reset

  predicate Running(s: State, tid: nat) {
    !WaitsFor(s.receivers, tid) && !WaitsFor(s.senders, tid) && tid !in s.resumedReceivers && tid !in s.resumedSenders
  }

  predicate Enabled(s: State, c: Call) {
    match c
    case Send(w, _, _) => Running(s, w.tid)
    case Resend(w, _, _) => w.tid in s.resumedSenders
    case Urgent(_) => true
    case Recv(w, _) => Running(s, w.tid)
    case Rerecv(w, _) => w.tid in s.resumedReceivers
    case Abort(tid, err) => err != Ok && (WaitsFor(s.receivers, tid) || WaitsFor(s.senders, tid))
    case Reset => true
  }

  /** A new message: the first waiting receiver is woken. */
  function Deliver(s: State, queue: seq<nat>): State {
    if s.receivers == [] then s.(queue := queue)
    else
      s.(queue := queue, receivers := s.receivers[1..],
         resumedReceivers := s.resumedReceivers[s.receivers[0].tid := Ok])
  }

  /** A message taken: the first waiting sender is woken. */
  function Drain(s: State, queue: seq<nat>): State {
    if s.senders == [] then s.(queue := queue)
    else s.(queue := queue, senders := s.senders[1..], resumedSenders := s.resumedSenders[s.senders[0].tid := Ok])
  }

  function SendPass(s: State, w: Waiter, value: nat, timeout: int): (State, Report) {
    if |s.queue| < s.size then (Deliver(s, s.queue + [value]), Sent(w.tid, Ok))
    else if timeout == 0 then (s, Sent(w.tid, Full))
    else (s.(senders := Enqueue(s.flag, s.senders, w)), Quiet)
  }

  function RecvPass(s: State, w: Waiter, timeout: int): (State, Report) {
    if s.queue != [] then (Drain(s, s.queue[1..]), Got(w.tid, s.queue[0]))
    else if timeout == 0 then (s, Missed(w.tid, Timeout))
    else (s.(receivers := Enqueue(s.flag, s.receivers, w)), Quiet)
  }

  function Step(s: State, c: Call): (State, Report)
    requires Enabled(s, c)
  {
    match c
    case Send(w, value, timeout) => SendPass(s, w, value, timeout)
    case Resend(w, value, timeout) =>
      var t := s.(resumedSenders := s.resumedSenders - {w.tid});
      if s.resumedSenders[w.tid] != Ok then (t, Sent(w.tid, s.resumedSenders[w.tid]))
      else SendPass(t, w, value, timeout)
    case Urgent(value) =>
      if |s.queue| < s.size then (Deliver(s, [value] + s.queue), Urged(Ok)) else (s, Urged(Full))
    case Recv(w, timeout) => RecvPass(s, w, timeout)
    case Rerecv(w, timeout) =>
      var t := s.(resumedReceivers := s.resumedReceivers - {w.tid});
      if s.resumedReceivers[w.tid] != Ok then (t, Missed(w.tid, s.resumedReceivers[w.tid])) else RecvPass(t, w, timeout)
    case Abort(tid, err) =>
      if WaitsFor(s.receivers, tid) then
        (s.(receivers := Remove(s.receivers, tid), resumedReceivers := s.resumedReceivers[tid := err]), Quiet)
      else
        (s.(senders := Remove(s.senders, tid), resumedSenders := s.resumedSenders[tid := err]), Quiet)
    case Reset =>
      (State(s.flag, s.size, [], [], [],
             ResumeAll(s.resumedReceivers, s.receivers), ResumeAll(s.resumedSenders, s.senders)),
       Quiet)
  }

  // ---- No lost wake-up ----

  /** While receivers wait, every queued message has a woken receiver on its way; dually for free places and senders. */
  ghost predicate NoLostWakeup(s: State) {
    && (s.receivers != [] ==> |s.queue| <= |Woken(s.resumedReceivers)|)
    && (s.senders != [] ==> s.size - |s.queue| <= |Woken(s.resumedSenders)|)
  }

  ghost predicate Inv(s: State) {
    && |s.queue| <= s.size <= ENTRY_MAX
    && Placed(s.receivers, s.resumedReceivers)
    && Placed(s.senders, s.resumedSenders)
    && NoLostWakeup(s)
  }

  lemma DeliverInv(s: State, queue: seq<nat>)
    requires |s.queue| < s.size <= ENTRY_MAX && |queue| == |s.queue| + 1
    requires Placed(s.receivers, s.resumedReceivers) && Placed(s.senders, s.resumedSenders)
    requires s.receivers != [] ==> |s.queue| <= |Woken(s.resumedReceivers)|
    requires s.senders != [] ==> s.size - |s.queue| - 1 <= |Woken(s.resumedSenders)|
    ensures Inv(Deliver(s, queue))
  {
    if s.receivers != [] {
      FrontLeaves(s.receivers, s.resumedReceivers, Ok);
      WakeOne(s.resumedReceivers, s.receivers[0].tid);
    }
  }

  lemma DrainInv(s: State, queue: seq<nat>)
    requires 0 < |s.queue| <= s.size <= ENTRY_MAX && |queue| == |s.queue| - 1
    requires Placed(s.receivers, s.resumedReceivers) && Placed(s.senders, s.resumedSenders)
    requires s.receivers != [] ==> |s.queue| - 1 <= |Woken(s.resumedReceivers)|
    requires s.senders != [] ==> s.size - |s.queue| <= |Woken(s.resumedSenders)|
    ensures Inv(Drain(s, queue))
  {
    if s.senders != [] {
      FrontLeaves(s.senders, s.resumedSenders, Ok);
      WakeOne(s.resumedSenders, s.senders[0].tid);
    }
  }

  /** Resumed senders and receivers that run again test once more. */
  lemma ResendInv(s: State, c: Call)
    requires Inv(s) && Enabled(s, c) && c.Resend?
    ensures Inv(Step(s, c).0)
  {
    var w := c.w;
    var t := s.(resumedSenders := s.resumedSenders - {w.tid});
    Rerun(s.resumedSenders, w.tid);
    if s.resumedSenders[w.tid] == Ok {
      if |s.queue| < s.size {
        DeliverInv(t, s.queue + [c.value]);
      } else if c.timeout != 0 {
        ResumedDoesNotWait(s.senders, s.resumedSenders, w.tid);
        OneJoins(s.flag, s.senders, t.resumedSenders, w);
      }
    }
  }

  lemma RerecvInv(s: State, c: Call)
    requires Inv(s) && Enabled(s, c) && c.Rerecv?
    ensures Inv(Step(s, c).0)
  {
    var w := c.w;
    var t := s.(resumedReceivers := s.resumedReceivers - {w.tid});
    Rerun(s.resumedReceivers, w.tid);
    if s.resumedReceivers[w.tid] == Ok {
      if s.queue != [] {
        DrainInv(t, s.queue[1..]);
      } else if c.timeout != 0 {
        ResumedDoesNotWait(s.receivers, s.resumedReceivers, w.tid);
        OneJoins(s.flag, s.receivers, t.resumedReceivers, w);
      }
    }
  }

  lemma AbortInv(s: State, tid: nat, err: Err)
    requires Inv(s) && Enabled(s, Abort(tid, err))
    ensures Inv(Step(s, Abort(tid, err)).0)
  {
    if WaitsFor(s.receivers, tid) {
      OneLeaves(s.receivers, s.resumedReceivers, tid, err);
      WakeWithError(s.resumedReceivers, tid, err);
      RemoveMeaning(s.receivers, tid);
    } else {
      OneLeaves(s.senders, s.resumedSenders, tid, err);
      WakeWithError(s.resumedSenders, tid, err);
      RemoveMeaning(s.senders, tid);
    }
  }

  lemma StepInv(s: State, c: Call)
    requires Inv(s) && Enabled(s, c)
    ensures Inv(Step(s, c).0)
  {
    match c
    case Send(w, value, timeout) =>
      if |s.queue| < s.size {
        DeliverInv(s, s.queue + [value]);
      } else if timeout != 0 {
        OneJoins(s.flag, s.senders, s.resumedSenders, w);
      }
    case Urgent(value) =>
      if |s.queue| < s.size {
        DeliverInv(s, [value] + s.queue);
      }
    case Recv(w, timeout) =>
      if s.queue != [] {
        DrainInv(s, s.queue[1..]);
      } else if timeout != 0 {
        OneJoins(s.flag, s.receivers, s.resumedReceivers, w);
      }
    case Resend(_, _, _) => ResendInv(s, c);
    case Rerecv(_, _) => RerecvInv(s, c);
    case Abort(tid, err) => AbortInv(s, tid, err);
    case Reset =>
  }

  // ---- Runs ----

  function Next(s: State, c: Call): State {
    if Enabled(s, c) then Step(s, c).0 else s
  }

  function Run(s: State, calls: seq<Call>): State
    decreases |calls|
  {
    if calls == [] then s else Run(Next(s, calls[0]), calls[1..])
  }

  /** In every interleaving of senders, receivers, timeouts and resets no wake-up is lost. */
  lemma {:induction false} RunKeepsWakeups(s: State, calls: seq<Call>)
    requires Inv(s)
    ensures Inv(Run(s, calls)) && NoLostWakeup(Run(s, calls))
    decreases |calls|
  {
    if calls != [] {
      if Enabled(s, calls[0]) {
        StepInv(s, calls[0]);
      }
      RunKeepsWakeups(if Enabled(s, calls[0]) then Step(s, calls[0]).0 else s, calls[1..]);
    }
  }

  /** The values whose sending returned RT_EOK, in the order of the steps. */
  function SentValues(s: State, calls: seq<Call>): seq<nat>
    decreases |calls|
  {
    if calls == [] then []
    else if !Enabled(s, calls[0]) then SentValues(s, calls[1..])
    else
      var (t, r) := Step(s, calls[0]);
      (if (calls[0].Send? || calls[0].Resend?) && r.Sent? && r.err == Ok then [calls[0].value] else [])
      + SentValues(t, calls[1..])
  }

  /** The values that were received, in the order of the steps. */
  function GotValues(s: State, calls: seq<Call>): seq<nat>
    decreases |calls|
  {
    if calls == [] then []
    else if !Enabled(s, calls[0]) then GotValues(s, calls[1..])
    else
      var (t, r) := Step(s, calls[0]);
      (if r.Got? then [r.value] else []) + GotValues(t, calls[1..])
  }

  /**
   Without urgent messages and resets every word that was sent is received exactly
   once, in the order of sending, or is still in the queue.
   */
  lemma {:induction false} FirstInFirstOut(s: State, calls: seq<Call>)
    requires forall i :: 0 <= i < |calls| ==> !calls[i].Urgent? && !calls[i].Reset?
    ensures s.queue + SentValues(s, calls) == GotValues(s, calls) + Run(s, calls).queue
    decreases |calls|
  {
    if calls == [] {
    } else if !Enabled(s, calls[0]) {
      FirstInFirstOut(s, calls[1..]);
    } else {
      var (t, r) := Step(s, calls[0]);
      FirstInFirstOut(t, calls[1..]);
      var sent := if (calls[0].Send? || calls[0].Resend?) && r.Sent? && r.err == Ok then [calls[0].value] else [];
      var got := if r.Got? then [r.value] else [];
      StepMovesValues(s, calls[0], sent, got);
      JoinMoves(s.queue, sent, SentValues(t, calls[1..]), got, t.queue, GotValues(t, calls[1..]),
                Run(t, calls[1..]).queue);
    }
  }

  lemma StepMovesValues(s: State, c: Call, sent: seq<nat>, got: seq<nat>)
    requires Enabled(s, c) && !c.Urgent? && !c.Reset?
    requires var (t, r) := Step(s, c);
      && sent == (if (c.Send? || c.Resend?) && r.Sent? && r.err == Ok then [c.value] else [])
      && got == (if r.Got? then [r.value] else [])
    ensures s.queue + sent == got + Step(s, c).0.queue
  {
  }

  /** What a step posts, urgent or not. */
  function PostedBy(s: State, c: Call): seq<nat> {
    if !Enabled(s, c) then []
    else if (c.Send? || c.Resend?) && Step(s, c).1.Sent? && Step(s, c).1.err == Ok then [c.value]
    else if c.Urgent? && Step(s, c).1 == Urged(Ok) then [c.value]
    else []
  }

  function GotBy(s: State, c: Call): seq<nat> {
    if Enabled(s, c) && Step(s, c).1.Got? then [Step(s, c).1.value] else []
  }

  function Posted(s: State, calls: seq<Call>): seq<nat>
    decreases |calls|
  {
    if calls == [] then [] else PostedBy(s, calls[0]) + Posted(Next(s, calls[0]), calls[1..])
  }

  function Received(s: State, calls: seq<Call>): seq<nat>
    decreases |calls|
  {
    if calls == [] then [] else GotBy(s, calls[0]) + Received(Next(s, calls[0]), calls[1..])
  }

  lemma StepExactlyOnce(s: State, c: Call)
    requires !c.Reset?
    ensures multiset(s.queue) + multiset(PostedBy(s, c)) == multiset(GotBy(s, c)) + multiset(Next(s, c).queue)
  {
    if Enabled(s, c) {
      if c.Urgent? {
        assert multiset([c.value] + s.queue) == multiset([c.value]) + multiset(s.queue);
      } else {
        var got := GotBy(s, c);
        StepMovesValues(s, c, PostedBy(s, c), got);
        SameUnion(s.queue, PostedBy(s, c), got, Next(s, c).queue);
      }
    }
  }

  /** Urgent or not, without resets every word posted is received exactly once or is still in the queue. */
  lemma {:induction false} ExactlyOnce(s: State, calls: seq<Call>)
    requires forall i :: 0 <= i < |calls| ==> !calls[i].Reset?
    ensures multiset(s.queue) + multiset(Posted(s, calls))
      == multiset(Received(s, calls)) + multiset(Run(s, calls).queue)
    decreases |calls|
  {
    hide Next, PostedBy, GotBy;
    if calls != [] {
      var c, t := calls[0], Next(s, calls[0]);
      StepExactlyOnce(s, c);
      ExactlyOnce(t, calls[1..]);
      var l, u := Posted(t, calls[1..]), Received(t, calls[1..]);
      assert multiset(PostedBy(s, c) + l) == multiset(PostedBy(s, c)) + multiset(l);
      assert multiset(GotBy(s, c) + u) == multiset(GotBy(s, c)) + multiset(u);
      Rearrange(multiset(s.queue), multiset(PostedBy(s, c)), multiset(l), multiset(GotBy(s, c)), multiset(u),
                multiset(t.queue), multiset(Run(t, calls[1..]).queue));
    }
  }

  // ---- Normal words among urgent ones ----

  /** What a step does to the queue. */
  function OpOf(s: State, c: Call): Lanes.Op<nat> {
    if PostedBy(s, c) != [] then (if c.Urgent? then Lanes.Front(c.value) else Lanes.Back(c.value))
    else if GotBy(s, c) != [] then Lanes.Pop
    else Lanes.Keep
  }

  function Ops(s: State, calls: seq<Call>): seq<Lanes.Op<nat>>
    decreases |calls|
  {
    if calls == [] then [] else [OpOf(s, calls[0])] + Ops(Next(s, calls[0]), calls[1..])
  }

  /** At which end a step adds to the queue or takes from it. */
  lemma StepEnds(s: State, c: Call)
    requires !c.Reset?
    ensures PostedBy(s, c) != [] ==> GotBy(s, c) == [] && PostedBy(s, c) == [c.value]
    ensures Next(s, c).queue ==
      if PostedBy(s, c) != [] then (if c.Urgent? then [c.value] + s.queue else s.queue + [c.value])
      else s.queue[|GotBy(s, c)|..]
    ensures |GotBy(s, c)| <= |s.queue| && GotBy(s, c) == s.queue[..|GotBy(s, c)|] && |GotBy(s, c)| <= 1
  {
    hide WaitsFor, Enqueue, Remove, ResumeAll;
  }

  lemma StepRefines(s: State, c: Call, l: Lanes.Lanes<nat>)
    requires !c.Reset? && s.queue == Lanes.Whole(l)
    ensures Next(s, c).queue == Lanes.Whole(Lanes.Apply(l, OpOf(s, c)))
    ensures GotBy(s, c) == Lanes.Values(Lanes.TakenBy(l, OpOf(s, c)))
  {
    hide Next, PostedBy, GotBy, Lanes.Whole, Lanes.Apply, Lanes.TakenBy;
    StepEnds(s, c);
    match OpOf(s, c)
    case Back(v) => Lanes.AddedTo(l, v);
    case Front(v) => Lanes.AddedTo(l, v);
    case Pop => Lanes.TakenFrom(l, GotBy(s, c)[0], Next(s, c).queue);
    case Keep => Lanes.NothingMoves(l);
  }

  /** A run moves the words as the lanes do. */
  lemma {:induction false} RunRefines(s: State, calls: seq<Call>, l: Lanes.Lanes<nat>)
    requires s.queue == Lanes.Whole(l) && forall i :: 0 <= i < |calls| ==> !calls[i].Reset?
    ensures Run(s, calls).queue == Lanes.Whole(Lanes.ApplyAll(l, Ops(s, calls)))
    ensures Received(s, calls) == Lanes.Values(Lanes.TakenByAll(l, Ops(s, calls)))
    ensures SentValues(s, calls) == Lanes.Backs(Ops(s, calls))
    decreases |calls|
  {
    hide Next, OpOf, GotBy, Lanes.Apply, Lanes.TakenBy, Lanes.Whole;
    if calls != [] {
      var c, rest := calls[0], calls[1..];
      var t, o := Next(s, c), OpOf(s, c);
      StepRefines(s, c, l);
      RunRefines(t, rest, Lanes.Apply(l, o));
      Lanes.ValuesJoin(Lanes.TakenBy(l, o), Lanes.TakenByAll(Lanes.Apply(l, o), Ops(t, rest)));
      assert Ops(s, calls)[1..] == Ops(t, rest);
      SentFirst(s, calls);
    }
  }

  lemma SentFirst(s: State, calls: seq<Call>)
    requires calls != []
    ensures SentValues(s, calls) == Lanes.BackOf(OpOf(s, calls[0])) + SentValues(Next(s, calls[0]), calls[1..])
  {
  }

  /**
   In every run without resets, urgent words in between or not, the words of normal sends come out in
   the order of sending, each exactly once, or are still queued. `urgent` and `normal` are what is queued at
   the start, `out` is what is received with a mark of what it was, and `end` what is left.
   */
  lemma NormalsInOrder(s: State, calls: seq<Call>, urgent: seq<nat>, normal: seq<nat>)
    returns (out: seq<Lanes.Item<nat>>, end: Lanes.Lanes<nat>)
    requires s.queue == urgent + normal && forall i :: 0 <= i < |calls| ==> !calls[i].Reset?
    ensures Received(s, calls) == Lanes.Values(out) && Run(s, calls).queue == Lanes.Whole(end)
    ensures normal + SentValues(s, calls) == Lanes.Normals(out) + end.normal
    ensures out == Lanes.TakenByAll(Lanes.Lanes(urgent, normal), Ops(s, calls))
  {
    var l := Lanes.Lanes(urgent, normal);
    RunRefines(s, calls, l);
    Lanes.InOrder(l, Ops(s, calls));
    out, end := Lanes.TakenByAll(l, Ops(s, calls)), Lanes.ApplyAll(l, Ops(s, calls));
  }

  /**
   Once every woken thread has run, nobody waits in vain: receivers wait only on an
   empty mailbox, senders only on a full one.
   */
  lemma QuiescentWaiting(s: State)
    requires Inv(s) && Woken(s.resumedReceivers) == {} && Woken(s.resumedSenders) == {}
    ensures s.receivers != [] ==> s.queue == []
    ensures s.senders != [] ==> |s.queue| == s.size
  {
  }

  // ---- When a call succeeds ----

  /** A thread that goes through the loop: on its first pass, or woken without an error. */
  predicate Passes(s: State, c: Call)
    requires Enabled(s, c)
  {
    match c
    case Resend(w, _, _) => s.resumedSenders[w.tid] == Ok
    case Rerecv(w, _) => s.resumedReceivers[w.tid] == Ok
    case _ => true
  }

  /**
   A receive gets the next word exactly if one is queued; otherwise it fails with timeout 0 and waits
   with any other.
   */
  lemma RecvAnswers(s: State, c: Call)
    requires Inv(s) && Enabled(s, c) && (c.Recv? || c.Rerecv?) && Passes(s, c)
    ensures var (t, r) := Step(s, c);
      && (r.Got? <==> s.queue != [])
      && (r.Got? ==> r == Got(c.w.tid, s.queue[0]) && t.queue == s.queue[1..])
      && (r == Missed(c.w.tid, Timeout) <==> s.queue == [] && c.timeout == 0)
      && (r == Quiet <==> s.queue == [] && c.timeout != 0)
      && (r == Quiet ==> Joins(s.flag, s.receivers, Prios(s.receivers), c.w, c.w.prio, t.receivers))
      && (r != Quiet ==> t.receivers == s.receivers)
      && (r.Got? ==> FirstWoken(s.senders, s.resumedSenders, t.senders, t.resumedSenders))
      && (!r.Got? ==> t.queue == s.queue && t.senders == s.senders && t.resumedSenders == s.resumedSenders)
  {
    hide NoLostWakeup, Joins, Enqueue;
    EnqueueJoins(s.flag, s.receivers, c.w);
    if c.Rerecv? {
      ResumedDoesNotWait(s.receivers, s.resumedReceivers, c.w.tid);
    }
  }

  /** A send posts its word exactly if there is room; otherwise it fails with timeout 0 and waits with any other. */
  lemma SendAnswers(s: State, c: Call)
    requires Inv(s) && Enabled(s, c) && (c.Send? || c.Resend?) && Passes(s, c)
    ensures var (t, r) := Step(s, c);
      && (r == Sent(c.w.tid, Ok) <==> |s.queue| < s.size)
      && (r == Sent(c.w.tid, Ok) ==> t.queue == s.queue + [c.value])
      && (r == Sent(c.w.tid, Full) <==> |s.queue| == s.size && c.timeout == 0)
      && (r == Quiet <==> |s.queue| == s.size && c.timeout != 0)
      && (r == Quiet ==> Joins(s.flag, s.senders, Prios(s.senders), c.w, c.w.prio, t.senders))
      && (r != Quiet ==> t.senders == s.senders)
      && (r == Sent(c.w.tid, Ok) ==> FirstWoken(s.receivers, s.resumedReceivers, t.receivers, t.resumedReceivers))
      && (r != Sent(c.w.tid, Ok) ==>
            t.queue == s.queue && t.receivers == s.receivers && t.resumedReceivers == s.resumedReceivers)
  {
    hide NoLostWakeup, Joins, Enqueue;
    EnqueueJoins(s.flag, s.senders, c.w);
    if c.Resend? {
      ResumedDoesNotWait(s.senders, s.resumedSenders, c.w.tid);
    }
    if s.receivers != [] {
      FrontLeaves(s.receivers, s.resumedReceivers, Ok);
    }
  }

  /** An urgent send posts its word in front exactly if there is room, and never waits. */
  lemma UrgentAnswers(s: State, value: nat)
    requires Inv(s)
    ensures var (t, r) := Step(s, Urgent(value));
      && (r == Urged(Ok) <==> |s.queue| < s.size) && (r == Urged(Full) <==> |s.queue| == s.size)
      && t.queue == (if |s.queue| < s.size then [value] + s.queue else s.queue)
      && t.senders == s.senders && t.resumedSenders == s.resumedSenders
      && (r == Urged(Ok) ==> FirstWoken(s.receivers, s.resumedReceivers, t.receivers, t.resumedReceivers))
      && (r == Urged(Full) ==> t == s)
  {
  }

  /** A timeout or a signal takes exactly its thread off its list, with its error, and does nothing else. */
  lemma AbortAnswers(s: State, tid: nat, err: Err)
    requires Inv(s) && Enabled(s, Abort(tid, err))
    ensures var t := Step(s, Abort(tid, err)).0;
      && t.queue == s.queue
      && if WaitsFor(s.receivers, tid) then
           && OneFailed(s.receivers, s.resumedReceivers, tid, err, t.receivers, t.resumedReceivers)
           && t.senders == s.senders && t.resumedSenders == s.resumedSenders
         else
           && OneFailed(s.senders, s.resumedSenders, tid, err, t.senders, t.resumedSenders)
           && t.receivers == s.receivers && t.resumedReceivers == s.resumedReceivers
  {
    hide NoLostWakeup;
    RemoveMeaning(s.receivers, tid);
    RemoveMeaning(s.senders, tid);
  }

  /** What a thread learns that leaves a waiting list in this step. */
  function Verdict(c: Call): Err {
    match c
    case Abort(_, err) => err
    case Reset => Failed
    case _ => Ok
  }

  lemma ReceiverLeaves(s: State, c: Call, tid: nat)
    requires Inv(s) && Enabled(s, c) && WaitsFor(s.receivers, tid) && !WaitsFor(Step(s, c).0.receivers, tid)
    ensures tid in Step(s, c).0.resumedReceivers && Step(s, c).0.resumedReceivers[tid] == Verdict(c)
    ensures c.Abort? ==> c.tid == tid
  {
    hide NoLostWakeup, Enqueue, WaitsFor, Remove, ResumeAll, Unique;
    FrontLeft(s.receivers, tid);
    match c
    case Recv(w, _) => JoinLeavesNobody(s.flag, s.receivers, w, tid);
    case Rerecv(w, _) => JoinLeavesNobody(s.flag, s.receivers, w, tid);
    case Reset => ResumeAllMeaning(s.resumedReceivers, s.receivers, tid);
    case Abort(t, _) => RemovedLeft(s.receivers, t, tid);
    case _ =>
  }

  lemma SenderLeaves(s: State, c: Call, tid: nat)
    requires Inv(s) && Enabled(s, c) && WaitsFor(s.senders, tid) && !WaitsFor(Step(s, c).0.senders, tid)
    ensures tid in Step(s, c).0.resumedSenders && Step(s, c).0.resumedSenders[tid] == Verdict(c)
    ensures c.Abort? ==> c.tid == tid
  {
    hide NoLostWakeup, Enqueue, WaitsFor, Remove, ResumeAll, Unique;
    FrontLeft(s.senders, tid);
    match c
    case Send(w, _, _) => JoinLeavesNobody(s.flag, s.senders, w, tid);
    case Resend(w, _, _) => JoinLeavesNobody(s.flag, s.senders, w, tid);
    case Reset => ResumeAllMeaning(s.resumedSenders, s.senders, tid);
    case Abort(t, _) => RemovedLeft(s.senders, t, tid);
    case _ =>
  }

  /** A resumed thread keeps its error until it runs. */
  lemma ReceiverStep(s: State, c: Call, tid: nat)
    requires Inv(s) && tid in s.resumedReceivers && !(c.Rerecv? && c.w.tid == tid)
    ensures tid in Next(s, c).resumedReceivers && Next(s, c).resumedReceivers[tid] == s.resumedReceivers[tid]
  {
    hide NoLostWakeup, Enqueue, Remove;
    ResumeAllMeaning(s.resumedReceivers, s.receivers, tid);
    ResumedDoesNotWait(s.receivers, s.resumedReceivers, tid);
    assert s.receivers != [] ==> s.receivers[0] in s.receivers;
  }

  lemma SenderStep(s: State, c: Call, tid: nat)
    requires Inv(s) && tid in s.resumedSenders && !(c.Resend? && c.w.tid == tid)
    ensures tid in Next(s, c).resumedSenders && Next(s, c).resumedSenders[tid] == s.resumedSenders[tid]
  {
    hide NoLostWakeup, Enqueue, Remove;
    ResumeAllMeaning(s.resumedSenders, s.senders, tid);
    ResumedDoesNotWait(s.senders, s.resumedSenders, tid);
    assert s.senders != [] ==> s.senders[0] in s.senders;
  }

  lemma {:induction false} ResumedStays(s: State, calls: seq<Call>, tid: nat)
    requires Inv(s)
    requires forall i :: 0 <= i < |calls| ==> !((calls[i].Rerecv? || calls[i].Resend?) && calls[i].w.tid == tid)
    ensures tid in s.resumedReceivers ==>
      tid in Run(s, calls).resumedReceivers && Run(s, calls).resumedReceivers[tid] == s.resumedReceivers[tid]
    ensures tid in s.resumedSenders ==>
      tid in Run(s, calls).resumedSenders && Run(s, calls).resumedSenders[tid] == s.resumedSenders[tid]
    decreases |calls|
  {
    hide Inv, Next, Enabled;
    if calls != [] {
      if tid in s.resumedReceivers {
        ReceiverStep(s, calls[0], tid);
      }
      if tid in s.resumedSenders {
        SenderStep(s, calls[0], tid);
      }
      NextInv(s, calls[0]);
      ResumedStays(Next(s, calls[0]), calls[1..], tid);
    }
  }

  lemma NextInv(s: State, c: Call)
    requires Inv(s)
    ensures Inv(Next(s, c))
  {
    hide Inv;
    if Enabled(s, c) {
      StepInv(s, c);
    }
  }

  /**
   A waiting receiver leaves the list woken by a message, by a timeout or signal, or by a reset; when it runs, whatever
   ran before, it goes through the loop in the first case and returns the error in the others.
   */
  lemma {:induction false} ReceiverReturns(s: State, c: Call, calls: seq<Call>, w: Waiter, timeout: int)
    requires Inv(s) && Enabled(s, c) && WaitsFor(s.receivers, w.tid) && !WaitsFor(Step(s, c).0.receivers, w.tid)
    requires forall i :: 0 <= i < |calls| ==> !((calls[i].Rerecv? || calls[i].Resend?) && calls[i].w.tid == w.tid)
    ensures var t := Run(Step(s, c).0, calls);
      && Enabled(t, Rerecv(w, timeout)) && (Passes(t, Rerecv(w, timeout)) <==> Verdict(c) == Ok)
      && (Verdict(c) != Ok ==> Step(t, Rerecv(w, timeout)).1 == Missed(w.tid, Verdict(c)))
      && (Verdict(c) != Ok ==> Step(t, Rerecv(w, timeout)).0.queue == t.queue)
  {
    hide Inv, Run, WaitsFor, Verdict, RecvPass;
    ReceiverLeaves(s, c, w.tid);
    StepInv(s, c);
    ResumedStays(Step(s, c).0, calls, w.tid);
  }

  /** The same for a waiting sender. */
  lemma {:induction false} SenderReturns(s: State, c: Call, calls: seq<Call>, w: Waiter, value: nat, timeout: int)
    requires Inv(s) && Enabled(s, c) && WaitsFor(s.senders, w.tid) && !WaitsFor(Step(s, c).0.senders, w.tid)
    requires forall i :: 0 <= i < |calls| ==> !((calls[i].Rerecv? || calls[i].Resend?) && calls[i].w.tid == w.tid)
    ensures var t := Run(Step(s, c).0, calls);
      && Enabled(t, Resend(w, value, timeout)) && (Passes(t, Resend(w, value, timeout)) <==> Verdict(c) == Ok)
      && (Verdict(c) != Ok ==> Step(t, Resend(w, value, timeout)).1 == Sent(w.tid, Verdict(c)))
      && (Verdict(c) != Ok ==> Step(t, Resend(w, value, timeout)).0.queue == t.queue)
  {
    hide Inv, Run, WaitsFor, Verdict, SendPass;
    SenderLeaves(s, c, w.tid);
    StepInv(s, c);
    ResumedStays(Step(s, c).0, calls, w.tid);
  }

  /** A reset leaves no word and no waiting thread; who waited finds an error. */
  lemma ResetAnswers(s: State, tid: nat)
    requires Inv(s)
    ensures var t := Step(s, Reset).0;
      && t.queue == [] && t.receivers == [] && t.senders == [] && t.size == s.size
      && (WaitsFor(s.receivers, tid) ==> tid in t.resumedReceivers && t.resumedReceivers[tid] == Failed)
      && (WaitsFor(s.senders, tid) ==> tid in t.resumedSenders && t.resumedSenders[tid] == Failed)
  {
    ResumeAllMeaning(s.resumedReceivers, s.receivers, tid);
    ResumeAllMeaning(s.resumedSenders, s.senders, tid);
  }

  lemma StepInLine(s: State, c: Call)
    requires InLine(s.flag, Prios(s.receivers)) && InLine(s.flag, Prios(s.senders))
    ensures var t := Next(s, c);
      t.flag == s.flag && InLine(s.flag, Prios(t.receivers)) && InLine(s.flag, Prios(t.senders))
  {
    hide Enqueue, Remove, WaitsFor, ResumeAll, InLine, Prios;
    TailInLine(s.flag, s.receivers);
    TailInLine(s.flag, s.senders);
    NobodyInLine(s.flag);
    if Enabled(s, c) {
      match c
      case Send(w, _, _) => EnqueueInLine(s.flag, s.senders, w);
      case Resend(w, _, _) => EnqueueInLine(s.flag, s.senders, w);
      case Recv(w, _) => EnqueueInLine(s.flag, s.receivers, w);
      case Rerecv(w, _) => EnqueueInLine(s.flag, s.receivers, w);
      case Abort(tid, _) =>
        RemoveInLine(s.flag, s.receivers, tid);
        RemoveInLine(s.flag, s.senders, tid);
      case _ =>
    }
  }

  /** In every run both waiting lists stay in line. */
  lemma {:induction false} RunInLine(s: State, calls: seq<Call>)
    requires InLine(s.flag, Prios(s.receivers)) && InLine(s.flag, Prios(s.senders))
    ensures var t := Run(s, calls); InLine(s.flag, Prios(t.receivers)) && InLine(s.flag, Prios(t.senders))
    decreases |calls|
  {
    hide Next, InLine;
    if calls != [] {
      StepInLine(s, calls[0]);
      RunInLine(Next(s, calls[0]), calls[1..]);
    }
  }

  /** How many words are queued is known from what was posted and received. */
  lemma QueuedCount(s: State, calls: seq<Call>)
    requires Inv(s) && forall i :: 0 <= i < |calls| ==> !calls[i].Reset?
    ensures |Run(s, calls).queue| == |s.queue| + |Posted(s, calls)| - |Received(s, calls)|
  {
    ExactlyOnce(s, calls);
    var q, p, r, e := s.queue, Posted(s, calls), Received(s, calls), Run(s, calls).queue;
    assert |multiset(q) + multiset(p)| == |multiset(r) + multiset(e)|;
    assert |multiset(q)| == |q| && |multiset(p)| == |p| && |multiset(r)| == |r| && |multiset(e)| == |e|;
  }

  /**
   In every run without resets a poll comes back empty exactly if every word has been received, and a send
   without waiting is refused exactly if as many words as fit have been posted and not received.
   */
  lemma PollFailsIff(s: State, calls: seq<Call>, w: Waiter, value: nat)
    requires Inv(s) && forall i :: 0 <= i < |calls| ==> !calls[i].Reset?
    requires Running(Run(s, calls), w.tid)
    ensures var t, waiting := Run(s, calls), |s.queue| + |Posted(s, calls)| - |Received(s, calls)|;
      && (Step(t, Recv(w, 0)).1 == Missed(w.tid, Timeout) <==> waiting == 0)
      && (Step(t, Recv(w, 0)).1.Got? <==> waiting > 0)
      && (Step(t, Send(w, value, 0)).1 == Sent(w.tid, Full) <==> waiting == s.size)
      && (Step(t, Send(w, value, 0)).1 == Sent(w.tid, Ok) <==> waiting < s.size)
  {
    hide Inv, Run, Posted, Received, Step;
    RunKeepsWakeups(s, calls);
    QueuedCount(s, calls);
    RunSize(s, calls);
    RecvAnswers(Run(s, calls), Recv(w, 0));
    SendAnswers(Run(s, calls), Send(w, value, 0));
  }

  lemma {:induction false} RunSize(s: State, calls: seq<Call>)
    ensures Run(s, calls).size == s.size
    decreases |calls|
  {
    if calls != [] {
      RunSize(Next(s, calls[0]), calls[1..]);
    }
  }

  // ---- The ring ----

  /** A position of the ring, from one that has run past the end at most once. */
  function Wrap(n: nat, i: nat): nat {
    if i < n then i else i - n
  }

  /** The `entry` words of the ring from `out` on, oldest first. */
  function Window(pool: seq<nat>, out: nat, entry: nat): (q: seq<nat>)
    requires out <= |pool| && entry <= |pool|
    ensures |q| == entry
  {
    if out + entry <= |pool| then pool[out..out + entry] else pool[out..] + pool[..out + entry - |pool|]
  }

  /** What `Wrap` and `Window` mean in modular arithmetic. */
  lemma WindowAt(pool: seq<nat>, out: nat, entry: nat, i: nat)
    requires out < |pool| && i < entry <= |pool|
    ensures Window(pool, out, entry)[i] == pool[(out + i) % |pool|]
    ensures Wrap(|pool|, out + entry) == (out + entry) % |pool|
  {
    WrapIsRemainder(|pool|, out + i);
    WrapIsRemainder(|pool|, out + entry);
  }

  lemma WrapIsRemainder(n: nat, i: nat)
    requires n > 0 && i < 2 * n
    ensures Wrap(n, i) == i % n
  {
    if i >= n {
      assert i == n * 1 + (i - n);
    }
  }

  lemma WindowBack(pool: seq<nat>, out: nat, entry: nat, value: nat)
    requires out < |pool| && entry < |pool|
    ensures Window(pool[Wrap(|pool|, out + entry) := value], out, entry + 1) == Window(pool, out, entry) + [value]
  {
  }

  lemma WindowTake(pool: seq<nat>, out: nat, entry: nat)
    requires out < |pool| && 0 < entry <= |pool|
    ensures var o := Wrap(|pool|, out + 1);
      && Window(pool, out, entry)[0] == pool[out]
      && Window(pool, o, entry - 1) == Window(pool, out, entry)[1..]
      && Wrap(|pool|, o + entry - 1) == Wrap(|pool|, out + entry)
  {
  }

  /** A word outside the window may change. */
  lemma WindowFrame(pool: seq<nat>, out: nat, entry: nat, i: nat, value: nat)
    requires i < |pool| && out < |pool| && entry < |pool| && Wrap(|pool|, i + 1) == out
    ensures Window(pool[i := value], out, entry) == Window(pool, out, entry)
  {
    var n := |pool|;
    if out + entry <= n {
      assert pool[i := value][out..out + entry] == pool[out..out + entry];
    } else {
      assert pool[i := value][out..] == pool[out..];
      assert pool[i := value][..out + entry - n] == pool[..out + entry - n];
    }
  }

  lemma WindowFront(pool: seq<nat>, out: nat, entry: nat, value: nat)
    requires out < |pool| && entry < |pool|
    ensures var o := if out > 0 then out - 1 else |pool| - 1;
      && Window(pool[o := value], o, entry + 1) == [value] + Window(pool, out, entry)
      && Wrap(|pool|, o + entry + 1) == Wrap(|pool|, out + entry)
  {
    hide Window;
    var o := if out > 0 then out - 1 else |pool| - 1;
    WindowFrame(pool, out, entry, o, value);
    WindowTake(pool[o := value], o, entry + 1);
    var w := Window(pool[o := value], o, entry + 1);
    assert w == [w[0]] + w[1..];
  }

  // ---- The object ----

  class MailboxObject {
    const flag: Flag
    const msgPool: array<nat>
    var entry: nat
    var inOffset: nat
    var outOffset: nat
    var receivers: seq<Waiter>
    var senders: seq<Waiter>
    var resumedReceivers: Resumed
    var resumedSenders: Resumed

    /** The offsets describe a window of `entry` words of the ring. */
    ghost predicate ValidRing()
      reads this
    {
      && entry <= msgPool.Length <= ENTRY_MAX
      && (msgPool.Length == 0 ==> inOffset == outOffset == 0)
      && (msgPool.Length > 0 ==> outOffset < msgPool.Length && inOffset == Wrap(msgPool.Length, outOffset + entry))
    }

    ghost function View(): State
      requires ValidRing()
      reads this, msgPool
    {
      State(flag, msgPool.Length, Window(msgPool[..], outOffset, entry), receivers, senders,
            resumedReceivers, resumedSenders)
    }

    ghost predicate Valid()
      reads this, msgPool
    {
      ValidRing() && Inv(View())
    }

    /** rt_mb_init. */
    constructor (flag: Flag, msgPool: array<nat>)
      requires msgPool.Length <= ENTRY_MAX
      ensures Valid() && View() == State(flag, msgPool.Length, [], [], [], map[], map[]) && this.msgPool == msgPool
    {
      this.flag, this.msgPool := flag, msgPool;
      entry, inOffset, outOffset := 0, 0, 0;
      receivers, senders, resumedReceivers, resumedSenders := [], [], map[], map[];
    }

    /** In every valid state the offsets meet as the ring demands. */
    lemma OffsetsMeet()
      requires Valid() && msgPool.Length > 0
      ensures inOffset == (outOffset + entry) % msgPool.Length
      ensures forall i :: 0 <= i < entry ==> View().queue[i] == msgPool[(outOffset + i) % msgPool.Length]
    {
      WrapIsRemainder(msgPool.Length, outOffset + entry);
      forall i: nat | i < entry
        ensures View().queue[i] == msgPool[(outOffset + i) % msgPool.Length]
      {
        WindowAt(msgPool[..], outOffset, entry, i);
      }
    }

    /** Store a word behind the last one; the overflow branch on `entry` cannot be taken. */
    method PutBack(value: nat) returns (stored: bool)
      requires ValidRing() && entry < msgPool.Length
      modifies this`entry, this`inOffset, msgPool
      ensures stored && ValidRing() && View() == old(View()).(queue := old(View().queue) + [value])
    {
      WindowBack(msgPool[..], outOffset, entry, value);
      msgPool[inOffset] := value;
      assert msgPool[..] == old(msgPool[..])[old(inOffset) := value];
      inOffset := inOffset + 1;
      if inOffset >= msgPool.Length {
        inOffset := 0;
      }
      if entry < ENTRY_MAX {
        entry := entry + 1;
        stored := true;
      } else {
        stored := false;
      }
    }

    /** Store a word before the first one. */
    method PutFront(value: nat)
      requires ValidRing() && entry < msgPool.Length
      modifies this`entry, this`outOffset, msgPool
      ensures ValidRing() && View() == old(View()).(queue := [value] + old(View().queue))
    {
      WindowFront(msgPool[..], outOffset, entry, value);
      if outOffset > 0 {
        outOffset := outOffset - 1;
      } else {
        outOffset := msgPool.Length - 1;
      }
      msgPool[outOffset] := value;
      assert msgPool[..] == old(msgPool[..])[outOffset := value];
      entry := entry + 1;
    }

    /** Take the first word. */
    method TakeFront() returns (value: nat)
      requires ValidRing() && entry > 0
      modifies this`entry, this`outOffset
      ensures ValidRing() && value == old(View().queue)[0] && View() == old(View()).(queue := old(View().queue)[1..])
    {
      WindowTake(msgPool[..], outOffset, entry);
      value := msgPool[outOffset];
      outOffset := outOffset + 1;
      if outOffset >= msgPool.Length {
        outOffset := 0;
      }
      entry := entry - 1;
    }

    method WakeReceiver()
      requires ValidRing()
      modifies this`receivers, this`resumedReceivers
      ensures ValidRing() && View() == Deliver(old(View()), old(View().queue))
    {
      if receivers != [] {
        resumedReceivers := resumedReceivers[receivers[0].tid := Ok];
        receivers := receivers[1..];
      }
    }

    method WakeSender()
      requires ValidRing()
      modifies this`senders, this`resumedSenders
      ensures ValidRing() && View() == Drain(old(View()), old(View().queue))
    {
      if senders != [] {
        resumedSenders := resumedSenders[senders[0].tid := Ok];
        senders := senders[1..];
      }
    }

    /** One pass of the loop of rt_mb_send_wait. */
    method TrySend(w: Waiter, value: nat, timeout: int) returns (r: Report)
      requires ValidRing()
      modifies this, msgPool
      ensures ValidRing() && (View(), r) == SendPass(old(View()), w, value, timeout)
    {
      if entry == msgPool.Length {
        if timeout == 0 {
          return Sent(w.tid, Full);
        }
        senders := Enqueue(flag, senders, w);
        return Quiet;
      }
      var stored := PutBack(value);
      if !stored {
        return Sent(w.tid, Full);
      }
      WakeReceiver();
      return Sent(w.tid, Ok);
    }

    /** One pass of the loop of rt_mb_recv. */
    method TryRecv(w: Waiter, timeout: int) returns (r: Report)
      requires ValidRing()
      modifies this
      ensures ValidRing() && (View(), r) == RecvPass(old(View()), w, timeout)
    {
      if entry == 0 {
        if timeout == 0 {
          return Missed(w.tid, Timeout);
        }
        receivers := Enqueue(flag, receivers, w);
        return Quiet;
      }
      var value := TakeFront();
      WakeSender();
      return Got(w.tid, value);
    }

    /** rt_mb_send_wait up to the point where the thread returns or is suspended. */
    method Send(w: Waiter, value: nat, timeout: int) returns (r: Report)
      requires Valid() && Enabled(View(), Call.Send(w, value, timeout))
      modifies this, msgPool
      ensures Valid() && (View(), r) == Step(old(View()), Call.Send(w, value, timeout))
    {
      StepInv(View(), Call.Send(w, value, timeout));
      r := TrySend(w, value, timeout);
    }

    /** rt_mb_send_wait after the sender was resumed, with the timeout that remains. */
    method Resend(w: Waiter, value: nat, timeout: int) returns (r: Report)
      requires Valid() && Enabled(View(), Call.Resend(w, value, timeout))
      modifies this, msgPool
      ensures Valid() && (View(), r) == Step(old(View()), Call.Resend(w, value, timeout))
    {
      StepInv(View(), Call.Resend(w, value, timeout));
      var error := resumedSenders[w.tid];
      resumedSenders := resumedSenders - {w.tid};
      if error != Ok {
        return Sent(w.tid, error);
      }
      r := TrySend(w, value, timeout);
    }

    /** rt_mb_urgent. */
    method Urgent(value: nat) returns (r: Report)
      requires Valid()
      modifies this, msgPool
      ensures Valid() && (View(), r) == Step(old(View()), Call.Urgent(value))
    {
      StepInv(View(), Call.Urgent(value));
      if entry == msgPool.Length {
        return Urged(Full);
      }
      PutFront(value);
      WakeReceiver();
      return Urged(Ok);
    }

    /** rt_mb_recv up to the point where the thread returns or is suspended. */
    method Recv(w: Waiter, timeout: int) returns (r: Report)
      requires Valid() && Enabled(View(), Call.Recv(w, timeout))
      modifies this
      ensures Valid() && (View(), r) == Step(old(View()), Call.Recv(w, timeout))
    {
      StepInv(View(), Call.Recv(w, timeout));
      r := TryRecv(w, timeout);
    }

    /** rt_mb_recv after the receiver was resumed, with the timeout that remains. */
    method Rerecv(w: Waiter, timeout: int) returns (r: Report)
      requires Valid() && Enabled(View(), Call.Rerecv(w, timeout))
      modifies this
      ensures Valid() && (View(), r) == Step(old(View()), Call.Rerecv(w, timeout))
    {
      StepInv(View(), Call.Rerecv(w, timeout));
      var error := resumedReceivers[w.tid];
      resumedReceivers := resumedReceivers - {w.tid};
      if error != Ok {
        return Missed(w.tid, error);
      }
      r := TryRecv(w, timeout);
    }

    /** rt_thread_timeout, or a signal, takes a thread off the list it waits in. */
    method Abort(tid: nat, err: Err)
      requires Valid() && Enabled(View(), Call.Abort(tid, err))
      modifies this
      ensures Valid() && View() == Step(old(View()), Call.Abort(tid, err)).0
    {
      StepInv(View(), Call.Abort(tid, err));
      if WaitsFor(receivers, tid) {
        receivers := Remove(receivers, tid);
        resumedReceivers := resumedReceivers[tid := err];
      } else {
        senders := Remove(senders, tid);
        resumedSenders := resumedSenders[tid := err];
      }
    }

    /** rt_mb_control with RT_IPC_CMD_RESET. */
    method Reset()
      requires Valid()
      modifies this
      ensures Valid() && View() == Step(old(View()), Call.Reset).0
    {
      hide Placed, Woken, NoLostWakeup, WaitsFor;
      ghost var s := View();
      StepInv(s, Call.Reset);
      while receivers != []
        invariant ValidRing() && ResumeAll(resumedReceivers, receivers) == ResumeAll(s.resumedReceivers, s.receivers)
        invariant senders == s.senders && resumedSenders == s.resumedSenders
        decreases |receivers|
      {
        resumedReceivers := resumedReceivers[receivers[0].tid := Failed];
        receivers := receivers[1..];
      }
      while senders != []
        invariant ValidRing() && ResumeAll(resumedSenders, senders) == ResumeAll(s.resumedSenders, s.senders)
        invariant receivers == [] && resumedReceivers == ResumeAll(s.resumedReceivers, s.receivers)
        decreases |senders|
      {
        resumedSenders := resumedSenders[senders[0].tid := Failed];
        senders := senders[1..];
      }
      entry, inOffset, outOffset := 0, 0, 0;
    }
  }
}
