/**
 Event objects (ipc.c): threads wait for all or for any of some bits; one send
 serves the waiting list from left to right, and bits taken with CLEAR are gone
 for everybody behind.
 */
module EventSet {
  import opened WaitQueue
  import opened Ipc

  /** A 32-bit word as the set of its 1 bits: & is *, | is +, & ~ is -. */
  type Bits = set<nat>

  /** RT_EVENT_FLAG_AND, RT_EVENT_FLAG_OR and RT_EVENT_FLAG_CLEAR of an option byte. */
  datatype Option = Option(and: bool, or: bool, clear: bool)

  datatype Waiter = Waiter(tid: nat, prio: nat, events: Bits, option: Option)

  /** What a resumed thread finds: thread->error and thread->event_set. */
  datatype Wake = Wake(err: Err, events: Bits)

  datatype State = State(flag: Flag, events: Bits, waiters: seq<Waiter>, resumed: map<nat, Wake>)

  datatype Outcome = Returned(tid: nat, wake: Wake) | Posted(err: Err) | Silent

  datatype Call =
    | Send(events: Bits)
    | Recv(w: Waiter, timeout: int)
    | Return(tid: nat)
    | Abort(tid: nat, err: Err)
    | Reset

  predicate Satisfied(events: Bits, want: Bits, option: Option) {
    if option.and then want * events == want else option.or && want * events != {}
  }

  /** The bits a satisfied waiter receives. */
  function Received(events: Bits, w: Waiter): Bits {
    if w.option.and then w.events else w.events * events
  }

  /** One delivery of a send: to whom, which bits, and whether they were consumed. */
  datatype Delivery = Delivery(tid: nat, bits: Bits, clear: bool)

  datatype Sweep = Sweep(events: Bits, left: seq<Waiter>, deliveries: seq<Delivery>)

  /** Serving the waiting list from left to right. */
  function Serve(events: Bits, q: seq<Waiter>): Sweep {
    if q == [] then Sweep(events, [], [])
    else if Satisfied(events, q[0].events, q[0].option) then
      var bits := Received(events, q[0]);
      var rest := Serve(if q[0].option.clear then events - bits else events, q[1..]);
      rest.(deliveries := [Delivery(q[0].tid, bits, q[0].option.clear)] + rest.deliveries)
    else
      var rest := Serve(events, q[1..]);
      rest.(left := [q[0]] + rest.left)
  }

  function Wakes(resumed: map<nat, Wake>, ds: seq<Delivery>): map<nat, Wake>
    decreases |ds|
  {
    if ds == [] then resumed else Wakes(resumed[ds[0].tid := Wake(Ok, ds[0].bits)], ds[1..])
  }

  function PriosOf(q: seq<Waiter>): (r: seq<nat>)
    ensures |r| == |q|
    ensures forall i :: 0 <= i < |q| ==> r[i] == q[i].prio
  {
    seq(|q|, i requires 0 <= i < |q| => q[i].prio)
  }

  function Join(flag: Flag, q: seq<Waiter>, w: Waiter): seq<Waiter> {
    InsertAt(q, Slot(flag, PriosOf(q), w.prio), w)
  }

  function Drop(q: seq<Waiter>, tid: nat): seq<Waiter> {
    if q == [] then [] else if q[0].tid == tid then q[1..] else [q[0]] + Drop(q[1..], tid)
  }

  function FailAll(resumed: map<nat, Wake>, q: seq<Waiter>): map<nat, Wake>
    decreases |q|
  {
    if q == [] then resumed else FailAll(resumed[q[0].tid := Wake(Failed, q[0].events)], q[1..])
  }

  predicate Waiting(q: seq<Waiter>, tid: nat) {
    exists w :: w in q && w.tid == tid
  }

  /** A receiver must ask for AND or OR (the code asserts it) and be running. */
  predicate Enabled(s: State, c: Call) {
    match c
    case Send(_) => true
    case Recv(w, _) => (w.option.and || w.option.or) && !Waiting(s.waiters, w.tid) && w.tid !in s.resumed
    case Return(tid) => tid in s.resumed
    case Abort(tid, err) => Waiting(s.waiters, tid) && err != Ok
    case Reset => true
  }

  function Step(s: State, c: Call): (State, Outcome)
    requires Enabled(s, c)
  {
    match c
    case Send(events) =>
      if events == {} then (s, Posted(Failed))
      else
        var r := Serve(s.events + events, s.waiters);
        (s.(events := r.events, waiters := r.left, resumed := Wakes(s.resumed, r.deliveries)), Posted(Ok))
    case Recv(w, timeout) =>
      if w.events == {} then (s, Returned(w.tid, Wake(Failed, {})))
      else if Satisfied(s.events, w.events, w.option) then
        var left := if w.option.clear then s.events - w.events else s.events;
        (s.(events := left), Returned(w.tid, Wake(Ok, s.events * w.events)))
      else if timeout == 0 then (s, Returned(w.tid, Wake(Timeout, {})))
      else (s.(waiters := Join(s.flag, s.waiters, w)), Silent)
    case Return(tid) => (s.(resumed := s.resumed - {tid}), Returned(tid, s.resumed[tid]))
    case Abort(tid, err) =>
      (s.(waiters := Drop(s.waiters, tid), resumed := s.resumed[tid := Wake(err, {})]), Silent)
    case Reset => (s.(events := {}, waiters := [], resumed := FailAll(s.resumed, s.waiters)), Silent)
  }

  // ---- One send ----

  /** Bits are only ever taken away while serving. */
  lemma {:induction false} ServeShrinks(events: Bits, q: seq<Waiter>)
    ensures Serve(events, q).events <= events
    ensures forall d :: d in Serve(events, q).deliveries ==> d.bits <= events
  {
    if q != [] {
      var sat := Satisfied(events, q[0].events, q[0].option);
      ServeShrinks(if sat && q[0].option.clear then events - Received(events, q[0]) else events, q[1..]);
    }
  }

  /** Who was not served is not satisfied by what is left. */
  lemma {:induction false} ServeLeavesUnsatisfied(events: Bits, q: seq<Waiter>)
    ensures forall w :: w in Serve(events, q).left ==> w in q && !Satisfied(Serve(events, q).events, w.events, w.option)
  {
    if q != [] {
      var sat := Satisfied(events, q[0].events, q[0].option);
      var next := if sat && q[0].option.clear then events - Received(events, q[0]) else events;
      ServeLeavesUnsatisfied(next, q[1..]);
      ServeShrinks(next, q[1..]);
      assert q == [q[0]] + q[1..];
    }
  }

  /** Bits delivered with CLEAR reach no later waiter of the same send and are gone afterwards. */
  lemma {:induction false} ServeConsumes(events: Bits, q: seq<Waiter>)
    ensures var r := Serve(events, q);
      forall i :: 0 <= i < |r.deliveries| && r.deliveries[i].clear ==>
        r.deliveries[i].bits !! r.events
        && forall j :: i < j < |r.deliveries| ==> r.deliveries[i].bits !! r.deliveries[j].bits
  {
    if q != [] {
      var sat := Satisfied(events, q[0].events, q[0].option);
      var bits := Received(events, q[0]);
      var next := if sat && q[0].option.clear then events - bits else events;
      ServeConsumes(next, q[1..]);
      ServeShrinks(next, q[1..]);
      if sat {
        var r, rest := Serve(events, q), Serve(next, q[1..]);
        assert r.deliveries == [Delivery(q[0].tid, bits, q[0].option.clear)] + rest.deliveries;
        assert forall j :: 1 <= j < |r.deliveries| ==>
          r.deliveries[j] == rest.deliveries[j - 1] && r.deliveries[j] in rest.deliveries;
      }
    }
  }

  /** Bits that no CLEAR waiter took stay set. */
  lemma {:induction false} ServeKeepsTheRest(events: Bits, q: seq<Waiter>, b: nat)
    requires b in events
    ensures b in Serve(events, q).events
      || exists d :: d in Serve(events, q).deliveries && d.clear && b in d.bits
  {
    if q != [] {
      var sat := Satisfied(events, q[0].events, q[0].option);
      var bits := Received(events, q[0]);
      var next := if sat && q[0].option.clear then events - bits else events;
      if b in next {
        ServeKeepsTheRest(next, q[1..], b);
      } else {
        assert Delivery(q[0].tid, bits, true) in Serve(events, q).deliveries;
      }
    }
  }

  /** Every delivery is what some waiter asked for: all its bits, or those of them that were set. */
  lemma {:induction false} ServeDelivers(events: Bits, q: seq<Waiter>, d: Delivery) returns (w: Waiter)
    requires d in Serve(events, q).deliveries
    ensures w in q && w.tid == d.tid && d.clear == w.option.clear
    ensures if w.option.and then d.bits == w.events else d.bits != {} && d.bits <= w.events
  {
    var sat := Satisfied(events, q[0].events, q[0].option);
    var bits := Received(events, q[0]);
    if sat && d == Delivery(q[0].tid, bits, q[0].option.clear) {
      w := q[0];
    } else {
      w := ServeDelivers(if sat && q[0].option.clear then events - bits else events, q[1..], d);
      assert q == [q[0]] + q[1..];
    }
  }

  /** One step of the fold, in the terms of the loop. */
  lemma ServeFirst(events: Bits, w: Waiter, thread: Waiter, q: seq<Waiter>, status: bool)
    requires status == Satisfied(events, w.events, w.option)
    requires thread == if status then w.(events := Received(events, w)) else w
    ensures var r := Serve(events, [w] + q);
      var rest := Serve(if status && w.option.clear then events - thread.events else events, q);
      && r.events == rest.events
      && r.left == (if status then rest.left else [w] + rest.left)
      && r.deliveries ==
         if status then [Delivery(w.tid, thread.events, w.option.clear)] + rest.deliveries else rest.deliveries
  {
    assert ([w] + q)[1..] == q;
  }

  lemma ServeNobody(events: Bits, resumed: map<nat, Wake>)
    ensures Serve(events, []) == Sweep(events, [], []) && Wakes(resumed, []) == resumed
  {
  }

  lemma WakesFirst(resumed: map<nat, Wake>, d: Delivery, rest: seq<Delivery>)
    ensures Wakes(resumed, [d] + rest) == Wakes(resumed[d.tid := Wake(Ok, d.bits)], rest)
  {
    assert ([d] + rest)[1..] == rest;
  }

  /** Every thread waits at most once. */
  ghost predicate Once(q: seq<Waiter>) {
    forall i, j :: 0 <= i < j < |q| ==> q[i].tid != q[j].tid
  }

  lemma OnceFirst(q: seq<Waiter>)
    requires q != []
    ensures Once(q) <==> Once(q[1..]) && !Waiting(q[1..], q[0].tid)
    ensures forall w :: w in q <==> w == q[0] || w in q[1..]
  {
    assert q == [q[0]] + q[1..];
    if Once(q) {
      forall w | w in q[1..]
        ensures w.tid != q[0].tid
      {
        var i :| 0 <= i < |q[1..]| && q[1..][i] == w;
        assert q[i + 1] == w;
      }
    }
    if Once(q[1..]) && !Waiting(q[1..], q[0].tid) {
      forall i, j | 0 <= i < j < |q|
        ensures q[i].tid != q[j].tid
      {
        assert q[1..][j - 1] == q[j] && q[j] in q[1..];
        assert i > 0 ==> q[1..][i - 1] == q[i];
      }
    }
  }

  /** Serving parts the waiting list: who is served does not wait on. */
  lemma {:induction false} ServeParts(events: Bits, q: seq<Waiter>)
    requires Once(q)
    ensures var r := Serve(events, q);
      && Once(r.left) && (forall w :: w in r.left ==> w in q)
      && forall d :: d in r.deliveries ==> Waiting(q, d.tid) && !Waiting(r.left, d.tid)
  {
    if q != [] {
      var sat := Satisfied(events, q[0].events, q[0].option);
      var next := if sat && q[0].option.clear then events - Received(events, q[0]) else events;
      OnceFirst(q);
      ServeParts(next, q[1..]);
      var rest := Serve(next, q[1..]);
      if sat {
        assert forall d :: d in rest.deliveries ==> Waiting(q, d.tid);
      } else {
        OnceFirst([q[0]] + rest.left);
        assert ([q[0]] + rest.left)[1..] == rest.left;
      }
    }
  }

  /** A waiting thread waits on, or is delivered what it asked for. */
  lemma {:induction false} ServeSplits(events: Bits, q: seq<Waiter>, w: Waiter)
    requires Once(q) && w in q
    ensures var r := Serve(events, q);
      && (w in r.left <==> forall d :: d in r.deliveries ==> d.tid != w.tid)
      && forall d :: d in r.deliveries && d.tid == w.tid ==>
           if w.option.and then d.bits == w.events else d.bits != {} && d.bits <= w.events
  {
    var sat := Satisfied(events, q[0].events, q[0].option);
    var next := if sat && q[0].option.clear then events - Received(events, q[0]) else events;
    var r, rest := Serve(events, q), Serve(next, q[1..]);
    OnceFirst(q);
    ServeParts(next, q[1..]);
    if w == q[0] {
      if sat {
        assert Delivery(w.tid, Received(events, w), w.option.clear) in r.deliveries;
      }
      assert forall d :: d in rest.deliveries ==> d.tid != w.tid;
    } else {
      ServeSplits(next, q[1..], w);
    }
  }

  // ---- Runs ----

  /** No waiting thread could go on with the bits that are set. */
  ghost predicate NoneSatisfied(s: State) {
    forall w :: w in s.waiters ==> !Satisfied(s.events, w.events, w.option)
  }

  ghost predicate Inv(s: State) {
    && NoneSatisfied(s)
    && Once(s.waiters) && (forall w :: w in s.waiters ==> w.tid !in s.resumed)
    && (forall w :: w in s.waiters ==> (w.option.and || w.option.or) && w.events != {})
  }

  lemma JoinMembers(flag: Flag, q: seq<Waiter>, w: Waiter)
    ensures forall x :: x in Join(flag, q, w) <==> x in q || x == w
  {
    var k := Slot(flag, PriosOf(q), w.prio);
    assert q == q[..k] + q[k..];
  }

  lemma JoinOnce(flag: Flag, q: seq<Waiter>, w: Waiter)
    requires Once(q) && !Waiting(q, w.tid)
    ensures Once(Join(flag, q, w))
  {
    assert forall i :: 0 <= i < |q| ==> q[i] in q;
  }

  /** Dropping a thread takes out its entry and no other. */
  lemma {:induction false} DropMembers(q: seq<Waiter>, tid: nat)
    requires Once(q)
    ensures Once(Drop(q, tid)) && forall x :: x in Drop(q, tid) <==> x in q && x.tid != tid
  {
    if q != [] {
      OnceFirst(q);
      DropMembers(q[1..], tid);
      if q[0].tid != tid {
        OnceFirst(Drop(q, tid));
        assert Drop(q, tid)[1..] == Drop(q[1..], tid);
      }
    }
  }

  /** Who is served by a send finds its bits and no error; nobody else is woken. */
  lemma {:induction false} WakesMeaning(resumed: map<nat, Wake>, ds: seq<Delivery>, t: nat)
    ensures (forall d :: d in ds ==> d.tid != t) ==>
      (t in Wakes(resumed, ds) <==> t in resumed) && (t in resumed ==> Wakes(resumed, ds)[t] == resumed[t])
    ensures (exists d :: d in ds && d.tid == t) ==>
      t in Wakes(resumed, ds) && exists d :: d in ds && d.tid == t && Wakes(resumed, ds)[t] == Wake(Ok, d.bits)
    decreases |ds|
  {
    if ds != [] {
      WakesMeaning(resumed[ds[0].tid := Wake(Ok, ds[0].bits)], ds[1..], t);
      assert ds == [ds[0]] + ds[1..];
    }
  }

  lemma SendInv(s: State, events: Bits)
    requires Inv(s)
    ensures Inv(Step(s, Send(events)).0)
  {
    hide Satisfied, Once, Waiting;
    if events != {} {
      var r := Serve(s.events + events, s.waiters);
      ServeLeavesUnsatisfied(s.events + events, s.waiters);
      ServeParts(s.events + events, s.waiters);
      forall w | w in r.left
        ensures w.tid !in Wakes(s.resumed, r.deliveries)
      {
        WakesMeaning(s.resumed, r.deliveries, w.tid);
        InList(r.left, w);
      }
    }
  }

  lemma InList(q: seq<Waiter>, w: Waiter)
    requires w in q
    ensures Waiting(q, w.tid)
  {
  }

  lemma StepInv(s: State, c: Call)
    requires Inv(s) && Enabled(s, c)
    ensures Inv(Step(s, c).0)
  {
    hide Once, Join, Drop, FailAll;
    match c
    case Send(events) => SendInv(s, events);
    case Recv(w, timeout) =>
      JoinMembers(s.flag, s.waiters, w);
      JoinOnce(s.flag, s.waiters, w);
    case Abort(tid, err) => DropMembers(s.waiters, tid);
    case Return(_) =>
    case Reset => NobodyOnce();
  }

  lemma NobodyOnce()
    ensures Once([])
  {
  }

  function Run(s: State, calls: seq<Call>): State
    decreases |calls|
  {
    if calls == [] then s
    else Run(if Enabled(s, calls[0]) then Step(s, calls[0]).0 else s, calls[1..])
  }

  /** In every reachable state no suspended thread's condition is met. */
  lemma {:induction false} NeverSatisfiedWaiter(s: State, calls: seq<Call>)
    requires Inv(s)
    ensures Inv(Run(s, calls)) && NoneSatisfied(Run(s, calls))
    decreases |calls|
  {
    if calls != [] {
      if Enabled(s, calls[0]) {
        StepInv(s, calls[0]);
      }
      NeverSatisfiedWaiter(if Enabled(s, calls[0]) then Step(s, calls[0]).0 else s, calls[1..]);
    }
  }

  // ---- Every bit is accounted for ----

  function Count(b: bool): nat {
    if b then 1 else 0
  }

  /** How often bit b is delivered with CLEAR. */
  function Clears(ds: seq<Delivery>, b: nat): nat {
    if ds == [] then 0 else Count(ds[0].clear && b in ds[0].bits) + Clears(ds[1..], b)
  }

  /** Serving takes a bit that is set away exactly if it is delivered with CLEAR, and that once. */
  lemma {:induction false} ServeCounts(events: Bits, q: seq<Waiter>, b: nat)
    ensures var r := Serve(events, q);
      Clears(r.deliveries, b) + Count(b in r.events) == Count(b in events)
  {
    if q != [] {
      var sat := Satisfied(events, q[0].events, q[0].option);
      var bits := Received(events, q[0]);
      var next := if sat && q[0].option.clear then events - bits else events;
      ServeCounts(next, q[1..], b);
      if sat {
        var rest := Serve(next, q[1..]).deliveries;
        assert ([Delivery(q[0].tid, bits, q[0].option.clear)] + rest)[1..] == rest;
      }
    }
  }

  /** Whether a step sends bit b. */
  predicate Sends(s: State, c: Call, b: nat) {
    Enabled(s, c) && c.Send? && b in c.events
  }

  /** How often a step delivers bit b with CLEAR: at once to a receiver, or to waiting ones by a send. */
  function ClearedBy(s: State, c: Call, b: nat): nat {
    if !Enabled(s, c) then 0
    else match c
      case Send(events) => if events == {} then 0 else Clears(Serve(s.events + events, s.waiters).deliveries, b)
      case Recv(w, _) =>
        var o := Step(s, c).1;
        Count(w.option.clear && o.Returned? && o.wake.err == Ok && b in o.wake.events)
      case _ => 0
  }

  function Next(s: State, c: Call): State {
    if Enabled(s, c) then Step(s, c).0 else s
  }

  /** A bit is set after a step exactly if it was set or is sent, is not delivered with CLEAR, and there is no reset. */
  lemma StepBit(s: State, c: Call, b: nat)
    ensures if c.Reset? then b !in Next(s, c).events && ClearedBy(s, c, b) == 0
      else ClearedBy(s, c, b) + Count(b in Next(s, c).events) == Count(b in s.events || Sends(s, c, b))
  {
    if Enabled(s, c) && c.Send? && c.events != {} {
      ServeCounts(s.events + c.events, s.waiters, b);
    }
  }

  function TimesSent(s: State, calls: seq<Call>, b: nat): nat
    decreases |calls|
  {
    if calls == [] then 0 else Count(Sends(s, calls[0], b)) + TimesSent(Next(s, calls[0]), calls[1..], b)
  }

  function TimesCleared(s: State, calls: seq<Call>, b: nat): nat
    decreases |calls|
  {
    if calls == [] then 0 else ClearedBy(s, calls[0], b) + TimesCleared(Next(s, calls[0]), calls[1..], b)
  }

  /** In every run a bit is delivered with CLEAR at most as often as it was set at the start or sent. */
  lemma {:induction false} ClearedAtMostSent(s: State, calls: seq<Call>, b: nat)
    ensures TimesCleared(s, calls, b) + Count(b in Run(s, calls).events)
      <= Count(b in s.events) + TimesSent(s, calls, b)
    decreases |calls|
  {
    hide ClearedBy, Sends, Step;
    if calls != [] {
      StepBit(s, calls[0], b);
      ClearedAtMostSent(Next(s, calls[0]), calls[1..], b);
    }
  }

  /**
   In every run without resets in which no receiver takes bit b with CLEAR, it is set at the end exactly if
   it was set at the start or has been sent.
   */
  lemma {:induction false} StaysSet(s: State, calls: seq<Call>, b: nat)
    requires TimesCleared(s, calls, b) == 0 && forall i :: 0 <= i < |calls| ==> !calls[i].Reset?
    ensures b in Run(s, calls).events <==> b in s.events || TimesSent(s, calls, b) > 0
    decreases |calls|
  {
    hide ClearedBy, Sends, Step;
    if calls != [] {
      StepBit(s, calls[0], b);
      StaysSet(Next(s, calls[0]), calls[1..], b);
    }
  }

  // ---- When a receiver is served ----

  /**
   A receiver is served at once exactly if all its bits are set, under AND, or one of them is, under OR. It gets
   all its bits, or those of them that are set, and with CLEAR exactly these are set no longer.
   */
  lemma RecvAnswers(s: State, w: Waiter, timeout: int)
    requires Enabled(s, Recv(w, timeout)) && w.events != {}
    ensures var (t, o) := Step(s, Recv(w, timeout));
      var met := if w.option.and then w.events <= s.events else exists b :: b in w.events && b in s.events;
      && (o.Returned? && o.wake.err == Ok <==> met)
      && (met ==>
            && o.tid == w.tid && o.wake.events == (if w.option.and then w.events else w.events * s.events)
            && t.events == if w.option.clear then s.events - o.wake.events else s.events)
      && (o == Returned(w.tid, Wake(Timeout, {})) <==> !met && timeout == 0)
      && (o == Silent <==> !met && timeout != 0)
      && (o == Silent ==> Joins(s.flag, s.waiters, PriosOf(s.waiters), w, w.prio, t.waiters))
      && (o != Silent ==> t.waiters == s.waiters)
      && (!met ==> t.events == s.events) && t.resumed == s.resumed
  {
    hide Joins;
    SlotJoins(s.flag, s.waiters, PriosOf(s.waiters), w, w.prio);
    assert w.events * s.events == w.events <==> w.events <= s.events;
    assert w.events * s.events != {} <==> exists b :: b in w.events && b in s.events by {
      if b :| b in w.events && b in s.events {
        assert b in w.events * s.events;
      } else {
        assert w.events * s.events == {};
      }
    }
  }

  /** Asking for no bit fails at once, as sending none does, and changes nothing. */
  lemma NoBitsAnswers(s: State, w: Waiter, timeout: int)
    requires Enabled(s, Recv(w, timeout)) && w.events == {}
    ensures Step(s, Recv(w, timeout)) == (s, Returned(w.tid, Wake(Failed, {})))
    ensures Step(s, Send({})) == (s, Posted(Failed))
  {
  }

  /**
   A send serves the waiting threads one after the other: whether the last one in line is served is decided by the
   bits that those in front have left, and it gets all its bits, or those of them that are left.
   */
  lemma {:induction false} ServeInOrder(events: Bits, q: seq<Waiter>, w: Waiter)
    ensures var r, r' := Serve(events, q), Serve(events, q + [w]);
      if Satisfied(r.events, w.events, w.option) then
        var bits := if w.option.and then w.events else w.events * r.events;
        && r'.left == r.left && r'.deliveries == r.deliveries + [Delivery(w.tid, bits, w.option.clear)]
        && r'.events == if w.option.clear then r.events - bits else r.events
      else
        r' == r.(left := r.left + [w])
  {
    if q == [] {
      assert q + [w] == [w] && [w][1..] == [];
    } else {
      var sat := Satisfied(events, q[0].events, q[0].option);
      var next := if sat && q[0].option.clear then events - Received(events, q[0]) else events;
      assert (q + [w])[1..] == q[1..] + [w] && (q + [w])[0] == q[0];
      ServeInOrder(next, q[1..], w);
    }
  }

  /**
   A send without bits is refused. Otherwise every waiting thread either waits on, and could not go on with
   the bits that are set, or is resumed without an error, with all its bits or with some of them.
   */
  lemma SendAnswers(s: State, events: Bits, w: Waiter)
    requires Inv(s) && events != {} && w in s.waiters
    ensures var (t, o) := Step(s, Send(events));
      && o == Posted(Ok)
      && (w in t.waiters <==> w.tid !in t.resumed)
      && (w in t.waiters ==> !Satisfied(t.events, w.events, w.option))
      && (w !in t.waiters ==>
            && t.resumed[w.tid].err == Ok
            && var bits := t.resumed[w.tid].events;
               if w.option.and then bits == w.events else bits != {} && bits <= w.events)
  {
    hide Satisfied;
    StepInv(s, Send(events));
    ServeSplits(s.events + events, s.waiters, w);
    WakesMeaning(s.resumed, Serve(s.events + events, s.waiters).deliveries, w.tid);
  }

  /** A timeout or a signal takes exactly its thread off the list, with its error, and does nothing else. */
  lemma AbortAnswers(s: State, tid: nat, err: Err)
    requires Inv(s) && Enabled(s, Abort(tid, err))
    ensures var t := Step(s, Abort(tid, err)).0;
      && (forall w :: w in t.waiters <==> w in s.waiters && w.tid != tid)
      && t.events == s.events && t.resumed == s.resumed[tid := Wake(err, {})]
  {
    DropMembers(s.waiters, tid);
  }

  /** A thread that has been resumed keeps what it was resumed with until it runs. */
  lemma ResumedStep(s: State, c: Call, tid: nat)
    requires Inv(s) && Enabled(s, c) && tid in s.resumed && c != Return(tid)
    ensures tid in Step(s, c).0.resumed && Step(s, c).0.resumed[tid] == s.resumed[tid]
  {
    hide Satisfied, Serve, Once, Join, Drop;
    match c
    case Send(events) =>
      ServeParts(s.events + events, s.waiters);
      WakesMeaning(s.resumed, Serve(s.events + events, s.waiters).deliveries, tid);
    case Reset => FailAllMeaning(s.resumed, s.waiters, tid);
    case _ =>
  }

  lemma {:induction false} ResumedStays(s: State, calls: seq<Call>, tid: nat)
    requires Inv(s) && tid in s.resumed && forall i :: 0 <= i < |calls| ==> calls[i] != Return(tid)
    ensures Inv(Run(s, calls)) && tid in Run(s, calls).resumed && Run(s, calls).resumed[tid] == s.resumed[tid]
    decreases |calls|
  {
    hide Inv, Step, Enabled;
    if calls != [] {
      if Enabled(s, calls[0]) {
        ResumedStep(s, calls[0], tid);
        StepInv(s, calls[0]);
      }
      ResumedStays(if Enabled(s, calls[0]) then Step(s, calls[0]).0 else s, calls[1..], tid);
    }
  }

  lemma LeavesWith(s: State, c: Call, w: Waiter)
    requires Inv(s) && Enabled(s, c) && w in s.waiters && w !in Step(s, c).0.waiters
    ensures w.tid in Step(s, c).0.resumed && Granted(c, w, Step(s, c).0.resumed[w.tid])
  {
    hide Satisfied, Serve, Once, Join, FailAll;
    match c
    case Send(events) => SendAnswers(s, events, w);
    case Recv(v, _) => JoinMembers(s.flag, s.waiters, v);
    case Reset => FailAllMeaning(s.resumed, s.waiters, w.tid);
    case Abort(t, _) => DropMembers(s.waiters, t);
    case Return(_) =>
  }

  /** What a waiting thread finds that leaves the list in this step: all or some of its bits, or an error. */
  predicate Granted(c: Call, w: Waiter, wake: Wake) {
    match c
    case Send(_) => wake.err == Ok && if w.option.and then wake.events == w.events else {} < wake.events <= w.events
    case Abort(tid, err) => tid == w.tid && wake.err == err
    case Reset => wake.err == Failed
    case _ => false
  }

  /**
   A waiting thread leaves the list by a send that gives it its bits, a timeout or signal, or a reset, and its
   receive then returns these bits or that error, whatever runs before it does.
   */
  lemma {:induction false} WokenReturns(s: State, c: Call, w: Waiter, calls: seq<Call>)
    requires Inv(s) && Enabled(s, c) && w in s.waiters && w !in Step(s, c).0.waiters
    requires forall i :: 0 <= i < |calls| ==> calls[i] != Return(w.tid)
    ensures var t := Run(Step(s, c).0, calls);
      && Enabled(t, Return(w.tid)) && Step(t, Return(w.tid)).1.Returned? && Step(t, Return(w.tid)).1.tid == w.tid
      && Granted(c, w, Step(t, Return(w.tid)).1.wake) && w.tid !in Step(t, Return(w.tid)).0.resumed
  {
    hide Inv, Run, Granted;
    LeavesWith(s, c, w);
    StepInv(s, c);
    ResumedStays(Step(s, c).0, calls, w.tid);
  }

  /** A reset clears all bits and fails all waiters. */
  lemma ResetAnswers(s: State, t: nat)
    ensures var u := Step(s, Reset).0;
      && u.events == {} && u.waiters == []
      && (Waiting(s.waiters, t) ==> t in u.resumed && u.resumed[t].err == Failed)
      && (!Waiting(s.waiters, t) ==> (t in u.resumed <==> t in s.resumed))
      && (!Waiting(s.waiters, t) && t in s.resumed ==> u.resumed[t] == s.resumed[t])
  {
    FailAllMeaning(s.resumed, s.waiters, t);
  }

  lemma {:induction false} FailAllMeaning(resumed: map<nat, Wake>, q: seq<Waiter>, t: nat)
    ensures t in FailAll(resumed, q) <==> t in resumed || Waiting(q, t)
    ensures Waiting(q, t) ==> FailAll(resumed, q)[t].err == Failed
    ensures !Waiting(q, t) && t in resumed ==> FailAll(resumed, q)[t] == resumed[t]
    decreases |q|
  {
    if q != [] {
      FailAllMeaning(resumed[q[0].tid := Wake(Failed, q[0].events)], q[1..], t);
      assert q == [q[0]] + q[1..];
      assert q[0] in q;
    }
  }

  // ---- The waiting list stays in line ----

  lemma PriosFirst(w: Waiter, q: seq<Waiter>)
    ensures PriosOf([w] + q) == [w.prio] + PriosOf(q)
  {
  }

  lemma {:induction false} ServeAtLeast(events: Bits, q: seq<Waiter>, p: nat)
    requires AtLeast(p, PriosOf(q))
    ensures AtLeast(p, PriosOf(Serve(events, q).left))
  {
    hide AtLeast, PriosOf;
    if q != [] {
      var sat := Satisfied(events, q[0].events, q[0].option);
      var next := if sat && q[0].option.clear then events - Received(events, q[0]) else events;
      PriosBelow(q[0], q[1..], p);
      assert [q[0]] + q[1..] == q;
      ServeAtLeast(next, q[1..], p);
      PriosBelow(q[0], Serve(next, q[1..]).left, p);
    } else {
      assert Serve(events, q).left == q;
    }
  }

  lemma PriosBelow(w: Waiter, q: seq<Waiter>, p: nat)
    ensures AtLeast(p, PriosOf([w] + q)) <==> p <= w.prio && AtLeast(p, PriosOf(q))
  {
    PriosFirst(w, q);
    var r := PriosOf([w] + q);
    assert r[0] == w.prio && forall i :: 0 <= i < |q| ==> r[i + 1] == PriosOf(q)[i];
  }

  lemma {:induction false} ServeInLine(flag: Flag, events: Bits, q: seq<Waiter>)
    requires InLine(flag, PriosOf(q))
    ensures InLine(flag, PriosOf(Serve(events, q).left))
  {
    hide InLine, AtLeast, PriosOf;
    if q != [] {
      var sat := Satisfied(events, q[0].events, q[0].option);
      var next := if sat && q[0].option.clear then events - Received(events, q[0]) else events;
      var left := Serve(next, q[1..]).left;
      assert [q[0]] + q[1..] == q;
      PriosFirst(q[0], q[1..]);
      FirstInLine(flag, q[0].prio, PriosOf(q[1..]));
      ServeInLine(flag, next, q[1..]);
      if flag == Prio {
        ServeAtLeast(next, q[1..], q[0].prio);
      }
      PriosFirst(q[0], left);
      FirstInLine(flag, q[0].prio, PriosOf(left));
    } else {
      assert Serve(events, q).left == q;
    }
  }

  lemma {:induction false} DropAtLeast(q: seq<Waiter>, tid: nat, p: nat)
    requires AtLeast(p, PriosOf(q))
    ensures AtLeast(p, PriosOf(Drop(q, tid)))
  {
    hide AtLeast, PriosOf;
    if q != [] {
      PriosBelow(q[0], q[1..], p);
      assert [q[0]] + q[1..] == q;
      DropAtLeast(q[1..], tid, p);
      PriosBelow(q[0], Drop(q[1..], tid), p);
    } else {
      assert Drop(q, tid) == q;
    }
  }

  lemma {:induction false} DropInLine(flag: Flag, q: seq<Waiter>, tid: nat)
    requires InLine(flag, PriosOf(q))
    ensures InLine(flag, PriosOf(Drop(q, tid)))
  {
    hide InLine, AtLeast, PriosOf;
    if q != [] {
      assert [q[0]] + q[1..] == q;
      PriosFirst(q[0], q[1..]);
      FirstInLine(flag, q[0].prio, PriosOf(q[1..]));
      DropInLine(flag, q[1..], tid);
      if flag == Prio {
        DropAtLeast(q[1..], tid, q[0].prio);
      }
      PriosFirst(q[0], Drop(q[1..], tid));
      FirstInLine(flag, q[0].prio, PriosOf(Drop(q[1..], tid)));
    } else {
      assert Drop(q, tid) == q;
    }
  }

  lemma JoinInLine(flag: Flag, q: seq<Waiter>, w: Waiter)
    requires InLine(flag, PriosOf(q))
    ensures InLine(flag, PriosOf(Join(flag, q, w)))
  {
    InsertInLine(flag, PriosOf(q), w.prio);
    assert PriosOf(Join(flag, q, w)) == InsertAt(PriosOf(q), Slot(flag, PriosOf(q), w.prio), w.prio);
  }

  lemma StepInLine(s: State, c: Call)
    requires Enabled(s, c) && InLine(s.flag, PriosOf(s.waiters))
    ensures Step(s, c).0.flag == s.flag && InLine(s.flag, PriosOf(Step(s, c).0.waiters))
  {
    hide Join, Drop, Serve, Satisfied, Wakes, FailAll;
    assert InLine(s.flag, PriosOf([]));
    match c
    case Send(events) => ServeInLine(s.flag, s.events + events, s.waiters);
    case Recv(w, _) => JoinInLine(s.flag, s.waiters, w);
    case Abort(tid, _) => DropInLine(s.flag, s.waiters, tid);
    case _ =>
  }

  /** In every run the waiting list stays in line. */
  lemma {:induction false} RunInLine(s: State, calls: seq<Call>)
    requires InLine(s.flag, PriosOf(s.waiters))
    ensures InLine(s.flag, PriosOf(Run(s, calls).waiters))
    decreases |calls|
  {
    hide Step, InLine, PriosOf;
    if calls != [] {
      if Enabled(s, calls[0]) {
        StepInLine(s, calls[0]);
      }
      RunInLine(if Enabled(s, calls[0]) then Step(s, calls[0]).0 else s, calls[1..]);
    }
  }

  /** What lies around place n of a list, and what is left when its entry goes. */
  lemma AtPlace(q: seq<Waiter>, n: nat)
    requires n < |q|
    ensures q[n] in q && q[n..] == [q[n]] + q[n + 1..] && q[..n + 1] == q[..n] + [q[n]]
    ensures var r := q[..n] + q[n + 1..];
      |r| == |q| - 1 && r[..n] == q[..n] && r[n..] == q[n + 1..] && forall w :: w in r ==> w in q
  {
    assert q == q[..n] + [q[n]] + q[n + 1..];
  }

  lemma Joined(a: seq<Waiter>, w: Waiter, b: seq<Waiter>)
    ensures a + ([w] + b) == (a + [w]) + b
  {
  }

  // ---- The object ----

  class EventObject {
    const flag: Flag
    var events: Bits
    var waiters: seq<Waiter>
    var resumed: map<nat, Wake>

    function View(): State
      reads this
    {
      State(flag, events, waiters, resumed)
    }

    /** rt_event_init. */
    constructor (flag: Flag)
      ensures View() == State(flag, {}, [], map[]) && Inv(View())
    {
      this.flag := flag;
      events, waiters, resumed := {}, [], map[];
    }

    /** rt_event_send. */
    method Send(bits: Bits) returns (o: Outcome)
      requires Inv(View())
      modifies this
      ensures Inv(View()) && (View(), o) == Step(old(View()), Call.Send(bits))
    {
      StepInv(View(), Call.Send(bits));
      if bits == {} {
        return Posted(Failed);
      }
      events := events + bits;
      ServeWaiters();
      return Posted(Ok);
    }

    /** The loop of rt_event_send over the waiting list is the left-to-right fold. */
    method ServeWaiters()
      requires forall w :: w in waiters ==> w.option.and || w.option.or
      modifies this
      ensures events == Serve(old(events), old(waiters)).events
      ensures waiters == Serve(old(events), old(waiters)).left
      ensures resumed == Wakes(old(resumed), Serve(old(events), old(waiters)).deliveries)
    {
      hide Satisfied, Serve, Wakes;
      ghost var all := Serve(events, waiters);
      var n := 0;
      assert waiters[0..] == waiters;
      while n < |waiters|
        invariant n <= |waiters|
        invariant forall w :: w in waiters ==> w.option.and || w.option.or
        invariant Serve(events, waiters[n..]).events == all.events
        invariant waiters[..n] + Serve(events, waiters[n..]).left == all.left
        invariant Wakes(resumed, Serve(events, waiters[n..]).deliveries) == Wakes(old(resumed), all.deliveries)
        decreases |waiters| - n
      {
        ghost var tail := waiters[n + 1..];
        AtPlace(waiters, n);
        var thread, status := MeetsCondition(waiters[n]);
        ServeFirst(events, waiters[n], thread, tail, status);
        if status {
          if thread.option.clear {
            events := events - thread.events;
          }
          WakesFirst(resumed, Delivery(thread.tid, thread.events, thread.option.clear), Serve(events, tail).deliveries);
          resumed := resumed[thread.tid := Wake(Ok, thread.events)];
          waiters := waiters[..n] + waiters[n + 1..];
        } else {
          Joined(waiters[..n], waiters[n], Serve(events, tail).left);
          n := n + 1;
        }
      }
      assert waiters[n..] == [] && waiters[..n] == waiters;
      ServeNobody(events, resumed);
    }

    /** The test on one waiting thread; an OR waiter saves the bits it receives. */
    method MeetsCondition(w: Waiter) returns (thread: Waiter, status: bool)
      requires w.option.and || w.option.or
      ensures status == Satisfied(events, w.events, w.option)
      ensures thread == if status then w.(events := Received(events, w)) else w
    {
      thread, status := w, false;
      if thread.option.and {
        if thread.events * events == thread.events {
          status := true;
        }
      } else if thread.option.or {
        if thread.events * events != {} {
          thread := thread.(events := thread.events * events);
          status := true;
        }
      } else {
        assert false;
      }
    }

    /** rt_event_recv up to the point where the thread returns or is suspended. */
    method Recv(w: Waiter, timeout: int) returns (o: Outcome)
      requires Inv(View()) && Enabled(View(), Call.Recv(w, timeout))
      modifies this
      ensures Inv(View()) && (View(), o) == Step(old(View()), Call.Recv(w, timeout))
    {
      StepInv(View(), Call.Recv(w, timeout));
      if w.events == {} {
        return Returned(w.tid, Wake(Failed, {}));
      }
      var status := false;
      if w.option.and {
        if events * w.events == w.events {
          status := true;
        }
      } else {
        if events * w.events != {} {
          status := true;
        }
      }
      if status {
        o := Returned(w.tid, Wake(Ok, events * w.events));
        if w.option.clear {
          events := events - w.events;
        }
      } else if timeout == 0 {
        o := Returned(w.tid, Wake(Timeout, {}));
      } else {
        waiters := Join(flag, waiters, w);
        o := Silent;
      }
    }

    /** The rest of rt_event_recv, when the thread runs again. */
    method Return(tid: nat) returns (o: Outcome)
      requires Inv(View()) && Enabled(View(), Call.Return(tid))
      modifies this
      ensures Inv(View()) && (View(), o) == Step(old(View()), Call.Return(tid))
    {
      o := Returned(tid, resumed[tid]);
      resumed := resumed - {tid};
    }

    /** rt_thread_timeout, or a signal, takes the thread off the waiting list. */
    method Abort(tid: nat, err: Err)
      requires Inv(View()) && Enabled(View(), Call.Abort(tid, err))
      modifies this
      ensures Inv(View()) && View() == Step(old(View()), Call.Abort(tid, err)).0
    {
      StepInv(View(), Call.Abort(tid, err));
      waiters := Drop(waiters, tid);
      resumed := resumed[tid := Wake(err, {})];
    }

    /** rt_event_control with RT_IPC_CMD_RESET. */
    method Reset()
      requires Inv(View())
      modifies this
      ensures Inv(View()) && View() == Step(old(View()), Call.Reset).0
    {
      while waiters != []
        invariant FailAll(resumed, waiters) == FailAll(old(resumed), old(waiters))
        decreases |waiters|
      {
        resumed := resumed[waiters[0].tid := Wake(Failed, waiters[0].events)];
        waiters := waiters[1..];
      }
      events := {};
    }
  }
}
