/**
 The order in which threads wait for an IPC object: by arrival or by priority
 (a smaller number is a higher priority), as _ipc_list_suspend places them.
 */
module WaitQueue {

  datatype Flag = Fifo | Prio

  function InsertAt<T>(q: seq<T>, k: nat, x: T): (r: seq<T>)
    requires k <= |q|
  {
    q[..k] + [x] + q[k..]
  }

  function DeleteAt<T>(q: seq<T>, k: nat): seq<T>
    requires k < |q|
  {
    q[..k] + q[k + 1..]
  }

  /** The first position whose priority number exceeds p, or the end. */
  function FirstGreater(prios: seq<nat>, p: nat): (k: nat)
    ensures k <= |prios|
    ensures forall i :: 0 <= i < k ==> prios[i] <= p
    ensures k < |prios| ==> p < prios[k]
  {
    if prios == [] || p < prios[0] then 0 else 1 + FirstGreater(prios[1..], p)
  }

  /** Where a newcomer of priority p is queued. */
  function Slot(flag: Flag, prios: seq<nat>, p: nat): (k: nat)
    ensures k <= |prios|
  {
    if flag == Fifo then |prios| else FirstGreater(prios, p)
  }

  /** A waiting thread with the priority it had when it was queued. */
  datatype Waiter = Waiter(tid: nat, prio: nat)

  function Prios(q: seq<Waiter>): (r: seq<nat>)
    ensures |r| == |q|
    ensures forall i :: 0 <= i < |q| ==> r[i] == q[i].prio
  {
    seq(|q|, i requires 0 <= i < |q| => q[i].prio)
  }

  function Enqueue(flag: Flag, q: seq<Waiter>, w: Waiter): (r: seq<Waiter>)
    ensures |r| == |q| + 1
    ensures forall x :: x in r <==> x in q || x == w
  {
    var k := Slot(flag, Prios(q), w.prio);
    assert q == q[..k] + q[k..];
    InsertAt(q, k, w)
  }

  /**
   w has been put into line: under FIFO at the end, by priority behind the last thread that goes before it,
   and nobody else has moved.
   */
  ghost predicate Joins<T>(flag: Flag, q: seq<T>, prios: seq<nat>, w: T, p: nat, q': seq<T>)
    requires |prios| == |q|
  {
    exists k :: 0 <= k <= |q| && q' == InsertAt(q, k, w) && PlaceFor(flag, prios, p, k)
  }

  predicate PlaceFor(flag: Flag, prios: seq<nat>, p: nat, k: nat)
    requires k <= |prios|
  {
    if flag == Fifo then k == |prios|
    else (forall i :: 0 <= i < k ==> prios[i] <= p) && (k < |prios| ==> p < prios[k])
  }

  lemma SlotJoins<T>(flag: Flag, q: seq<T>, prios: seq<nat>, w: T, p: nat)
    requires |prios| == |q|
    ensures Joins(flag, q, prios, w, p, InsertAt(q, Slot(flag, prios, p), w))
  {
    var k := Slot(flag, prios, p);
    assert PlaceFor(flag, prios, p, k);
  }

  lemma EnqueueJoins(flag: Flag, q: seq<Waiter>, w: Waiter)
    ensures Joins(flag, q, Prios(q), w, w.prio, Enqueue(flag, q, w))
  {
    SlotJoins(flag, q, Prios(q), w, w.prio);
  }

  predicate WaitsFor(q: seq<Waiter>, tid: nat) {
    exists w :: w in q && w.tid == tid
  }

  /** Every thread waits at most once. */
  ghost predicate Unique(q: seq<Waiter>) {
    forall i, j :: 0 <= i < j < |q| ==> q[i].tid != q[j].tid
  }

  function Remove(q: seq<Waiter>, tid: nat): seq<Waiter> {
    if q == [] then [] else if q[0].tid == tid then q[1..] else [q[0]] + Remove(q[1..], tid)
  }

  lemma EnqueueUnique(flag: Flag, q: seq<Waiter>, w: Waiter)
    requires Unique(q) && !WaitsFor(q, w.tid)
    ensures Unique(Enqueue(flag, q, w))
  {
    var k := Slot(flag, Prios(q), w.prio);
    assert forall i :: 0 <= i < |q| ==> q[i].tid != w.tid by {
      assert forall i :: 0 <= i < |q| ==> q[i] in q;
    }
  }

  /** Removing a thread takes out its only entry and keeps the order of the others. */
  lemma {:induction false} RemoveMeaning(q: seq<Waiter>, tid: nat)
    requires Unique(q)
    ensures Unique(Remove(q, tid)) && !WaitsFor(Remove(q, tid), tid)
    ensures forall w :: w in Remove(q, tid) <==> w in q && w.tid != tid
    ensures |Remove(q, tid)| == |q| - if WaitsFor(q, tid) then 1 else 0
  {
    if q != [] {
      assert Unique(q[1..]);
      RemoveMeaning(q[1..], tid);
      assert q == [q[0]] + q[1..];
      forall i | 0 <= i < |q[1..]|
        ensures q[1..][i].tid != q[0].tid
      {
        assert q[1..][i] == q[i + 1];
      }
    }
  }

  // ---- Who leaves a list ----

  lemma FrontLeft(q: seq<Waiter>, tid: nat)
    requires WaitsFor(q, tid)
    ensures q != [] && (!WaitsFor(q[1..], tid) ==> q[0].tid == tid)
  {
    assert q == [q[0]] + q[1..];
  }

  lemma JoinLeavesNobody(flag: Flag, q: seq<Waiter>, w: Waiter, tid: nat)
    requires WaitsFor(q, tid)
    ensures WaitsFor(Enqueue(flag, q, w), tid)
  {
    hide Enqueue;
    var x :| x in q && x.tid == tid;
    assert x in Enqueue(flag, q, w);
  }

  lemma RemovedLeft(q: seq<Waiter>, t: nat, tid: nat)
    requires Unique(q) && WaitsFor(q, tid)
    ensures WaitsFor(Remove(q, t), tid) <==> t != tid
  {
    RemoveMeaning(q, t);
    var x :| x in q && x.tid == tid;
    assert t != tid ==> x in Remove(q, t);
  }

  // ---- Lists that stay in line ----

  /** Under priority order no thread waits in front of one with a smaller number. */
  ghost predicate InLine(flag: Flag, prios: seq<nat>) {
    flag == Prio ==> forall i, j :: 0 <= i < j < |prios| ==> prios[i] <= prios[j]
  }

  predicate AtLeast(p: nat, prios: seq<nat>) {
    forall i :: 0 <= i < |prios| ==> p <= prios[i]
  }

  lemma FirstInLine(flag: Flag, p: nat, rest: seq<nat>)
    ensures InLine(flag, [p] + rest) <==> InLine(flag, rest) && (flag == Prio ==> AtLeast(p, rest))
  {
    var prios := [p] + rest;
    assert forall i :: 0 <= i < |rest| ==> rest[i] == prios[i + 1];
    if flag == Prio && InLine(flag, prios) {
      forall i, j | 0 <= i < j < |rest|
        ensures rest[i] <= rest[j]
      {
        assert prios[i + 1] <= prios[j + 1];
      }
      forall i | 0 <= i < |rest|
        ensures p <= rest[i]
      {
        assert prios[0] <= prios[i + 1];
      }
    }
    if flag == Prio && InLine(flag, rest) && AtLeast(p, rest) {
      forall i, j | 0 <= i < j < |prios|
        ensures prios[i] <= prios[j]
      {
        assert rest[j - 1] == prios[j];
        assert i > 0 ==> rest[i - 1] == prios[i];
      }
    }
  }

  lemma InsertInLine(flag: Flag, prios: seq<nat>, p: nat)
    requires InLine(flag, prios)
    ensures InLine(flag, InsertAt(prios, Slot(flag, prios, p), p))
  {
    var k := Slot(flag, prios, p);
    if flag == Prio {
      assert forall i :: k <= i < |prios| ==> prios[k] <= prios[i];
      InsertSorted(prios, p, k);
    }
  }

  lemma InsertSorted(prios: seq<nat>, p: nat, k: nat)
    requires InLine(Prio, prios) && k <= |prios|
    requires (forall i :: 0 <= i < k ==> prios[i] <= p) && forall i :: k <= i < |prios| ==> p <= prios[i]
    ensures InLine(Prio, InsertAt(prios, k, p))
  {
    var r := InsertAt(prios, k, p);
    forall i, j | 0 <= i < j < |r|
      ensures r[i] <= r[j]
    {
      assert i != k ==> r[i] == prios[if i < k then i else i - 1];
      assert j != k ==> r[j] == prios[if j < k then j else j - 1];
    }
  }

  lemma EnqueueInLine(flag: Flag, q: seq<Waiter>, w: Waiter)
    requires InLine(flag, Prios(q))
    ensures InLine(flag, Prios(Enqueue(flag, q, w)))
  {
    InsertInLine(flag, Prios(q), w.prio);
    assert Prios(Enqueue(flag, q, w)) == InsertAt(Prios(q), Slot(flag, Prios(q), w.prio), w.prio);
  }

  lemma TailInLine(flag: Flag, q: seq<Waiter>)
    requires InLine(flag, Prios(q))
    ensures q != [] ==> InLine(flag, Prios(q[1..]))
  {
    if q != [] {
      assert Prios(q[1..]) == Prios(q)[1..];
    }
  }

  lemma NobodyInLine(flag: Flag)
    ensures InLine(flag, Prios([]))
  {
  }

  lemma PriosFirst(q: seq<Waiter>)
    requires q != []
    ensures Prios(q) == [q[0].prio] + Prios(q[1..])
  {
  }

  lemma {:induction false} RemoveAtLeast(q: seq<Waiter>, tid: nat, p: nat)
    requires AtLeast(p, Prios(q))
    ensures AtLeast(p, Prios(Remove(q, tid)))
  {
    if q != [] && q[0].tid != tid {
      assert AtLeast(p, Prios(q[1..]));
      RemoveAtLeast(q[1..], tid, p);
      PriosFirst(Remove(q, tid));
    }
  }

  lemma {:induction false} RemoveInLine(flag: Flag, q: seq<Waiter>, tid: nat)
    requires InLine(flag, Prios(q))
    ensures InLine(flag, Prios(Remove(q, tid)))
  {
    hide InLine, AtLeast, Prios;
    if q != [] {
      PriosFirst(q);
      FirstInLine(flag, q[0].prio, Prios(q[1..]));
      if q[0].tid != tid {
        RemoveInLine(flag, q[1..], tid);
        if flag == Prio {
          RemoveAtLeast(q[1..], tid, q[0].prio);
        }
        assert Remove(q, tid)[1..] == Remove(q[1..], tid);
        PriosFirst(Remove(q, tid));
        FirstInLine(flag, q[0].prio, Prios(Remove(q[1..], tid)));
      }
    }
  }

  // ---- Order over runs ----

  /** A queue entry with the number of arrivals before it. */
  datatype Entry = Entry(prio: nat, arrival: nat)

  function EntryPrios(q: seq<Entry>): (r: seq<nat>)
    ensures |r| == |q|
    ensures forall i :: 0 <= i < |q| ==> r[i] == q[i].prio
  {
    seq(|q|, i requires 0 <= i < |q| => q[i].prio)
  }

  /** Arrivals, and departures from any place: wake-ups take the front, timeouts any entry. */
  datatype Event = Arrive(prio: nat) | Leave(index: nat)

  function StepQueue(flag: Flag, q: seq<Entry>, clock: nat, e: Event): seq<Entry> {
    match e
    case Arrive(p) => InsertAt(q, Slot(flag, EntryPrios(q), p), Entry(p, clock))
    case Leave(k) => if k < |q| then DeleteAt(q, k) else q
  }

  function RunQueue(flag: Flag, q: seq<Entry>, clock: nat, events: seq<Event>): seq<Entry>
    decreases |events|
  {
    if events == [] then q
    else RunQueue(flag, StepQueue(flag, q, clock, events[0]), clock + 1, events[1..])
  }

  /** Served before: higher priority, or equal priority and earlier arrival; under FIFO, earlier arrival. */
  predicate Before(flag: Flag, a: Entry, b: Entry) {
    if flag == Fifo then a.arrival < b.arrival
    else a.prio < b.prio || (a.prio == b.prio && a.arrival < b.arrival)
  }

  ghost predicate Ordered(flag: Flag, q: seq<Entry>) {
    forall i, j :: 0 <= i < j < |q| ==> Before(flag, q[i], q[j])
  }

  lemma ArriveOrdered(flag: Flag, q: seq<Entry>, clock: nat, p: nat, k: nat)
    requires Ordered(flag, q) && (forall i :: 0 <= i < |q| ==> q[i].arrival < clock)
    requires k <= |q| && if flag == Fifo then k == |q|
      else (forall i :: 0 <= i < k ==> q[i].prio <= p) && (k < |q| ==> p < q[k].prio)
    ensures Ordered(flag, InsertAt(q, k, Entry(p, clock)))
  {
    forall i | k <= i < |q|
      ensures Before(flag, Entry(p, clock), q[i])
    {
      assert i > k ==> Before(flag, q[k], q[i]);
    }
  }

  lemma StepOrdered(flag: Flag, q: seq<Entry>, clock: nat, e: Event)
    requires Ordered(flag, q) && forall i :: 0 <= i < |q| ==> q[i].arrival < clock
    ensures Ordered(flag, StepQueue(flag, q, clock, e))
    ensures forall i :: 0 <= i < |StepQueue(flag, q, clock, e)| ==> StepQueue(flag, q, clock, e)[i].arrival < clock + 1
  {
    match e
    case Arrive(p) =>
      var k := Slot(flag, EntryPrios(q), p);
      assert forall i :: 0 <= i < |q| ==> EntryPrios(q)[i] == q[i].prio;
      ArriveOrdered(flag, q, clock, p, k);
    case Leave(k) =>
  }

  /** In every run the queue stays sorted by priority, first come first served among equals. */
  lemma {:induction false} RunOrdered(flag: Flag, q: seq<Entry>, clock: nat, events: seq<Event>)
    requires Ordered(flag, q) && forall i :: 0 <= i < |q| ==> q[i].arrival < clock
    ensures Ordered(flag, RunQueue(flag, q, clock, events))
    decreases |events|
  {
    if events != [] {
      StepOrdered(flag, q, clock, events[0]);
      RunOrdered(flag, StepQueue(flag, q, clock, events[0]), clock + 1, events[1..]);
    }
  }
}
