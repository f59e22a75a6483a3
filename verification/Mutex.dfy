/**
 Mutexes (ipc.c), for runs in which no waiting thread is woken by a signal and
 without the priority changes of the owner.
 */
module Mutex {
  import opened WaitQueue
  import opened Ipc

  const VALUE_MAX: nat := 65535
  const HOLD_MAX: nat := 255

  datatype Owner = Nobody | Thread(tid: nat)

  datatype State = State(flag: Flag, value: nat, hold: nat, owner: Owner, waiters: seq<Waiter>, resumed: Resumed)

  datatype Call = Take(w: Waiter, time: int) | Return(tid: nat) | Release(tid: nat) | Abort(tid: nat, err: Err)

  /** What a take or a release reports to its caller. */
  datatype Report = Taken(tid: nat, err: Err) | Unlocked(tid: nat, err: Err) | Quiet

  predicate Running(s: State, tid: nat) {
    !WaitsFor(s.waiters, tid) && tid !in s.resumed
  }

  predicate Enabled(s: State, c: Call) {
    match c
    case Take(w, _) => Running(s, w.tid)
    case Return(tid) => tid in s.resumed
    case Release(tid) => Running(s, tid)
    case Abort(tid, err) => WaitsFor(s.waiters, tid) && err != Ok && err != Interrupted
  }

  function TakeStep(s: State, w: Waiter, time: int): (State, Report) {
    if s.owner == Thread(w.tid) then
      if s.hold < HOLD_MAX then (s.(hold := s.hold + 1), Taken(w.tid, Ok)) else (s, Taken(w.tid, Full))
    else if s.value > 0 then
      if s.hold < HOLD_MAX then (s.(value := s.value - 1, owner := Thread(w.tid), hold := s.hold + 1), Taken(w.tid, Ok))
      else (s.(value := s.value - 1, owner := Thread(w.tid)), Taken(w.tid, Full))
    else if time == 0 then (s, Taken(w.tid, Timeout))
    else (s.(waiters := Enqueue(s.flag, s.waiters, w)), Quiet)
  }

  /** `hold` is an unsigned byte. */
  function ReleaseStep(s: State, tid: nat): (State, Report) {
    if s.owner != Thread(tid) then (s, Unlocked(tid, Failed))
    else
      var t := s.(hold := (s.hold + 255) % 256);
      if t.hold != 0 then (t, Unlocked(tid, Ok))
      else if t.waiters != [] then
        var u := t.(owner := Thread(t.waiters[0].tid));
        if u.hold < HOLD_MAX then
          (u.(hold := u.hold + 1, waiters := u.waiters[1..], resumed := u.resumed[u.waiters[0].tid := Ok]),
           Unlocked(tid, Ok))
        else (u, Unlocked(tid, Full))
      else if t.value < VALUE_MAX then (t.(value := t.value + 1, owner := Nobody), Unlocked(tid, Ok))
      else (t, Unlocked(tid, Full))
  }

  function Step(s: State, c: Call): (State, Report)
    requires Enabled(s, c)
  {
    match c
    case Take(w, time) => TakeStep(s, w, time)
    case Return(tid) => (s.(resumed := s.resumed - {tid}), Taken(tid, s.resumed[tid]))
    case Release(tid) => ReleaseStep(s, tid)
    case Abort(tid, err) => (s.(waiters := Remove(s.waiters, tid), resumed := s.resumed[tid := err]), Quiet)
  }

  /** The initial state of rt_mutex_init. */
  function Free(flag: Flag): State {
    State(flag, 1, 0, Nobody, [], map[])
  }

  ghost predicate Inv(s: State) {
    && s.value <= 1 && s.hold <= HOLD_MAX
    && (s.owner == Nobody <==> s.value == 1)
    && (s.owner == Nobody <==> s.hold == 0)
    && (s.waiters != [] ==> s.owner != Nobody)
    && (s.owner.Thread? ==> !WaitsFor(s.waiters, s.owner.tid))
    && Placed(s.waiters, s.resumed)
    && (forall t :: t in s.resumed && s.resumed[t] == Ok ==> s.owner == Thread(t) && s.hold == 1)
    && (forall t :: t in s.resumed && s.resumed[t] != Ok ==> s.owner != Thread(t))
  }

  lemma StepInv(s: State, c: Call)
    requires Inv(s) && Enabled(s, c)
    ensures Inv(Step(s, c).0)
  {
    match c
    case Take(w, time) =>
      if s.owner != Thread(w.tid) && s.value == 0 && time != 0 {
        OneJoins(s.flag, s.waiters, s.resumed, w);
      }
    case Return(tid) =>
    case Release(tid) =>
      if s.owner == Thread(tid) && s.hold == 1 && s.waiters != [] {
        FrontLeaves(s.waiters, s.resumed, Ok);
        FrontGone(s.waiters);
      }
    case Abort(tid, err) =>
      OneLeaves(s.waiters, s.resumed, tid, err);
      RemoveMeaning(s.waiters, tid);
  }

  lemma FrontGone(q: seq<Waiter>)
    requires Unique(q) && q != []
    ensures !WaitsFor(q[1..], q[0].tid)
    ensures q[0] in q
  {
    forall w | w in q[1..]
      ensures w.tid != q[0].tid
    {
      var i :| 0 <= i < |q[1..]| && q[1..][i] == w;
      assert q[i + 1] == w;
    }
  }

  /**
   The overflow branches: a release never reports RT_EFULL, and a take does so
   exactly when the owner re-enters with its hold counter at the maximum.
   */
  lemma Overflow(s: State, c: Call)
    requires Inv(s) && Enabled(s, c)
    ensures forall t :: Step(s, c).1 != Unlocked(t, Full)
    ensures c.Take? ==> (Step(s, c).1 == Taken(c.w.tid, Full) <==> s.owner == Thread(c.w.tid) && s.hold == HOLD_MAX)
  {
  }

  /** The final release of an owner with waiters hands the mutex to the first one. */
  lemma HandOff(s: State, tid: nat)
    requires Inv(s) && Running(s, tid) && s.owner == Thread(tid) && s.hold == 1 && s.waiters != []
    ensures var t := ReleaseStep(s, tid).0;
      t.owner == Thread(s.waiters[0].tid) && t.hold == 1 && t.value == 0 && t.waiters == s.waiters[1..]
      && s.waiters[0].tid in t.resumed && t.resumed[s.waiters[0].tid] == Ok
  {
  }

  // ---- Runs ----

  function Run(s: State, calls: seq<Call>): State
    decreases |calls|
  {
    if calls == [] then s
    else Run(if Enabled(s, calls[0]) then Step(s, calls[0]).0 else s, calls[1..])
  }

  function Log(s: State, calls: seq<Call>): seq<Report>
    decreases |calls|
  {
    if calls == [] then []
    else if Enabled(s, calls[0]) then [Step(s, calls[0]).1] + Log(Step(s, calls[0]).0, calls[1..])
    else Log(s, calls[1..])
  }

  /** In every run the mutex is free exactly if nobody owns it, and then nobody waits. */
  lemma {:induction false} RunInv(s: State, calls: seq<Call>)
    requires Inv(s)
    ensures Inv(Run(s, calls))
    ensures Run(s, calls).value == 1 <==> Run(s, calls).owner == Nobody
    ensures Run(s, calls).owner == Nobody ==> Run(s, calls).hold == 0 && Run(s, calls).waiters == []
    decreases |calls|
  {
    if calls != [] {
      if Enabled(s, calls[0]) {
        StepInv(s, calls[0]);
      }
      RunInv(if Enabled(s, calls[0]) then Step(s, calls[0]).0 else s, calls[1..]);
    }
  }

  function Effect(r: Report, t: nat): int {
    match r
    case Taken(u, Ok) => if u == t then 1 else 0
    case Unlocked(u, Ok) => if u == t then -1 else 0
    case _ => 0
  }

  /** How many more takes than releases of thread t have succeeded. */
  function Depth(log: seq<Report>, t: nat): int {
    if log == [] then 0 else Effect(log[0], t) + Depth(log[1..], t)
  }

  /** The depth the state grants to t: the hold count of the owner, less a hand-off it has not seen yet. */
  function Granted(s: State, t: nat): int {
    if s.owner != Thread(t) then 0
    else s.hold - if t in s.resumed && s.resumed[t] == Ok then 1 else 0
  }

  lemma StepDepth(s: State, c: Call, t: nat)
    requires Inv(s) && Enabled(s, c)
    ensures Granted(Step(s, c).0, t) == Granted(s, t) + Effect(Step(s, c).1, t)
  {
    if c.Release? && s.owner == Thread(c.tid) && s.hold == 1 && s.waiters != [] {
      FrontGone(s.waiters);
    }
  }

  /** In every run the successful takes and releases of each thread balance what the state grants it. */
  lemma {:induction false} DepthIsGranted(s: State, calls: seq<Call>, t: nat)
    requires Inv(s)
    ensures Granted(Run(s, calls), t) == Granted(s, t) + Depth(Log(s, calls), t)
    decreases |calls|
  {
    if calls == [] {
    } else if Enabled(s, calls[0]) {
      var s' := Step(s, calls[0]).0;
      StepInv(s, calls[0]);
      StepDepth(s, calls[0], t);
      DepthIsGranted(s', calls[1..], t);
      assert Log(s, calls)[1..] == Log(s', calls[1..]);
    } else {
      DepthIsGranted(s, calls[1..], t);
    }
  }

  /** Mutual exclusion: in every run at most one thread is ahead in takes, and none is ever behind. */
  lemma MutualExclusion(flag: Flag, calls: seq<Call>, t: nat, u: nat)
    requires t != u
    ensures Depth(Log(Free(flag), calls), t) >= 0
    ensures Depth(Log(Free(flag), calls), t) > 0 ==> Depth(Log(Free(flag), calls), u) == 0
  {
    RunInv(Free(flag), calls);
    DepthIsGranted(Free(flag), calls, t);
    DepthIsGranted(Free(flag), calls, u);
  }

  // ---- When a call succeeds ----

  /**
   A take succeeds exactly if the mutex is free, or the caller owns it and its counter is not at the maximum;
   while another thread owns it, it fails with time 0 and waits with any other.
   */
  lemma TakeAnswers(s: State, w: Waiter, time: int)
    requires Inv(s) && Enabled(s, Take(w, time))
    ensures var (t, r) := Step(s, Take(w, time));
      var other := s.owner != Nobody && s.owner != Thread(w.tid);
      && (r == Taken(w.tid, Ok) <==> s.owner == Nobody || (s.owner == Thread(w.tid) && s.hold < HOLD_MAX))
      && (r == Taken(w.tid, Ok) ==> t.owner == Thread(w.tid) && t.hold == s.hold + 1)
      && (r == Taken(w.tid, Timeout) <==> other && time == 0)
      && (r == Quiet <==> other && time != 0)
      && (r == Quiet ==> Joins(s.flag, s.waiters, Prios(s.waiters), w, w.prio, t.waiters))
      && (r != Quiet ==> t.waiters == s.waiters)
      && (r != Taken(w.tid, Ok) ==> t.owner == s.owner && t.hold == s.hold && t.value == s.value)
      && t.resumed == s.resumed
  {
    hide Joins, Enqueue;
    EnqueueJoins(s.flag, s.waiters, w);
  }

  /** A release by anybody but the owner is refused and changes nothing; the owner's last one passes the mutex on. */
  lemma ReleaseAnswers(s: State, tid: nat)
    requires Inv(s) && Enabled(s, Release(tid))
    ensures var (t, r) := Step(s, Release(tid));
      && (r == Unlocked(tid, Ok) <==> s.owner == Thread(tid))
      && (s.owner != Thread(tid) ==> r == Unlocked(tid, Failed) && t == s)
      && (s.owner == Thread(tid) && s.hold > 1 ==> t == s.(hold := s.hold - 1))
      && (s.owner == Thread(tid) && s.hold == 1 ==>
            && FirstWoken(s.waiters, s.resumed, t.waiters, t.resumed)
            && t.owner == if s.waiters == [] then Nobody else Thread(s.waiters[0].tid))
  {
  }

  /** A timeout takes exactly its thread off the list, with its error, and does nothing else. */
  lemma AbortAnswers(s: State, tid: nat, err: Err)
    requires Inv(s) && Enabled(s, Abort(tid, err))
    ensures var t := Step(s, Abort(tid, err)).0;
      && OneFailed(s.waiters, s.resumed, tid, err, t.waiters, t.resumed)
      && t.value == s.value && t.owner == s.owner && t.hold == s.hold
  {
    RemoveMeaning(s.waiters, tid);
  }

  /** A thread that has been resumed keeps its error until it runs. */
  lemma ResumedStep(s: State, c: Call, tid: nat)
    requires Inv(s) && Enabled(s, c) && tid in s.resumed && c != Return(tid)
    ensures tid in Step(s, c).0.resumed && Step(s, c).0.resumed[tid] == s.resumed[tid]
  {
    ResumedDoesNotWait(s.waiters, s.resumed, tid);
    if c.Release? && s.waiters != [] {
      assert s.waiters[0] in s.waiters;
    }
  }

  lemma {:induction false} ResumedStays(s: State, calls: seq<Call>, tid: nat)
    requires Inv(s) && tid in s.resumed && forall i :: 0 <= i < |calls| ==> calls[i] != Return(tid)
    ensures Inv(Run(s, calls)) && tid in Run(s, calls).resumed && Run(s, calls).resumed[tid] == s.resumed[tid]
    decreases |calls|
  {
    hide Inv, Step, Enabled;
    if calls != [] {
      if Enabled(s, calls[0]) {
        ResumedStep(s, calls[0], tid);
        StepInv(s, calls[0]);
      }
      ResumedStays(if Enabled(s, calls[0]) then Step(s, calls[0]).0 else s, calls[1..], tid);
    }
  }

  lemma LeavesWith(s: State, c: Call, tid: nat)
    requires Inv(s) && Enabled(s, c) && WaitsFor(s.waiters, tid) && !WaitsFor(Step(s, c).0.waiters, tid)
    ensures tid in Step(s, c).0.resumed && Step(s, c).0.resumed[tid] == if c.Abort? then c.err else Ok
    ensures c.Release? || (c.Abort? && c.tid == tid)
  {
    hide WaitsFor, Enqueue, Remove, Unique;
    FrontLeft(s.waiters, tid);
    match c
    case Take(w, _) => JoinLeavesNobody(s.flag, s.waiters, w, tid);
    case Abort(t, _) => RemovedLeft(s.waiters, t, tid);
    case _ =>
  }

  /**
   A waiting thread leaves the list by a release or a timeout, and its take then returns RT_EOK or that error,
   whatever runs before it does.
   */
  lemma {:induction false} WokenReturns(s: State, c: Call, tid: nat, calls: seq<Call>)
    requires Inv(s) && Enabled(s, c) && WaitsFor(s.waiters, tid) && !WaitsFor(Step(s, c).0.waiters, tid)
    requires forall i :: 0 <= i < |calls| ==> calls[i] != Return(tid)
    ensures c.Release? || (c.Abort? && c.tid == tid)
    ensures var t := Run(Step(s, c).0, calls);
      && Enabled(t, Return(tid)) && Step(t, Return(tid)).1 == Taken(tid, if c.Abort? then c.err else Ok)
      && tid !in Step(t, Return(tid)).0.resumed && (c.Release? ==> t.owner == Thread(tid))
  {
    hide Inv, Run, WaitsFor;
    LeavesWith(s, c, tid);
    StepInv(s, c);
    ResumedStays(Step(s, c).0, calls, tid);
    HandedOver(Run(Step(s, c).0, calls), tid);
  }

  lemma HandedOver(s: State, tid: nat)
    requires Inv(s) && tid in s.resumed
    ensures s.resumed[tid] == Ok ==> s.owner == Thread(tid)
  {
  }

  /**
   In every run from rt_mutex_init a take without waiting fails exactly if another thread is ahead in takes, or
   has been handed the mutex and has not run yet.
   */
  lemma PollFailsIff(flag: Flag, calls: seq<Call>, w: Waiter)
    requires Enabled(Run(Free(flag), calls), Take(w, 0))
    ensures var t, log := Run(Free(flag), calls), Log(Free(flag), calls);
      Step(t, Take(w, 0)).1 == Taken(w.tid, Timeout) <==>
        exists u :: u != w.tid && (Depth(log, u) > 0 || (u in t.resumed && t.resumed[u] == Ok))
  {
    hide Step, Granted, Depth, Run, Log;
    var s, t := Free(flag), Run(Free(flag), calls);
    RunInv(s, calls);
    TakeAnswers(t, w, 0);
    forall u: nat
      ensures Depth(Log(s, calls), u) > 0 || (u in t.resumed && t.resumed[u] == Ok) <==> t.owner == Thread(u)
    {
      DepthIsGranted(s, calls, u);
      OwnerIff(t, u);
      OwnerIff(s, u);
    }
    if t.owner.Thread? {
      var u := t.owner.tid;
      assert Depth(Log(s, calls), u) > 0 || (u in t.resumed && t.resumed[u] == Ok);
    }
  }

  /** A thread owns the mutex exactly if it is granted some depth or has been handed the mutex. */
  lemma OwnerIff(s: State, u: nat)
    requires Inv(s)
    ensures Granted(s, u) >= 0
    ensures Granted(s, u) > 0 || (u in s.resumed && s.resumed[u] == Ok) <==> s.owner == Thread(u)
    ensures s.owner == Nobody ==> Granted(s, u) == 0
  {
  }

  lemma StepInLine(s: State, c: Call)
    requires Enabled(s, c) && InLine(s.flag, Prios(s.waiters))
    ensures Step(s, c).0.flag == s.flag && InLine(s.flag, Prios(Step(s, c).0.waiters))
  {
    hide Enqueue, Remove, InLine, Prios;
    TailInLine(s.flag, s.waiters);
    NobodyInLine(s.flag);
    match c
    case Take(w, _) => EnqueueInLine(s.flag, s.waiters, w);
    case Abort(tid, _) => RemoveInLine(s.flag, s.waiters, tid);
    case _ =>
  }

  /** In every run the waiting list stays in line. */
  lemma {:induction false} RunInLine(s: State, calls: seq<Call>)
    requires InLine(s.flag, Prios(s.waiters))
    ensures InLine(s.flag, Prios(Run(s, calls).waiters))
    decreases |calls|
  {
    hide Step, InLine;
    if calls != [] {
      if Enabled(s, calls[0]) {
        StepInLine(s, calls[0]);
      }
      RunInLine(if Enabled(s, calls[0]) then Step(s, calls[0]).0 else s, calls[1..]);
    }
  }

  // ---- The object ----

  class MutexObject {
    const flag: Flag
    var value: nat
    var hold: nat
    var owner: Owner
    var waiters: seq<Waiter>
    var resumed: Resumed

    function View(): State
      reads this
    {
      State(flag, value, hold, owner, waiters, resumed)
    }

    /** rt_mutex_init. */
    constructor (flag: Flag)
      ensures View() == Free(flag) && Inv(View())
    {
      this.flag := flag;
      value, hold, owner, waiters, resumed := 1, 0, Nobody, [], map[];
    }

    /** rt_mutex_take up to the point where the thread returns or is suspended. */
    method Take(w: Waiter, time: int) returns (r: Report)
      requires Inv(View()) && Enabled(View(), Call.Take(w, time))
      modifies this
      ensures Inv(View()) && (View(), r) == Step(old(View()), Call.Take(w, time))
    {
      StepInv(View(), Call.Take(w, time));
      if owner == Thread(w.tid) {
        if hold < HOLD_MAX {
          hold := hold + 1;
        } else {
          return Taken(w.tid, Full);
        }
      } else if value > 0 {
        value := value - 1;
        owner := Thread(w.tid);
        if hold < HOLD_MAX {
          hold := hold + 1;
        } else {
          return Taken(w.tid, Full);
        }
      } else {
        if time == 0 {
          return Taken(w.tid, Timeout);
        }
        waiters := Enqueue(flag, waiters, w);
        return Quiet;
      }
      return Taken(w.tid, Ok);
    }

    /** The rest of rt_mutex_take, when the thread runs again. */
    method Return(tid: nat) returns (r: Report)
      requires Inv(View()) && Enabled(View(), Call.Return(tid))
      modifies this
      ensures Inv(View()) && (View(), r) == Step(old(View()), Call.Return(tid))
    {
      r := Taken(tid, resumed[tid]);
      resumed := resumed - {tid};
    }

    /** rt_mutex_release. */
    method Release(tid: nat) returns (r: Report)
      requires Inv(View()) && Enabled(View(), Call.Release(tid))
      modifies this
      ensures Inv(View()) && (View(), r) == Step(old(View()), Call.Release(tid))
    {
      StepInv(View(), Call.Release(tid));
      if Thread(tid) != owner {
        return Unlocked(tid, Failed);
      }
      hold := (hold + 255) % 256;
      if hold == 0 {
        if waiters != [] {
          var thread := waiters[0].tid;
          owner := Thread(thread);
          if hold < HOLD_MAX {
            hold := hold + 1;
          } else {
            return Unlocked(tid, Full);
          }
          waiters := waiters[1..];
          resumed := resumed[thread := Ok];
        } else {
          if value < VALUE_MAX {
            value := value + 1;
          } else {
            return Unlocked(tid, Full);
          }
          owner := Nobody;
        }
      }
      return Unlocked(tid, Ok);
    }

    /** rt_thread_timeout takes the thread off the waiting list. */
    method Abort(tid: nat, err: Err)
      requires Inv(View()) && Enabled(View(), Call.Abort(tid, err))
      modifies this
      ensures Inv(View()) && View() == Step(old(View()), Call.Abort(tid, err)).0
    {
      StepInv(View(), Call.Abort(tid, err));
      waiters := Remove(waiters, tid);
      resumed := resumed[tid := err];
    }
  }
}
