/**
 Semaphores (ipc.c): a release hands its token to the first waiter or keeps it in
 the value; every token is accounted for whatever the threads do.
 */
module Semaphore {
  import opened WaitQueue
  import opened Ipc
  import opened Arithmetic

  const VALUE_MAX: nat := 65535

  datatype State = State(flag: Flag, value: nat, waiters: seq<Waiter>, resumed: Resumed)

  /** The steps: the first region of a take, its return after being resumed, a release, a timeout or signal, a reset. */
  datatype Call =
    | Take(w: Waiter, time: int)
    | Return(tid: nat)
    | Release
    | Abort(tid: nat, err: Err)
    | Reset(value: nat)

  /** What a step reports to its caller. */
  datatype Outcome = Returned(tid: nat, err: Err) | Suspended(tid: nat) | Posted(err: Err) | Silent

  predicate Enabled(s: State, c: Call) {
    match c
    case Take(w, _) => !WaitsFor(s.waiters, w.tid) && w.tid !in s.resumed
    case Return(tid) => tid in s.resumed
    case Release => true
    case Abort(tid, err) => WaitsFor(s.waiters, tid) && err != Ok
    case Reset(_) => true
  }

  function Step(s: State, c: Call): (State, Outcome)
    requires Enabled(s, c)
  {
    match c
    case Take(w, time) =>
      if s.value > 0 then (s.(value := s.value - 1), Returned(w.tid, Ok))
      else if time == 0 then (s, Returned(w.tid, Timeout))
      else (s.(waiters := Enqueue(s.flag, s.waiters, w)), Suspended(w.tid))
    case Return(tid) =>
      (s.(resumed := s.resumed - {tid}), Returned(tid, s.resumed[tid]))
    case Release =>
      if s.waiters != [] then
        (s.(waiters := s.waiters[1..], resumed := s.resumed[s.waiters[0].tid := Ok]), Posted(Ok))
      else if s.value < VALUE_MAX then (s.(value := s.value + 1), Posted(Ok))
      else (s, Posted(Full))
    case Abort(tid, err) =>
      (s.(waiters := Remove(s.waiters, tid), resumed := s.resumed[tid := err]), Silent)
    case Reset(v) =>
      (s.(waiters := [], resumed := ResumeAll(s.resumed, s.waiters), value := v % 65536), Silent)
  }

  ghost predicate Inv(s: State) {
    && s.value <= VALUE_MAX
    && (s.value > 0 ==> s.waiters == [])
    && Placed(s.waiters, s.resumed)
  }

  lemma StepInv(s: State, c: Call)
    requires Inv(s) && Enabled(s, c)
    ensures Inv(Step(s, c).0)
  {
    match c
    case Take(w, time) =>
      if s.value == 0 && time != 0 {
        OneJoins(s.flag, s.waiters, s.resumed, w);
      }
    case Release =>
      if s.waiters != [] {
        FrontLeaves(s.waiters, s.resumed, Ok);
      }
    case Abort(tid, err) => OneLeaves(s.waiters, s.resumed, tid, err);
    case Return(_) =>
    case Reset(_) =>
  }

  // ---- Runs ----

  /** Any interleaving of steps; steps that are not enabled do not occur. */
  function Run(s: State, calls: seq<Call>): State
    decreases |calls|
  {
    if calls == [] then s
    else Run(if Enabled(s, calls[0]) then Step(s, calls[0]).0 else s, calls[1..])
  }

  function Log(s: State, calls: seq<Call>): seq<Outcome>
    decreases |calls|
  {
    if calls == [] then []
    else if Enabled(s, calls[0]) then [Step(s, calls[0]).1] + Log(Step(s, calls[0]).0, calls[1..])
    else Log(s, calls[1..])
  }

  /** Takes that returned RT_EOK. */
  function Taken(log: seq<Outcome>): nat {
    if log == [] then 0
    else Taken(log[1..]) + if log[0].Returned? && log[0].err == Ok then 1 else 0
  }

  /** Releases that returned RT_EOK. */
  function Released(log: seq<Outcome>): nat {
    if log == [] then 0
    else Released(log[1..]) + if log[0] == Posted(Ok) then 1 else 0
  }

  /** In every run a positive value means that nobody waits. */
  lemma {:induction false} RunInv(s: State, calls: seq<Call>)
    requires Inv(s)
    ensures Inv(Run(s, calls))
    ensures Run(s, calls).value > 0 ==> Run(s, calls).waiters == []
    decreases |calls|
  {
    if calls != [] {
      if Enabled(s, calls[0]) {
        StepInv(s, calls[0]);
      }
      RunInv(if Enabled(s, calls[0]) then Step(s, calls[0]).0 else s, calls[1..]);
    }
  }

  /** Tokens in the value plus tokens handed to threads that have not run yet. */
  ghost function Tokens(s: State): nat {
    s.value + |Woken(s.resumed)|
  }

  lemma StepTokens(s: State, c: Call)
    requires Inv(s) && Enabled(s, c) && !c.Reset?
    ensures Tokens(Step(s, c).0) + Taken([Step(s, c).1]) == Tokens(s) + Released([Step(s, c).1])
  {
    match c
    case Take(w, time) =>
    case Return(tid) => Rerun(s.resumed, tid);
    case Release =>
      if s.waiters != [] {
        FrontLeaves(s.waiters, s.resumed, Ok);
        WakeOne(s.resumed, s.waiters[0].tid);
      }
    case Abort(tid, err) =>
      OneLeaves(s.waiters, s.resumed, tid, err);
      WakeWithError(s.resumed, tid, err);
  }

  /**
   Conservation: between resets, what was there at the start plus the successful
   releases equals the value, plus the takes that succeeded, plus the hand-offs
   still on their way to a resumed thread.
   */
  lemma {:induction false} TokensConserved(s: State, calls: seq<Call>)
    requires Inv(s)
    requires forall i :: 0 <= i < |calls| ==> !calls[i].Reset?
    ensures Tokens(Run(s, calls)) + Taken(Log(s, calls)) == Tokens(s) + Released(Log(s, calls))
    decreases |calls|
  {
    if calls == [] {
    } else if Enabled(s, calls[0]) {
      var s', o := Step(s, calls[0]).0, Step(s, calls[0]).1;
      StepInv(s, calls[0]);
      StepTokens(s, calls[0]);
      TokensConserved(s', calls[1..]);
      assert Log(s, calls)[1..] == Log(s', calls[1..]) && Log(s, calls)[0] == o;
      assert [o][1..] == [];
    } else {
      TokensConserved(s, calls[1..]);
    }
  }

  /** A semaphore initialised to v never lets more than v takes be ahead of the releases. */
  lemma AtMostInitial(s: State, calls: seq<Call>)
    requires Inv(s) && s.resumed == map[]
    requires forall i :: 0 <= i < |calls| ==> !calls[i].Reset?
    ensures Taken(Log(s, calls)) <= s.value + Released(Log(s, calls))
  {
    TokensConserved(s, calls);
    assert Woken(s.resumed) == {};
  }

  // ---- When a call succeeds ----

  /** A take gets a token exactly if the value is positive; otherwise it fails with time 0 and waits with any other. */
  lemma TakeAnswers(s: State, w: Waiter, time: int)
    requires Inv(s) && Enabled(s, Take(w, time))
    ensures var (t, o) := Step(s, Take(w, time));
      && (o == Returned(w.tid, Ok) <==> s.value > 0)
      && (o == Returned(w.tid, Timeout) <==> s.value == 0 && time == 0)
      && (o == Suspended(w.tid) <==> s.value == 0 && time != 0)
      && t.value == (if s.value > 0 then s.value - 1 else 0) && t.resumed == s.resumed
      && (o == Suspended(w.tid) ==> Joins(s.flag, s.waiters, Prios(s.waiters), w, w.prio, t.waiters))
      && (o != Suspended(w.tid) ==> t.waiters == s.waiters)
  {
    EnqueueJoins(s.flag, s.waiters, w);
  }

  /**
   A release hands its token to the first waiter, or adds it to the value, and is refused exactly if nobody
   waits and the value is at its maximum.
   */
  lemma ReleaseAnswers(s: State)
    requires Inv(s)
    ensures var (t, o) := Step(s, Call.Release);
      && (o == Posted(Full) <==> s.waiters == [] && s.value == VALUE_MAX)
      && (o == Posted(Ok) <==> s.waiters != [] || s.value < VALUE_MAX)
      && (s.waiters != [] ==> t.value == s.value)
      && (s.waiters == [] ==> t.value == Min(s.value + 1, VALUE_MAX))
      && FirstWoken(s.waiters, s.resumed, t.waiters, t.resumed)
  {
  }

  /** A timeout or a signal takes exactly its thread off the list, with its error, and does nothing else. */
  lemma AbortAnswers(s: State, tid: nat, err: Err)
    requires Inv(s) && Enabled(s, Abort(tid, err))
    ensures var t := Step(s, Abort(tid, err)).0;
      OneFailed(s.waiters, s.resumed, tid, err, t.waiters, t.resumed) && t.value == s.value
  {
    RemoveMeaning(s.waiters, tid);
  }

  /** A thread that has been resumed keeps its error until it runs. */
  lemma ResumedStep(s: State, c: Call, tid: nat)
    requires Inv(s) && Enabled(s, c) && tid in s.resumed && c != Return(tid)
    ensures tid in Step(s, c).0.resumed && Step(s, c).0.resumed[tid] == s.resumed[tid]
  {
    ResumedDoesNotWait(s.waiters, s.resumed, tid);
    if c.Reset? {
      ResumeAllMeaning(s.resumed, s.waiters, tid);
    } else if c.Release? && s.waiters != [] {
      assert s.waiters[0] in s.waiters;
    }
  }

  lemma {:induction false} ResumedStays(s: State, calls: seq<Call>, tid: nat)
    requires Inv(s) && tid in s.resumed && forall i :: 0 <= i < |calls| ==> calls[i] != Return(tid)
    ensures Inv(Run(s, calls)) && tid in Run(s, calls).resumed && Run(s, calls).resumed[tid] == s.resumed[tid]
    decreases |calls|
  {
    hide Inv, Step, Enabled;
    if calls != [] {
      if Enabled(s, calls[0]) {
        ResumedStep(s, calls[0], tid);
        StepInv(s, calls[0]);
      }
      ResumedStays(if Enabled(s, calls[0]) then Step(s, calls[0]).0 else s, calls[1..], tid);
    }
  }

  /** What a thread learns that leaves the waiting list in this step. */
  function Verdict(c: Call): Err {
    match c
    case Abort(_, err) => err
    case Reset(_) => Failed
    case _ => Ok
  }

  lemma LeavesWith(s: State, c: Call, tid: nat)
    requires Inv(s) && Enabled(s, c) && WaitsFor(s.waiters, tid) && !WaitsFor(Step(s, c).0.waiters, tid)
    ensures tid in Step(s, c).0.resumed && Step(s, c).0.resumed[tid] == Verdict(c)
    ensures c.Release? || c.Reset? || (c.Abort? && c.tid == tid)
  {
    hide WaitsFor, Enqueue, Remove, Unique, ResumeAll;
    FrontLeft(s.waiters, tid);
    match c
    case Take(w, _) => JoinLeavesNobody(s.flag, s.waiters, w, tid);
    case Abort(t, _) => RemovedLeft(s.waiters, t, tid);
    case Reset(_) => ResumeAllMeaning(s.resumed, s.waiters, tid);
    case _ =>
  }

  /**
   A waiting thread leaves the list by a release, a timeout or signal, or a reset, and its take then returns RT_EOK,
   that error or RT_ERROR, whatever runs before it does.
   */
  lemma {:induction false} WokenReturns(s: State, c: Call, tid: nat, calls: seq<Call>)
    requires Inv(s) && Enabled(s, c) && WaitsFor(s.waiters, tid) && !WaitsFor(Step(s, c).0.waiters, tid)
    requires forall i :: 0 <= i < |calls| ==> calls[i] != Return(tid)
    ensures c.Release? || c.Reset? || (c.Abort? && c.tid == tid)
    ensures var t := Run(Step(s, c).0, calls);
      && Enabled(t, Return(tid)) && Step(t, Return(tid)).1 == Returned(tid, Verdict(c))
      && tid !in Step(t, Return(tid)).0.resumed && !WaitsFor(t.waiters, tid)
  {
    hide Inv, Run, WaitsFor;
    LeavesWith(s, c, tid);
    StepInv(s, c);
    ResumedStays(Step(s, c).0, calls, tid);
    NotWaiting(Run(Step(s, c).0, calls), tid);
  }

  lemma NotWaiting(s: State, tid: nat)
    requires Inv(s) && tid in s.resumed
    ensures !WaitsFor(s.waiters, tid)
  {
  }

  /** A reset fails all waiters and sets the value, cut to 16 bits. */
  lemma ResetAnswers(s: State, v: nat, tid: nat)
    ensures var t := Step(s, Reset(v)).0;
      && t.waiters == [] && t.value % 65536 == v % 65536 && t.value < 65536
      && (WaitsFor(s.waiters, tid) ==> tid in t.resumed && t.resumed[tid] == Failed)
      && (!WaitsFor(s.waiters, tid) ==> (tid in t.resumed <==> tid in s.resumed))
      && (!WaitsFor(s.waiters, tid) && tid in s.resumed ==> t.resumed[tid] == s.resumed[tid])
  {
    ResumeAllMeaning(s.resumed, s.waiters, tid);
  }

  /**
   In every run between resets a take without waiting fails exactly if all tokens, the initial ones and those of
   the successful releases, have been taken or are on their way to a resumed thread.
   */
  lemma PollFailsIff(s: State, calls: seq<Call>, w: Waiter)
    requires Inv(s) && Enabled(Run(s, calls), Take(w, 0)) && forall i :: 0 <= i < |calls| ==> !calls[i].Reset?
    ensures var t, log := Run(s, calls), Log(s, calls);
      && (Step(t, Take(w, 0)).1 == Returned(w.tid, Timeout)
          <==> Tokens(s) + Released(log) == Taken(log) + |Woken(t.resumed)|)
      && (Step(t, Take(w, 0)).1 == Returned(w.tid, Ok)
          <==> Tokens(s) + Released(log) > Taken(log) + |Woken(t.resumed)|)
  {
    hide Inv, Step;
    RunInv(s, calls);
    TokensConserved(s, calls);
    TakeAnswers(Run(s, calls), w, 0);
  }

  lemma StepInLine(s: State, c: Call)
    requires Enabled(s, c) && InLine(s.flag, Prios(s.waiters))
    ensures Step(s, c).0.flag == s.flag && InLine(s.flag, Prios(Step(s, c).0.waiters))
  {
    hide Enqueue, Remove, InLine, Prios;
    TailInLine(s.flag, s.waiters);
    NobodyInLine(s.flag);
    match c
    case Take(w, _) => EnqueueInLine(s.flag, s.waiters, w);
    case Abort(tid, _) => RemoveInLine(s.flag, s.waiters, tid);
    case _ =>
  }

  /** In every run the waiting list stays in line. */
  lemma {:induction false} RunInLine(s: State, calls: seq<Call>)
    requires InLine(s.flag, Prios(s.waiters))
    ensures InLine(s.flag, Prios(Run(s, calls).waiters))
    decreases |calls|
  {
    hide Step, InLine;
    if calls != [] {
      if Enabled(s, calls[0]) {
        StepInLine(s, calls[0]);
      }
      RunInLine(if Enabled(s, calls[0]) then Step(s, calls[0]).0 else s, calls[1..]);
    }
  }

  // ---- The object ----

  class SemaphoreObject {
    const flag: Flag
    var value: nat
    var waiters: seq<Waiter>
    var resumed: Resumed

    function View(): State
      reads this
    {
      State(flag, value, waiters, resumed)
    }

    /** rt_sem_init. */
    constructor (flag: Flag, value: nat)
      requires value <= VALUE_MAX
      ensures View() == State(flag, value, [], map[]) && Inv(View())
    {
      this.flag := flag;
      this.value := value;
      waiters := [];
      resumed := map[];
    }

    /** rt_sem_take up to the point where the thread returns or is suspended. */
    method Take(w: Waiter, time: int) returns (o: Outcome)
      requires Inv(View()) && Enabled(View(), Call.Take(w, time))
      modifies this
      ensures Inv(View()) && (View(), o) == Step(old(View()), Call.Take(w, time))
    {
      StepInv(View(), Call.Take(w, time));
      if value > 0 {
        value := value - 1;
        return Returned(w.tid, Ok);
      }
      if time == 0 {
        return Returned(w.tid, Timeout);
      }
      waiters := Enqueue(flag, waiters, w);
      return Suspended(w.tid);
    }

    /** The rest of rt_sem_take, when the thread runs again. */
    method Return(tid: nat) returns (o: Outcome)
      requires Inv(View()) && Enabled(View(), Call.Return(tid))
      modifies this
      ensures Inv(View()) && (View(), o) == Step(old(View()), Call.Return(tid))
    {
      o := Returned(tid, resumed[tid]);
      resumed := resumed - {tid};
    }

    /** rt_sem_release. */
    method Release() returns (o: Outcome)
      requires Inv(View())
      modifies this
      ensures Inv(View()) && (View(), o) == Step(old(View()), Call.Release)
    {
      StepInv(View(), Call.Release);
      if waiters != [] {
        var thread := waiters[0].tid;
        waiters := waiters[1..];
        resumed := resumed[thread := Ok];
      } else {
        if value < VALUE_MAX {
          value := value + 1;
        } else {
          return Posted(Full);
        }
      }
      return Posted(Ok);
    }

    /** rt_thread_timeout, or a signal, takes the thread off the waiting list. */
    method Abort(tid: nat, err: Err)
      requires Inv(View()) && Enabled(View(), Call.Abort(tid, err))
      modifies this
      ensures Inv(View()) && View() == Step(old(View()), Call.Abort(tid, err)).0
    {
      StepInv(View(), Call.Abort(tid, err));
      waiters := Remove(waiters, tid);
      resumed := resumed[tid := err];
    }

    /** rt_sem_control with RT_IPC_CMD_RESET. */
    method Reset(v: nat)
      requires Inv(View())
      modifies this
      ensures Inv(View()) && View() == Step(old(View()), Call.Reset(v)).0
    {
      ghost var s := View();
      StepInv(s, Call.Reset(v));
      while waiters != []
        invariant flag == s.flag && ResumeAll(resumed, waiters) == ResumeAll(s.resumed, s.waiters)
        decreases |waiters|
      {
        resumed := resumed[waiters[0].tid := Failed];
        waiters := waiters[1..];
      }
      value := v % 65536;
    }
  }
}
