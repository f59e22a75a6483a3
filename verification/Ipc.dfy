/**
 What the IPC objects of ipc.c share. Every region between disabling and enabling
 interrupts is one step. A suspended thread is in a waiting list; a resumed thread
 that has not run yet is in `resumed`, with the error code it will find.
 */
module Ipc {
  import opened WaitQueue

  datatype Err = Ok | Timeout | Full | Failed | Interrupted

  type Resumed = map<nat, Err>

  /** All waiters leave with an error, as _ipc_list_resume_all does. */
  function ResumeAll(resumed: Resumed, q: seq<Waiter>): (r: Resumed)
    decreases |q|
  {
    if q == [] then resumed else ResumeAll(resumed[q[0].tid := Failed], q[1..])
  }

  lemma {:induction false} ResumeAllMeaning(resumed: Resumed, q: seq<Waiter>, t: nat)
    ensures t in ResumeAll(resumed, q) <==> t in resumed || WaitsFor(q, t)
    ensures WaitsFor(q, t) ==> ResumeAll(resumed, q)[t] == Failed
    ensures !WaitsFor(q, t) && t in resumed ==> ResumeAll(resumed, q)[t] == resumed[t]
    decreases |q|
  {
    if q != [] {
      ResumeAllMeaning(resumed[q[0].tid := Failed], q[1..], t);
      assert q == [q[0]] + q[1..];
      assert q[0] in q;
    }
  }

  /** Resumed threads that were woken without an error. */
  ghost function Woken(resumed: Resumed): set<nat> {
    set t | t in resumed && resumed[t] == Ok
  }

  lemma WakeOne(resumed: Resumed, t: nat)
    requires t !in resumed
    ensures |Woken(resumed[t := Ok])| == |Woken(resumed)| + 1
  {
    assert Woken(resumed[t := Ok]) == Woken(resumed) + {t};
  }

  lemma WakeWithError(resumed: Resumed, t: nat, e: Err)
    requires t !in resumed && e != Ok
    ensures Woken(resumed[t := e]) == Woken(resumed)
  {
  }

  lemma Rerun(resumed: Resumed, t: nat)
    requires t in resumed
    ensures |Woken(resumed - {t})| == |Woken(resumed)| - if resumed[t] == Ok then 1 else 0
  {
    if resumed[t] == Ok {
      assert Woken(resumed) == Woken(resumed - {t}) + {t};
    } else {
      assert Woken(resumed) == Woken(resumed - {t});
    }
  }

  /** A thread is in at most one place: waiting once, or resumed. */
  ghost predicate Placed(q: seq<Waiter>, resumed: Resumed) {
    Unique(q) && forall w :: w in q ==> w.tid !in resumed
  }

  lemma ResumedDoesNotWait(q: seq<Waiter>, resumed: Resumed, tid: nat)
    requires Placed(q, resumed) && tid in resumed
    ensures !WaitsFor(q, tid)
  {
  }

  lemma FrontLeaves(q: seq<Waiter>, resumed: Resumed, e: Err)
    requires Placed(q, resumed) && q != []
    ensures q[0].tid !in resumed && Placed(q[1..], resumed[q[0].tid := e])
  {
    assert q[0] in q;
    forall w | w in q[1..]
      ensures w.tid != q[0].tid && w in q
    {
      var i :| 0 <= i < |q[1..]| && q[1..][i] == w;
      assert q[i + 1] == w;
    }
  }

  lemma OneLeaves(q: seq<Waiter>, resumed: Resumed, t: nat, e: Err)
    requires Placed(q, resumed) && WaitsFor(q, t)
    ensures t !in resumed && Placed(Remove(q, t), resumed[t := e])
  {
    RemoveMeaning(q, t);
  }

  lemma OneJoins(flag: Flag, q: seq<Waiter>, resumed: Resumed, w: Waiter)
    requires Placed(q, resumed) && !WaitsFor(q, w.tid) && w.tid !in resumed
    ensures Placed(Enqueue(flag, q, w), resumed)
  {
    EnqueueUnique(flag, q, w);
  }

  /** From q and `resumed` the first thread in line, if any, has been woken without an error, and nobody else. */
  ghost predicate FirstWoken(q: seq<Waiter>, resumed: Resumed, q': seq<Waiter>, resumed': Resumed) {
    if q == [] then q' == [] && resumed' == resumed
    else [q[0]] + q' == q && resumed' == resumed[q[0].tid := Ok]
  }

  /** Exactly thread tid has left q, with an error. */
  ghost predicate OneFailed(q: seq<Waiter>, resumed: Resumed, tid: nat, err: Err, q': seq<Waiter>, resumed': Resumed) {
    && (forall w :: w in q' <==> w in q && w.tid != tid)
    && resumed' == resumed[tid := err]
  }
}
