/**
 The circular doubly linked list of rtservice.h, and the waiting lists ipc.c
 builds on it, at the level of link words.
 */
module RtList {
  import opened Links
  import opened WaitQueue

  /** The list as a ring: its head followed by the members in order. */
  ghost predicate IsList(next: Table, prev: Table, head: nat, members: seq<nat>) {
    Ring(next, prev, [head] + members)
  }

  lemma InsertedBehindHead(head: nat, members: seq<nat>, k: nat, n: nat)
    requires k <= |members|
    ensures var s := [head] + members; s[..k + 1] + [n] + s[k + 1..] == [head] + InsertAt(members, k, n)
  {
    var s := [head] + members;
    assert s[..k + 1] == [head] + members[..k] && s[k + 1..] == members[k..];
    assert ([head] + members[..k]) + [n] + members[k..] == [head] + (members[..k] + [n] + members[k..]);
  }

  function PriosOf(prio: map<nat, nat>, members: seq<nat>): (r: seq<nat>)
    requires forall a :: a in members ==> a in prio
    ensures |r| == |members|
    ensures forall i :: 0 <= i < |members| ==> r[i] == prio[members[i]]
  {
    seq(|members|, i requires 0 <= i < |members| => prio[members[i]])
  }

  lemma {:induction false} FirstGreaterIs(prios: seq<nat>, p: nat, k: nat)
    requires k <= |prios| && (forall i :: 0 <= i < k ==> prios[i] <= p) && (k < |prios| ==> p < prios[k])
    ensures FirstGreater(prios, p) == k
  {
    if k > 0 {
      FirstGreaterIs(prios[1..], p, k - 1);
    }
  }

  /** The neighbours of s[k] are members of the ring. */
  lemma RingNeighbours(next: Table, prev: Table, s: seq<nat>, k: nat)
    requires Ring(next, prev, s) && k < |s|
    ensures s[k] in next && s[k] in prev && next[s[k]] in s && prev[s[k]] in s
    ensures |s| > 1 ==> next[s[k]] != s[k] && prev[s[k]] != s[k]
  {
    RingInverse(next, prev, s, k);
  }

  lemma WithoutMember(next: Table, prev: Table, s: seq<nat>, k: nat)
    requires Ring(next, prev, s) && k < |s|
    ensures s[k] !in s[..k] + s[k + 1..]
  {
    var t := s[..k] + s[k + 1..];
    assert forall i :: 0 <= i < |t| ==> t[i] == s[if i < k then i else i + 1] && t[i] != s[k];
  }

  lemma RingDomain(next: Table, prev: Table, s: seq<nat>)
    requires Ring(next, prev, s)
    ensures forall a :: a in s ==> a in next && a in prev
  {
  }

  lemma SelfRing(next: Table, prev: Table, n: nat)
    requires n in next && n in prev && next[n] == n && prev[n] == n
    ensures Ring(next, prev, [n])
  {
  }

  class ListMemory {
    var next: Table
    var prev: Table
    /** current_priority of the thread whose tlist node is at the address. */
    var prio: map<nat, nat>

    /** rt_list_init. */
    method Init(l: nat)
      modifies this`next, this`prev
      ensures next == old(next)[l := l] && prev == old(prev)[l := l]
      ensures IsList(next, prev, l, [])
    {
      prev := prev[l := l];
      next := next[l := l];
      assert [l] + [] == [l];
    }

    /** rt_list_insert_after: n becomes the element behind position k of the ring. */
    method InsertAfter(l: nat, n: nat, ghost s: seq<nat>, ghost k: nat)
      requires Ring(next, prev, s) && k < |s| && s[k] == l && n !in s
      modifies this`next, this`prev
      ensures Ring(next, prev, s[..k + 1] + [n] + s[k + 1..])
      ensures forall a :: a !in s && a != n ==>
        (a in next <==> a in old(next)) && (a in next ==> next[a] == old(next)[a])
      ensures forall a :: a !in s && a != n ==>
        (a in prev <==> a in old(prev)) && (a in prev ==> prev[a] == old(prev)[a])
    {
      RingInverse(next, prev, s, k);
      RingInsert(next, prev, s, k, n);
      var first := next[l];
      prev := prev[first := n];
      next := next[n := first];
      next := next[l := n];
      prev := prev[n := l];
      assert prev == old(prev)[n := l][first := n];
    }

    /** rt_list_insert_before: inserting before the head appends to the list. */
    method InsertBefore(l: nat, n: nat, ghost head: nat, ghost members: seq<nat>, ghost k: nat)
      requires IsList(next, prev, head, members) && n != head && n !in members
      requires k <= |members| && l == if k < |members| then members[k] else head
      modifies this`next, this`prev
      ensures IsList(next, prev, head, InsertAt(members, k, n))
      ensures forall a :: a != head && a !in members && a != n ==>
        (a in next <==> a in old(next)) && (a in next ==> next[a] == old(next)[a])
      ensures forall a :: a != head && a !in members && a != n ==>
        (a in prev <==> a in old(prev)) && (a in prev ==> prev[a] == old(prev)[a])
    {
      ghost var s := [head] + members;
      ghost var j := if k < |members| then k + 1 else 0;
      assert s[j] == l;
      RingInverse(next, prev, s, j);
      RingInverse(next, prev, s, k);
      RingInsert(next, prev, s, k, n);
      InsertedBehindHead(head, members, k, n);
      var last := prev[l];
      next := next[last := n];
      prev := prev[n := last];
      prev := prev[l := n];
      next := next[n := l];
      assert next == old(next)[n := l][last := n];
    }

    /** rt_list_remove: the node leaves the list and is a list of its own again. */
    method Remove(n: nat, ghost head: nat, ghost members: seq<nat>, ghost k: nat)
      requires IsList(next, prev, head, members) && k < |members| && members[k] == n
      modifies this`next, this`prev
      ensures IsList(next, prev, head, DeleteAt(members, k)) && IsList(next, prev, n, [])
      ensures forall a :: a != head && a !in members ==>
        (a in next <==> a in old(next)) && (a in next ==> next[a] == old(next)[a])
      ensures forall a :: a != head && a !in members ==>
        (a in prev <==> a in old(prev)) && (a in prev ==> prev[a] == old(prev)[a])
    {
      hide Ring;
      ghost var s := [head] + members;
      assert s[k + 1] == n;
      RingInverse(next, prev, s, k + 1);
      RingNeighbours(next, prev, s, k + 1);
      RingRemove(next, prev, s, k + 1);
      ghost var t := s[..k + 1] + s[k + 2..];
      assert t == [head] + DeleteAt(members, k);
      ghost var next0, prev0 := next, prev;
      prev := prev[next[n] := prev[n]];
      next := next[prev[n] := next[n]];
      ghost var next1, prev1 := next, prev;
      prev := prev[n := n];
      next := next[n := n];
      WithoutMember(next0, prev0, s, k + 1);
      RingDomain(next1, prev1, t);
      RingFrame(next1, prev1, next, prev, t);
      assert [n] + [] == [n];
      SelfRing(next, prev, n);
    }

    /** rt_list_isempty. */
    method IsEmpty(l: nat, ghost members: seq<nat>) returns (empty: bool)
      requires IsList(next, prev, l, members)
      ensures empty <==> members == []
    {
      RingInverse(next, prev, [l] + members, 0);
      HeadIsNoMember(l, members);
      empty := next[l] == l;
    }

    lemma HeadIsNoMember(head: nat, members: seq<nat>)
      requires IsList(next, prev, head, members)
      ensures head !in members
    {
      var s := [head] + members;
      forall i | 0 <= i < |members|
        ensures members[i] != head
      {
        assert s[i + 1] != s[0];
      }
    }

    /** rt_list_len. */
    method Len(l: nat, ghost members: seq<nat>) returns (len: nat)
      requires IsList(next, prev, l, members)
      ensures len == |members|
    {
      ghost var s := [l] + members;
      HeadIsNoMember(l, members);
      len := 0;
      var p := l;
      RingInverse(next, prev, s, 0);
      while next[p] != l
        invariant len <= |members| && p == s[len] && p in next
        invariant next[p] == if len < |members| then members[len] else l
        decreases |members| - len
      {
        p := next[p];
        len := len + 1;
        RingInverse(next, prev, s, len);
      }
    }

    /** The walk of _ipc_list_suspend: the first node with a greater priority number, or the head. */
    method FindSlot(list: nat, thread: nat, ghost members: seq<nat>) returns (n: nat, ghost k: nat)
      requires IsList(next, prev, list, members) && list !in members
      requires thread in prio && forall a :: a in members ==> a in prio
      ensures k == FirstGreater(PriosOf(prio, members), prio[thread])
      ensures var g := FirstGreater(PriosOf(prio, members), prio[thread]);
        n == if g < |members| then members[g] else list
    {
      ghost var s := [list] + members;
      k := 0;
      RingInverse(next, prev, s, 0);
      n := next[list];
      while n != list && !(prio[thread] < prio[n])
        invariant k <= |members| && n == if k < |members| then members[k] else list
        invariant forall i :: 0 <= i < k ==> prio[members[i]] <= prio[thread]
        decreases |members| - k
      {
        RingInverse(next, prev, s, k + 1);
        n := next[n];
        k := k + 1;
      }
      FirstGreaterIs(PriosOf(prio, members), prio[thread], k);
    }

    /** _ipc_list_suspend: the thread's node is queued where its priority belongs, behind its equals. */
    method Suspend(list: nat, thread: nat, flag: Flag, ghost members: seq<nat>)
      requires IsList(next, prev, list, members) && thread != list && thread !in members
      requires thread in prio && forall a :: a in members ==> a in prio
      modifies this`next, this`prev
      ensures IsList(next, prev, list, InsertAt(members, Slot(flag, PriosOf(prio, members), prio[thread]), thread))
    {
      hide IsList, FirstGreater;
      HeadIsNoMember(list, members);
      match flag
      case Fifo =>
        InsertBefore(list, thread, list, members, |members|);
      case Prio =>
        var n;
        ghost var k;
        n, k := FindSlot(list, thread, members);
        InsertBefore(n, thread, list, members, k);
    }

    /** _ipc_list_resume: the first waiter leaves the list. */
    method Resume(list: nat, ghost members: seq<nat>) returns (thread: nat)
      requires IsList(next, prev, list, members) && members != []
      modifies this`next, this`prev
      ensures thread == members[0] && IsList(next, prev, list, members[1..]) && IsList(next, prev, thread, [])
    {
      ghost var s := [list] + members;
      RingInverse(next, prev, s, 0);
      thread := next[list];
      Remove(thread, list, members, 0);
      assert DeleteAt(members, 0) == members[1..];
    }

    /** _ipc_list_resume_all: every waiter leaves, in order; the list is empty. */
    method ResumeAll(list: nat, ghost members: seq<nat>) returns (resumed: seq<nat>)
      requires IsList(next, prev, list, members)
      modifies this`next, this`prev
      ensures resumed == members && IsList(next, prev, list, [])
    {
      resumed := [];
      ghost var rest := members;
      var empty := IsEmpty(list, rest);
      while !empty
        invariant IsList(next, prev, list, rest) && resumed + rest == members
        invariant empty <==> rest == []
        decreases |rest|
      {
        var thread := Resume(list, rest);
        resumed := resumed + [thread];
        rest := rest[1..];
        empty := IsEmpty(list, rest);
      }
    }
  }
}
