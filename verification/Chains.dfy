/**
 Singly linked lists over raw addresses: `next` holds the link word of the cell
 at each address, and 0 ends the list.
 */
module Chains {
  import opened Sequences

  /** Following `next` from p visits exactly s, in order, and stops. */
  ghost predicate Chain(next: map<nat, nat>, p: nat, s: seq<nat>) {
    && p == (if s == [] then 0 else s[0])
    && (forall i :: 0 <= i < |s| ==> s[i] != 0 && s[i] in next)
    && (forall i, j :: 0 <= i < j < |s| && j == i + 1 ==> next[s[i]] == s[j])
    && (s != [] ==> next[s[|s| - 1]] == 0)
  }

  /** A write to a cell outside the chain does not change it. */
  lemma ChainElsewhere(next: map<nat, nat>, p: nat, s: seq<nat>, x: nat, v: nat)
    requires Chain(next, p, s) && x !in s
    ensures Chain(next[x := v], p, s)
  {
  }

  lemma ChainPush(next: map<nat, nat>, p: nat, s: seq<nat>, x: nat)
    requires Chain(next, p, s) && x != 0 && x !in s
    ensures Chain(next[x := p], x, [x] + s)
  {
    var t := [x] + s;
    assert forall i :: 0 < i < |t| ==> t[i] == s[i - 1] && s[i - 1] in s;
  }

  lemma ChainPop(next: map<nat, nat>, p: nat, s: seq<nat>)
    requires Chain(next, p, s) && p != 0
    ensures s != [] && p == s[0] && Chain(next, next[p], s[1..])
  {
  }

  lemma ChainAppend(next: map<nat, nat>, p: nat, s: seq<nat>, x: nat)
    requires Chain(next, p, s) && s != [] && Distinct(s)
    requires x != 0 && x !in s && x in next && next[x] == 0
    ensures Chain(next[s[|s| - 1] := x], p, s + [x])
  {
    var l := |s| - 1;
    assert forall i :: 0 <= i < l ==> s[i] != s[l];
    assert s[l] in s;
  }
}
