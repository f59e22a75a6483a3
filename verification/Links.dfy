/**
 Circular doubly linked structures over raw addresses: `next` and `prev` hold
 the two link words of the header at each address.
 */
module Links {

  type Table = map<nat, nat>

  /** Following `next` from s[0] visits s in order and comes back to s[0]; `prev` is its inverse. */
  ghost predicate Ring(next: Table, prev: Table, s: seq<nat>) {
    && |s| > 0
    && (forall i :: 0 <= i < |s| ==> s[i] in next && s[i] in prev)
    && (forall i, j :: 0 <= i < j < |s| ==> s[i] != s[j])
    && (forall i, j :: 0 <= i < j < |s| && j == i + 1 ==> next[s[i]] == s[j] && prev[s[j]] == s[i])
    && next[s[|s| - 1]] == s[0]
    && prev[s[0]] == s[|s| - 1]
  }

  /** `next` and `prev` are inverse to each other on the whole ring. */
  lemma RingInverse(next: Table, prev: Table, s: seq<nat>, k: nat)
    requires Ring(next, prev, s)
    requires k < |s|
    ensures s[k] in next && s[k] in prev
    ensures next[s[k]] == s[if k + 1 < |s| then k + 1 else 0]
    ensures prev[s[k]] == s[if k > 0 then k - 1 else |s| - 1]
    ensures next[s[k]] in prev && prev[next[s[k]]] == s[k]
    ensures prev[s[k]] in next && next[prev[s[k]]] == s[k]
  {
    assert k + 1 < |s| ==> next[s[k]] == s[k + 1];
    assert k > 0 ==> prev[s[k]] == s[k - 1];
  }

  /** The ring only depends on the link words of its own members. */
  lemma RingFrame(next: Table, prev: Table, next': Table, prev': Table, s: seq<nat>)
    requires Ring(next, prev, s)
    requires forall a :: a in s ==> a in next' && a in prev' && next'[a] == next[a] && prev'[a] == prev[a]
    ensures Ring(next', prev', s)
  {
  }

  /** t is s with q behind s[k]. */
  ghost predicate IsInserted(s: seq<nat>, k: nat, q: nat, t: seq<nat>) {
    && k < |s| && |t| == |s| + 1
    && (forall i :: 0 <= i <= k ==> t[i] == s[i])
    && t[k + 1] == q
    && (forall i :: k + 1 < i < |t| ==> t[i] == s[i - 1])
  }

  /** t is s without s[k]. */
  ghost predicate IsRemoved(s: seq<nat>, k: nat, t: seq<nat>) {
    && k < |s| && |t| == |s| - 1
    && (forall i :: 0 <= i < k ==> t[i] == s[i])
    && (forall i :: k <= i < |t| ==> t[i] == s[i + 1])
  }

  lemma Pieces(s: seq<nat>, k: nat, q: nat)
    requires k < |s|
    ensures IsInserted(s, k, q, s[..k + 1] + [q] + s[k + 1..])
    ensures IsRemoved(s, k, s[..k] + s[k + 1..])
  {
  }

  /** a links to b and b back to a. */
  ghost predicate Linked(next: Table, prev: Table, a: nat, b: nat) {
    a in next && b in prev && next[a] == b && prev[b] == a
  }

  /** Links between all neighbours and between the two ends make a ring. */
  lemma AllLinked(next: Table, prev: Table, t: seq<nat>)
    requires |t| > 0 && forall i, j :: 0 <= i < j < |t| ==> t[i] != t[j]
    requires forall i, j :: 0 <= i < j < |t| && j == i + 1 ==> Linked(next, prev, t[i], t[j])
    requires Linked(next, prev, t[|t| - 1], t[0])
    ensures Ring(next, prev, t)
  {
    forall i | 0 <= i < |t|
      ensures t[i] in next && t[i] in prev
    {
      if i + 1 < |t| {
        var j := i + 1;
        assert Linked(next, prev, t[i], t[j]);
      }
      if i > 0 {
        var j := i - 1;
        assert Linked(next, prev, t[j], t[i]);
      }
    }
  }

  lemma InsertedDistinct(s: seq<nat>, k: nat, q: nat, t: seq<nat>)
    requires IsInserted(s, k, q, t) && q !in s && forall i, j :: 0 <= i < j < |s| ==> s[i] != s[j]
    ensures forall i, j :: 0 <= i < j < |t| ==> t[i] != t[j]
  {
    forall i, j | 0 <= i < j < |t|
      ensures t[i] != t[j]
    {
      var a, b := if i <= k then i else i - 1, if j <= k then j else j - 1;
      if i != k + 1 && j != k + 1 {
        assert t[i] == s[a] && t[j] == s[b] && a < b;
      } else if i == k + 1 {
        assert t[j] == s[b] && s[b] in s;
      } else {
        assert t[i] == s[a] && s[a] in s;
      }
    }
  }

  /** Neighbours i and i + 1 of the ring with `q` linked in behind s[k]. */
  lemma InsertedPair(next: Table, prev: Table, s: seq<nat>, k: nat, q: nat, t: seq<nat>, i: nat)
    requires Ring(next, prev, s) && IsInserted(s, k, q, t)
    requires q !in s && i < |s|
    ensures s[k] in next
    ensures var next', prev' := next[q := next[s[k]]][s[k] := q], prev[q := s[k]][next[s[k]] := q];
      Linked(next', prev', t[i], t[i + 1])
  {
    RingInverse(next, prev, s, k);
    assert s[k] in s;
    if i < k {
      RingInverse(next, prev, s, i);
      assert s[i] != s[k] && s[i] in s && s[i + 1] in s;
      assert k + 1 < |s| ==> s[i + 1] != s[k + 1];
      assert s[0] != s[i + 1];
    } else if i > k + 1 {
      RingInverse(next, prev, s, i - 1);
      assert s[i - 1] != s[k] && s[i - 1] in s && s[i] in s && s[i] != s[k + 1];
    }
  }

  /** The last and the first of the ring with `q` linked in behind s[k]. */
  lemma InsertedEnds(next: Table, prev: Table, s: seq<nat>, k: nat, q: nat, t: seq<nat>)
    requires Ring(next, prev, s) && IsInserted(s, k, q, t) && q !in s
    ensures s[k] in next
    ensures var next', prev' := next[q := next[s[k]]][s[k] := q], prev[q := s[k]][next[s[k]] := q];
      Linked(next', prev', t[|t| - 1], t[0])
  {
    var n := |s|;
    RingInverse(next, prev, s, k);
    assert s[n - 1] in s && s[0] in s;
    if k + 1 < n {
      assert s[k] != s[n - 1] && s[k + 1] != s[0];
    }
  }

  /** Linking `q` in behind s[k]. */
  lemma RingInsert(next: Table, prev: Table, s: seq<nat>, k: nat, q: nat)
    requires Ring(next, prev, s)
    requires k < |s| && q !in s
    ensures Ring(next[q := next[s[k]]][s[k] := q], prev[q := s[k]][next[s[k]] := q], s[..k + 1] + [q] + s[k + 1..])
  {
    hide IsInserted;
    var t := s[..k + 1] + [q] + s[k + 1..];
    Pieces(s, k, q);
    var next', prev' := next[q := next[s[k]]][s[k] := q], prev[q := s[k]][next[s[k]] := q];
    forall i, j | 0 <= i < j < |t| && j == i + 1
      ensures Linked(next', prev', t[i], t[j])
    {
      InsertedPair(next, prev, s, k, q, t, i);
    }
    InsertedEnds(next, prev, s, k, q, t);
    InsertedDistinct(s, k, q, t);
    AllLinked(next', prev', t);
  }

  /** Neighbours i and i + 1 of the ring without s[k]. */
  lemma RemovedPair(next: Table, prev: Table, s: seq<nat>, k: nat, t: seq<nat>, i: nat)
    requires Ring(next, prev, s) && IsRemoved(s, k, t) && i + 1 < |t|
    ensures s[k] in next && s[k] in prev
    ensures var next', prev' := next[prev[s[k]] := next[s[k]]], prev[next[s[k]] := prev[s[k]]];
      Linked(next', prev', t[i], t[i + 1])
  {
    var n := |s|;
    RingInverse(next, prev, s, k);
    if i + 1 < k {
      RingInverse(next, prev, s, i);
      assert s[i] != s[k - 1] && s[i + 1] != s[0];
      assert k + 1 < n ==> s[i + 1] != s[k + 1];
    } else if i >= k {
      RingInverse(next, prev, s, i + 1);
      assert s[i + 1] != s[n - 1] && s[i + 2] != s[k + 1];
      assert k > 0 ==> s[i + 1] != s[k - 1];
    }
  }

  lemma RemovedEnds(next: Table, prev: Table, s: seq<nat>, k: nat, t: seq<nat>)
    requires Ring(next, prev, s) && IsRemoved(s, k, t) && |s| > 1
    ensures s[k] in next && s[k] in prev
    ensures var next', prev' := next[prev[s[k]] := next[s[k]]], prev[next[s[k]] := prev[s[k]]];
      Linked(next', prev', t[|t| - 1], t[0])
  {
    var n := |s|;
    RingInverse(next, prev, s, k);
    if 0 < k < n - 1 {
      assert s[k - 1] != s[n - 1] && s[k + 1] != s[0];
    }
  }

  lemma RemovedDistinct(s: seq<nat>, k: nat, t: seq<nat>)
    requires IsRemoved(s, k, t) && forall i, j :: 0 <= i < j < |s| ==> s[i] != s[j]
    ensures forall i, j :: 0 <= i < j < |t| ==> t[i] != t[j]
  {
  }

  /** Unlinking s[k] by joining its neighbours. */
  lemma RingRemove(next: Table, prev: Table, s: seq<nat>, k: nat)
    requires Ring(next, prev, s)
    requires k < |s| && |s| > 1
    ensures Ring(next[prev[s[k]] := next[s[k]]], prev[next[s[k]] := prev[s[k]]], s[..k] + s[k + 1..])
  {
    hide IsRemoved;
    var t := s[..k] + s[k + 1..];
    Pieces(s, k, 0);
    var next', prev' := next[prev[s[k]] := next[s[k]]], prev[next[s[k]] := prev[s[k]]];
    forall i, j | 0 <= i < j < |t| && j == i + 1
      ensures Linked(next', prev', t[i], t[j])
    {
      RemovedPair(next, prev, s, k, t, i);
    }
    RemovedEnds(next, prev, s, k, t);
    RemovedDistinct(s, k, t);
    AllLinked(next', prev', t);
  }
}
