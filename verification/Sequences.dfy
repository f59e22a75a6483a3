/** Sequences without repetition, and the sets of their elements. */
module Sequences {

  ghost predicate Distinct(s: seq<nat>) {
    forall i, j :: 0 <= i < j < |s| ==> s[i] != s[j]
  }

  function Elements(s: seq<nat>): set<nat> {
    set x | x in s
  }

  lemma {:induction false} DistinctCount(s: seq<nat>)
    requires Distinct(s)
    ensures |Elements(s)| == |s|
  {
    if s != [] {
      DistinctCount(s[1..]);
      assert s == [s[0]] + s[1..];
      assert Elements(s) == Elements(s[1..]) + {s[0]};
    }
  }

  lemma SameUnion<T>(a: seq<T>, b: seq<T>, c: seq<T>, d: seq<T>)
    requires a + b == c + d
    ensures multiset(a) + multiset(b) == multiset(c) + multiset(d)
  {
    assert multiset(a + b) == multiset(a) + multiset(b);
    assert multiset(c + d) == multiset(c) + multiset(d);
  }

  lemma Rearrange<T>(q: multiset<T>, a: multiset<T>, l: multiset<T>, b: multiset<T>, u: multiset<T>,
                  r: multiset<T>, e: multiset<T>)
    requires q + a == b + r && r + l == u + e
    ensures q + (a + l) == (b + u) + e
  {
    assert q + (a + l) == (q + a) + l;
    assert (b + r) + l == b + (r + l);
  }

  /** What enters and leaves a queue, one step and the steps after it taken together. */
  lemma JoinMoves<T>(q: seq<T>, sent: seq<T>, later: seq<T>, got: seq<T>, q': seq<T>, laterGot: seq<T>, end: seq<T>)
    requires q + sent == got + q' && q' + later == laterGot + end
    ensures q + (sent + later) == (got + laterGot) + end
  {
    assert q + (sent + later) == (q + sent) + later;
    assert (got + q') + later == got + (q' + later);
  }
}
