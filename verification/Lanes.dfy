/**
 A queue with an urgent lane in front of a normal one: urgent items go to the front
 of all, normal ones to the end, and items are taken from the front.
 */
module Lanes {
  import opened Sequences

  datatype Lanes<T> = Lanes(urgent: seq<T>, normal: seq<T>)

  datatype Op<T> = Back(value: T) | Front(value: T) | Pop | Keep

  /** What was taken, and from which lane. */
  datatype Item<T> = Item(value: T, urgent: bool)

  function Whole<T>(l: Lanes<T>): seq<T> {
    l.urgent + l.normal
  }

  function Apply<T>(l: Lanes<T>, o: Op<T>): Lanes<T> {
    match o
    case Back(v) => l.(normal := l.normal + [v])
    case Front(v) => l.(urgent := [v] + l.urgent)
    case Pop =>
      if l.urgent != [] then l.(urgent := l.urgent[1..])
      else if l.normal != [] then l.(normal := l.normal[1..])
      else l
    case Keep => l
  }

  function TakenBy<T>(l: Lanes<T>, o: Op<T>): seq<Item<T>> {
    if !o.Pop? then []
    else if l.urgent != [] then [Item(l.urgent[0], true)]
    else if l.normal != [] then [Item(l.normal[0], false)]
    else []
  }

  function ApplyAll<T>(l: Lanes<T>, ops: seq<Op<T>>): Lanes<T>
    decreases |ops|
  {
    if ops == [] then l else ApplyAll(Apply(l, ops[0]), ops[1..])
  }

  function TakenByAll<T>(l: Lanes<T>, ops: seq<Op<T>>): seq<Item<T>>
    decreases |ops|
  {
    if ops == [] then [] else TakenBy(l, ops[0]) + TakenByAll(Apply(l, ops[0]), ops[1..])
  }

  function Values<T>(items: seq<Item<T>>): seq<T> {
    if items == [] then [] else [items[0].value] + Values(items[1..])
  }

  function Normals<T>(items: seq<Item<T>>): seq<T> {
    if items == [] then [] else (if items[0].urgent then [] else [items[0].value]) + Normals(items[1..])
  }

  function BackOf<T>(o: Op<T>): seq<T> {
    if o.Back? then [o.value] else []
  }

  function Backs<T>(ops: seq<Op<T>>): seq<T> {
    if ops == [] then [] else BackOf(ops[0]) + Backs(ops[1..])
  }

  lemma {:induction false} NormalsJoin<T>(a: seq<Item<T>>, b: seq<Item<T>>)
    ensures Normals(a + b) == Normals(a) + Normals(b)
  {
    if a == [] {
      assert a + b == b;
    } else {
      NormalsJoin(a[1..], b);
      FrontOfSum(a, b);
      var first := if a[0].urgent then [] else [a[0].value];
      assert first + (Normals(a[1..]) + Normals(b)) == (first + Normals(a[1..])) + Normals(b);
    }
  }

  lemma {:induction false} ValuesJoin<T>(a: seq<Item<T>>, b: seq<Item<T>>)
    ensures Values(a + b) == Values(a) + Values(b)
  {
    if a == [] {
      assert a + b == b;
    } else {
      ValuesJoin(a[1..], b);
      FrontOfSum(a, b);
      assert [a[0].value] + (Values(a[1..]) + Values(b)) == ([a[0].value] + Values(a[1..])) + Values(b);
    }
  }

  lemma FrontOfSum<T>(a: seq<T>, b: seq<T>)
    requires a != []
    ensures a + b != [] && (a + b)[0] == a[0] && (a + b)[1..] == a[1..] + b
  {
  }

  /** Adding, seen from outside. */
  lemma AddedTo<T>(l: Lanes<T>, v: T)
    ensures Whole(Apply(l, Back(v))) == Whole(l) + [v] && TakenBy(l, Back(v)) == []
    ensures Whole(Apply(l, Front(v))) == [v] + Whole(l) && TakenBy(l, Front(v)) == []
  {
  }

  /** Taking, seen from outside. */
  lemma TakenFrom<T>(l: Lanes<T>, first: T, rest: seq<T>)
    requires Whole(l) == [first] + rest
    ensures Values(TakenBy(l, Pop)) == [first] && Whole(Apply(l, Pop)) == rest
  {
    assert Whole(l)[0] == first && Whole(l)[1..] == rest;
    assert TakenBy(l, Pop)[1..] == [];
  }

  lemma NothingMoves<T>(l: Lanes<T>)
    ensures Apply(l, Keep) == l && TakenBy(l, Keep) == []
  {
  }

  lemma StepInOrder<T>(l: Lanes<T>, o: Op<T>)
    ensures l.normal + BackOf(o) == Normals(TakenBy(l, o)) + Apply(l, o).normal
  {
    if l.urgent == [] && l.normal != [] {
      assert l.normal == [l.normal[0]] + l.normal[1..];
    }
  }

  /** Whatever goes to the front in between, the normal lane is first in, first out. */
  lemma {:induction false} InOrder<T>(l: Lanes<T>, ops: seq<Op<T>>)
    ensures l.normal + Backs(ops) == Normals(TakenByAll(l, ops)) + ApplyAll(l, ops).normal
    decreases |ops|
  {
    hide Apply, TakenBy, BackOf;
    if ops != [] {
      var o, t, rest := ops[0], Apply(l, ops[0]), ops[1..];
      StepInOrder(l, o);
      InOrder(t, rest);
      NormalsJoin(TakenBy(l, o), TakenByAll(t, rest));
      JoinMoves(l.normal, BackOf(o), Backs(rest), Normals(TakenBy(l, o)), t.normal, Normals(TakenByAll(t, rest)),
                ApplyAll(t, rest).normal);
    }
  }
}
