/**
 Bytes, addresses, minimum and maximum, and facts about quotients and remainders that
 the solver does not find by itself.
 */
module Arithmetic {

  type byte = n: int | 0 <= n < 256

  /** How many addresses, and values of a word, there are. */
  const ADDRESSES: nat := 0x1_0000_0000

  function Min(a: nat, b: nat): nat {
    if a < b then a else b
  }

  function Max(a: int, b: int): int {
    if a < b then b else a
  }

  lemma ProductGrows(a: nat, b: nat, d: nat)
    requires a <= b
    ensures a * d <= b * d
  {
  }

  lemma RemainderIs(x: nat, d: nat, q: nat, r: nat)
    requires d > 0 && r < d && x == q * d + r
    ensures x % d == r && x / d == q
  {
    var q': nat, r': nat := x / d, x % d;
    assert x == q' * d + r';
    if q + 1 <= q' {
      ProductGrows(q + 1, q', d);
      assert false;
    } else if q' + 1 <= q {
      ProductGrows(q' + 1, q, d);
      assert false;
    }
  }

  lemma SmallRemainder(x: nat, p: nat)
    requires x < p
    ensures x % p == x
  {
  }

  /** Different numbers with the same remainder are at least the divisor apart. */
  lemma SameRemainder(a: nat, b: nat, d: nat)
    requires d > 0 && a < b && a % d == b % d
    ensures a + d <= b
  {
    var p: nat, q: nat := a / d, b / d;
    assert a == p * d + a % d && b == q * d + b % d;
    if q <= p {
      ProductGrows(q, p, d);
    } else {
      ProductGrows(p + 1, q, d);
    }
  }

  /** As many pieces as fit, or as are left of their number modulo m, do fit. */
  lemma QuotientFits(p: nat, d: nat, m: nat)
    requires d > 0 && m > 0
    ensures p / d % m * d <= p
  {
    var q: nat := p / d;
    assert p == q * d + p % d;
    RemainderBelow(q, m);
    ProductGrows(q % m, q, d);
  }

  lemma RemainderBelow(q: nat, m: nat)
    requires m > 0
    ensures 0 <= q % m <= q
  {
  }
}
