/**
 Numbers and their digits (kservice.c: divide, the digit loop of print_number,
 skip_atoi), on 32-bit words.
 */
module Numerals {
  import opened Arithmetic

  type Word32 = n: int | 0 <= n < 0x1_0000_0000

  /** A word as the `long` it is printed as. */
  function Signed(w: Word32): int {
    if w >= 0x8000_0000 then w - 0x1_0000_0000 else w
  }

  /** `divide` knows two bases: 10, and 16 for everything else. */
  function Base(base: nat): (b: nat)
    ensures b >= 10
  {
    if base == 10 then 10 else 16
  }

  function DigitChar(d: nat, large: bool): char
    requires d < 16
  {
    (if large then "0123456789ABCDEF" else "0123456789abcdef")[d]
  }

  predicate IsDigit(c: char) {
    '0' <= c <= '9'
  }

  /** The value of a decimal or hexadecimal digit; other characters have none. */
  function DigitValue(c: char): int {
    if IsDigit(c) then c as int - '0' as int
    else if 'a' <= c <= 'f' then c as int - 'a' as int + 10
    else if 'A' <= c <= 'F' then c as int - 'A' as int + 10
    else -1
  }

  lemma DigitCharValue(d: nat, large: bool)
    requires d < 16
    ensures DigitValue(DigitChar(d, large)) == d
    ensures d < 10 ==> IsDigit(DigitChar(d, large))
  {
  }

  /** The digits of n, most significant first; none for 0. */
  function HighFirst(n: nat, b: nat, large: bool): (s: seq<char>)
    requires 10 <= b <= 16
    ensures n > 0 ==> |s| > 0
    decreases n
  {
    if n == 0 then [] else HighFirst(n / b, b, large) + [DigitChar(n % b, large)]
  }

  function Numeral(n: nat, b: nat, large: bool): (s: seq<char>)
    requires 10 <= b <= 16
    ensures |s| > 0
  {
    if n == 0 then ['0'] else HighFirst(n, b, large)
  }

  /** The number that a sequence of digits denotes. */
  function Read(s: seq<char>, b: nat): int {
    if s == [] then 0 else Read(s[..|s| - 1], b) * b + DigitValue(s[|s| - 1])
  }

  predicate AllDigits(s: seq<char>, b: nat) {
    forall i :: 0 <= i < |s| ==> 0 <= DigitValue(s[i]) < b
  }

  lemma ReadAppend(t: seq<char>, c: char, b: nat)
    ensures Read(t + [c], b) == Read(t, b) * b + DigitValue(c)
  {
    assert (t + [c])[..|t + [c]| - 1] == t;
  }

  lemma {:induction false} HighFirstReads(n: nat, b: nat, large: bool)
    requires 10 <= b <= 16
    ensures Read(HighFirst(n, b, large), b) == n
    decreases n
  {
    hide Read, DigitChar, DigitValue;
    if n == 0 {
      ReadNothing(b);
    } else {
      HighFirstReads(n / b, b, large);
      DigitCharValue(n % b, large);
      ReadAppend(HighFirst(n / b, b, large), DigitChar(n % b, large), b);
      assert n == n / b * b + n % b;
    }
  }

  lemma ReadNothing(b: nat)
    ensures Read([], b) == 0
  {
  }

  lemma {:induction false} HighFirstDigits(n: nat, b: nat, large: bool)
    requires 10 <= b <= 16
    ensures AllDigits(HighFirst(n, b, large), b)
    ensures b == 10 ==> forall i :: 0 <= i < |HighFirst(n, b, large)| ==> IsDigit(HighFirst(n, b, large)[i])
    decreases n
  {
    hide DigitChar;
    if n > 0 {
      HighFirstDigits(n / b, b, large);
      DigitCharValue(n % b, large);
    }
  }

  /** The digits of every number read back to it. */
  lemma NumeralReads(n: nat, b: nat, large: bool)
    requires 10 <= b <= 16
    ensures Read(Numeral(n, b, large), b) == n && AllDigits(Numeral(n, b, large), b)
    ensures b == 10 ==> forall i :: 0 <= i < |Numeral(n, b, large)| ==> IsDigit(Numeral(n, b, large)[i])
  {
    HighFirstReads(n, b, large);
    HighFirstDigits(n, b, large);
    if n == 0 {
      assert ['0'][..0] == [];
      assert Read(['0'], b) == Read([], b) * b + DigitValue('0');
    }
  }

  /** Letters are small ones or large ones, as asked for. */
  predicate CaseFits(c: char, large: bool) {
    IsDigit(c) || (if large then 'A' <= c <= 'F' else 'a' <= c <= 'f')
  }

  lemma {:induction false} HighFirstCase(n: nat, b: nat, large: bool)
    requires 10 <= b <= 16
    ensures forall i :: 0 <= i < |HighFirst(n, b, large)| ==> CaseFits(HighFirst(n, b, large)[i], large)
    decreases n
  {
    if n > 0 {
      HighFirstCase(n / b, b, large);
      DigitCharCase(n % b, large);
    }
  }

  lemma DigitCharCase(d: nat, large: bool)
    requires d < 16
    ensures CaseFits(DigitChar(d, large), large) && (DigitChar(d, large) == '0' <==> d == 0)
  {
  }

  /** A positive number starts with a digit other than 0. */
  lemma {:induction false} NoLeadingZero(n: nat, b: nat, large: bool)
    requires 10 <= b <= 16 && n > 0
    ensures |HighFirst(n, b, large)| > 0 && HighFirst(n, b, large)[0] != '0'
    decreases n
  {
    hide DigitChar, HighFirst;
    HighFirstEnds(n, b, large);
    DigitCharCase(n % b, large);
    if n < b {
      SmallRemainder(n, b);
    } else {
      NoLeadingZero(n / b, b, large);
    }
  }

  lemma QuotientBelow(n: nat, b: nat)
    requires 10 <= b && n > 0
    ensures n / b >= 0 && n % b >= 0 && (n < b ==> n / b == 0) && (n >= b ==> 0 < n / b < n)
  {
    var q: nat, r: nat := n / b, n % b;
    assert n == q * b + r;
    ProductGrows(10, b, q);
    if q == 0 {
      assert q * b == 0;
    } else {
      ProductGrows(1, q, b);
    }
  }

  lemma HighFirstEnds(n: nat, b: nat, large: bool)
    requires 10 <= b <= 16 && n > 0
    ensures n / b >= 0 && 0 <= n % b < 16
    ensures HighFirst(n, b, large) == HighFirst(n / b, b, large) + [DigitChar(n % b, large)]
    ensures n < b ==> HighFirst(n / b, b, large) == []
    ensures n >= b ==> 0 < n / b < n
  {
    hide DigitChar;
    QuotientBelow(n, b);
  }

  /** Numerals have no superfluous zeros, and letters of one size only. */
  lemma NumeralShape(n: nat, b: nat, large: bool)
    requires 10 <= b <= 16
    ensures var s := Numeral(n, b, large);
      (s[0] == '0' <==> n == 0) && (n == 0 ==> s == ['0']) && forall i :: 0 <= i < |s| ==> CaseFits(s[i], large)
  {
    if n > 0 {
      NoLeadingZero(n, b, large);
    }
    HighFirstCase(n, b, large);
  }

  /** Leading zeros do not change a number. */
  lemma {:induction false} ReadZeros(z: seq<char>, s: seq<char>, b: nat)
    requires forall i :: 0 <= i < |z| ==> z[i] == '0'
    ensures Read(z + s, b) == Read(s, b)
    decreases |z| + |s|
  {
    if s == [] {
      if z == [] {
        assert z + s == [];
      } else {
        var y := z[..|z| - 1];
        assert z + s == z;
        assert y + s == y;
        ReadZeros(y, s, b);
        assert z[|z| - 1] == '0';
        assert Read(z, b) == Read(y, b) * b + 0;
      }
    } else {
      assert (z + s)[..|z + s| - 1] == z + s[..|s| - 1];
      ReadZeros(z, s[..|s| - 1], b);
    }
  }

  // ---- Room for the digits ----

  function Power10(k: nat): nat {
    if k == 0 then 1 else 10 * Power10(k - 1)
  }

  lemma Shorter(n: nat, b: nat, k: nat)
    requires 10 <= b && 0 < n < Power10(k)
    ensures k > 0 && n / b < Power10(k - 1)
  {
    var p := Power10(k - 1);
    var q: nat := n / b;
    assert n == q * b + n % b;
    ProductGrows(10, b, q);
    assert 10 * q <= n < 10 * p;
  }

  lemma {:induction false} FewDigits(n: nat, b: nat, large: bool, k: nat)
    requires 10 <= b <= 16 && n < Power10(k)
    ensures |HighFirst(n, b, large)| <= k
  {
    if n > 0 {
      Shorter(n, b, k);
      FewDigits(n / b, b, large, k - 1);
    }
  }

  /** A 32-bit word has at most ten digits, so `tmp` is large enough. */
  lemma WordDigits(w: Word32, b: nat, large: bool)
    requires 10 <= b <= 16
    ensures |Numeral(w, b, large)| <= 10
  {
    assert Power10(5) == 100000;
    assert Power10(10) == 10 * (10 * (10 * (10 * (10 * Power10(5)))));
    FewDigits(w, b, large, 10);
  }

  /** A sequence read backwards. */
  function Backwards(s: seq<char>): (r: seq<char>)
    ensures |r| == |s|
  {
    if s == [] then [] else [s[|s| - 1]] + Backwards(s[..|s| - 1])
  }

  /** divide: the last digit is returned and taken off. */
  method Divide(n: Word32, base: nat) returns (res: nat, n': Word32)
    ensures res == n % Base(base) && n' == n / Base(base)
  {
    if base == 10 {
      res, n' := n % 10, n / 10;
    } else {
      res, n' := n % 16, n / 16;
    }
  }

  lemma BackwardsAppend(t: seq<char>, c: char)
    ensures Backwards(t + [c]) == [c] + Backwards(t)
  {
    assert (t + [c])[..|t + [c]| - 1] == t;
  }

  lemma Regroup(h: seq<char>, c: char, b: seq<char>)
    ensures h + ([c] + b) == (h + [c]) + b
  {
  }

  /** One more digit in `tmp` is one digit less to come. */
  lemma DigitMoved(n: nat, b: nat, large: bool, t: seq<char>)
    requires 10 <= b <= 16 && n > 0
    ensures HighFirst(n / b, b, large) + Backwards(t + [DigitChar(n % b, large)])
      == HighFirst(n, b, large) + Backwards(t)
    ensures |HighFirst(n, b, large)| > 0
  {
    hide Backwards, DigitChar;
    BackwardsAppend(t, DigitChar(n % b, large));
    Regroup(HighFirst(n / b, b, large), DigitChar(n % b, large), Backwards(t));
  }

  lemma NoDigits(b: nat, large: bool)
    requires 10 <= b <= 16
    ensures HighFirst(0, b, large) == [] && Backwards([]) == [] && Backwards(['0']) == ['0']
  {
    assert ['0'][..0] == [];
  }

  /** The digit loop of print_number: the digits come out last one first. */
  method DigitLoop(num: Word32, base: nat, large: bool) returns (tmp: array<char>, i: nat)
    ensures fresh(tmp) && tmp.Length == 16 && i <= 10
    ensures Backwards(tmp[..i]) == Numeral(num, Base(base), large)
  {
    hide HighFirst, Backwards;
    tmp := new char[16];
    i := 0;
    var n := num;
    ghost var b := Base(base);
    WordDigits(num, b, large);
    NoDigits(b, large);
    if n == 0 {
      tmp[0] := '0';
      i := 1;
      assert tmp[..1] == ['0'];
    } else {
      assert tmp[..0] == [];
      while n != 0
        invariant i <= 10
        invariant HighFirst(n, b, large) + Backwards(tmp[..i]) == HighFirst(num, b, large)
        decreases n
      {
        DigitMoved(n, b, large, tmp[..i]);
        ghost var before := tmp[..i];
        var d, n' := Divide(n, base);
        tmp[i] := DigitChar(d, large);
        n, i := n', i + 1;
        assert tmp[..i] == before + [DigitChar(d, large)];
      }
    }
  }

  // ---- skip_atoi ----

  /** How many digits the text starts with. */
  function DigitRun(s: seq<char>): (k: nat)
    ensures k <= |s| && forall i :: 0 <= i < k ==> IsDigit(s[i])
    ensures k < |s| ==> !IsDigit(s[k])
  {
    if s == [] || !IsDigit(s[0]) then 0 else 1 + DigitRun(s[1..])
  }

  lemma DigitRunIs(s: seq<char>, k: nat)
    requires k <= |s| && (forall i :: 0 <= i < k ==> IsDigit(s[i])) && (k < |s| ==> !IsDigit(s[k]))
    ensures DigitRun(s) == k
  {
  }

  /** skip_atoi: reads the decimal number at the start and moves behind it. */
  method SkipAtoi(s: seq<char>) returns (i: int, rest: seq<char>)
    ensures i == Read(s[..DigitRun(s)], 10) && rest == s[DigitRun(s)..]
  {
    i, rest := 0, s;
    ghost var k := 0;
    while rest != [] && IsDigit(rest[0])
      invariant k <= |s| && rest == s[k..]
      invariant forall j :: 0 <= j < k ==> IsDigit(s[j])
      invariant i == Read(s[..k], 10)
      decreases |rest|
    {
      assert s[..k + 1][..k] == s[..k] && s[..k + 1][k] == s[k] == rest[0];
      i := i * 10 + (rest[0] as int - '0' as int);
      rest := rest[1..];
      k := k + 1;
    }
    DigitRunIs(s, k);
  }

  /**
   skip_atoi undoes unpadded decimal printing; up to 2^31 - 1 no intermediate
   value exceeds the number itself, so the int it computes in does not overflow.
   */
  lemma AtoiUndoesPrinting(n: nat, rest: seq<char>)
    requires rest == [] || !IsDigit(rest[0])
    ensures var s := Numeral(n, 10, false) + rest;
      DigitRun(s) == |Numeral(n, 10, false)| && Read(s[..DigitRun(s)], 10) == n && s[DigitRun(s)..] == rest
    ensures forall k :: 0 <= k <= |Numeral(n, 10, false)| ==> Read(Numeral(n, 10, false)[..k], 10) <= n
  {
    var d := Numeral(n, 10, false);
    NumeralReads(n, 10, false);
    DigitRunIs(d + rest, |d|);
    assert (d + rest)[..|d|] == d;
    forall k | 0 <= k <= |d|
      ensures Read(d[..k], 10) <= n
    {
      assert d[..|d|] == d;
      PrefixSmaller(d, k);
    }
  }

  lemma {:induction false} PrefixSmaller(d: seq<char>, k: nat)
    requires AllDigits(d, 10) && k <= |d|
    ensures 0 <= Read(d[..k], 10) <= Read(d, 10)
    decreases |d|
  {
    if k == |d| {
      assert d[..k] == d;
      if d != [] {
        PrefixSmaller(d[..|d| - 1], |d| - 1);
        assert d[..|d| - 1][..|d| - 1] == d[..|d| - 1];
      }
    } else {
      PrefixSmaller(d[..|d| - 1], k);
      assert d[..|d| - 1][..k] == d[..k];
    }
  }
}
