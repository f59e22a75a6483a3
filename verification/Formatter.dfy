/**
 The bounded formatter (kservice.c: print_number, rt_vsnprintf), built with
 RT_PRINTF_PRECISION and without RT_PRINTF_LONGLONG and RT_PRINTF_SPECIAL.
 */
module Formatter {
  import opened Numerals
  import opened Arithmetic

  datatype Flags = Flags(zeropad: bool, sign: bool, plus: bool, space: bool, left: bool, special: bool, large: bool)

  const NOFLAGS: Flags := Flags(false, false, false, false, false, false, false)

  // ---- What a number is printed as ----

  /** n copies of c, none if n is not positive. */
  function Repeat(c: char, n: int): (s: seq<char>)
    ensures |s| == if n > 0 then n else 0
    ensures forall i :: 0 <= i < |s| ==> s[i] == c
  {
    if n <= 0 then [] else seq(n, i => c)
  }

  /** The sign character, if any. */
  function SignText(num: Word32, f: Flags): seq<char> {
    if !f.sign then []
    else if Signed(num) < 0 then ['-']
    else if f.plus then ['+']
    else if f.space then [' ']
    else []
  }

  /** The absolute value as an unsigned word; negating the most negative number leaves the right bits. */
  function Magnitude(num: Word32, f: Flags): Word32 {
    if f.sign && Signed(num) < 0 then 0x1_0000_0000 - num else num
  }

  /** What stands before the digits: blanks and the sign, or the sign and zeros. */
  function Front(sign: seq<char>, zeropad: bool, left: bool, room: int): seq<char> {
    (if !left && !zeropad then Repeat(' ', room) else []) + sign + (if !left && zeropad then Repeat('0', room) else [])
  }

  /** The characters print_number produces for the whole field. */
  function NumberText(num: Word32, base: nat, width: int, precision: int, f: Flags): seq<char> {
    var digits, sign := Numeral(Magnitude(num, f), Base(base), f.large), SignText(num, f);
    var least := Max(precision, |digits|);
    var room := width - least - |sign|;
    Front(sign, f.zeropad, f.left, room)
    + Repeat('0', least - |digits|)
    + (if precision != 0 then digits else [])
    + (if f.left then Repeat(' ', room) else [])
  }

  // ---- Reading a printed number ----

  function SkipSpaces(s: seq<char>): seq<char> {
    if s != [] && s[0] == ' ' then SkipSpaces(s[1..]) else s
  }

  /** The digits of base b that s starts with. */
  function Leading(s: seq<char>, b: nat): seq<char> {
    if s != [] && 0 <= DigitValue(s[0]) < b then [s[0]] + Leading(s[1..], b) else []
  }

  /** Blanks, a sign, digits: the number a reader makes of it. */
  function Parse(s: seq<char>, b: nat): int {
    var t := SkipSpaces(s);
    if t != [] && t[0] == '-' then -Read(Leading(t[1..], b), b)
    else if t != [] && t[0] == '+' then Read(Leading(t[1..], b), b)
    else Read(Leading(t, b), b)
  }

  lemma {:induction false} SkipsBlanks(a: seq<char>, t: seq<char>)
    requires (forall i :: 0 <= i < |a| ==> a[i] == ' ') && t != [] && t[0] != ' '
    ensures SkipSpaces(a + t) == t
  {
    if a == [] {
      assert a + t == t;
    } else {
      assert (a + t)[0] == ' ' && (a + t)[1..] == a[1..] + t;
      SkipsBlanks(a[1..], t);
    }
  }

  lemma {:induction false} LeadingAll(d: seq<char>, tail: seq<char>, b: nat)
    requires AllDigits(d, b) && (tail == [] || tail[0] == ' ')
    ensures Leading(d + tail, b) == d
  {
    if d == [] {
      assert d + tail == tail;
      assert tail != [] ==> DigitValue(tail[0]) == -1;
    } else {
      assert (d + tail)[0] == d[0] && (d + tail)[1..] == d[1..] + tail;
      LeadingAll(d[1..], tail, b);
      assert [d[0]] + d[1..] == d;
    }
  }

  lemma DigitsAreNoSigns(c: char)
    requires DigitValue(c) >= 0
    ensures c != ' ' && c != '-' && c != '+'
  {
  }

  /** Whatever stands before, the reader starts at the first digit and minds the sign. */
  lemma ParseFrom(a: seq<char>, sign: seq<char>, x: seq<char>, b: nat)
    requires forall i :: 0 <= i < |a| ==> a[i] == ' '
    requires sign == [] || sign == ['-'] || sign == ['+'] || sign == [' ']
    requires x != [] && DigitValue(x[0]) >= 0
    ensures Parse(a + sign + x, b) == if sign == ['-'] then -Read(Leading(x, b), b) else Read(Leading(x, b), b)
  {
    hide Leading, Read;
    DigitsAreNoSigns(x[0]);
    if sign == [] || sign == [' '] {
      var blanks := a + sign;
      assert forall i :: 0 <= i < |blanks| ==> blanks[i] == ' ';
      SkipsBlanks(blanks, x);
    } else {
      assert a + sign + x == a + (sign + x);
      SkipsBlanks(a, sign + x);
      assert (sign + x)[1..] == x;
    }
  }

  /** Whatever the padding, the reader finds the digits and the sign. */
  lemma ParseShape(a: seq<char>, sign: seq<char>, d: seq<char>, tail: seq<char>, b: nat)
    requires (forall i :: 0 <= i < |a| ==> a[i] == ' ') && (tail == [] || tail[0] == ' ')
    requires sign == [] || sign == ['-'] || sign == ['+'] || sign == [' ']
    requires AllDigits(d, b) && d != []
    ensures Parse(a + sign + (d + tail), b) == if sign == ['-'] then -Read(d, b) else Read(d, b)
  {
    assert 0 <= DigitValue(d[0]) < b;
    LeadingAll(d, tail, b);
    ParseFrom(a, sign, d + tail, b);
  }

  lemma ZerosAndDigits(z: seq<char>, n: nat, b: nat, large: bool)
    requires 10 <= b <= 16 && forall i :: 0 <= i < |z| ==> z[i] == '0'
    ensures var d := z + Numeral(n, b, large);
      AllDigits(d, b) && d != [] && Read(d, b) == n
  {
    NumeralReads(n, b, large);
    ReadZeros(z, Numeral(n, b, large), b);
  }

  /**
   For every 32-bit word, the most negative number included, and every width, precision
   other than 0 and flags, the printed field reads back to the number printed.
   */
  lemma PrintedReadsBack(num: Word32, base: nat, width: int, precision: int, f: Flags)
    requires precision != 0
    ensures Parse(NumberText(num, base, width, precision, f), Base(base)) == if f.sign then Signed(num) else num
  {
    hide Parse, Numeral, Read, AllDigits, Repeat, SignText, Magnitude;
    SignCases(num, f);
    var b, m := Base(base), Magnitude(num, f);
    var digits, sign := Numeral(m, b, f.large), SignText(num, f);
    var least := Max(precision, |digits|);
    var room := width - least - |sign|;
    var a := if !f.left && !f.zeropad then Repeat(' ', room) else [];
    var z := (if !f.left && f.zeropad then Repeat('0', room) else []) + Repeat('0', least - |digits|);
    var tail := if f.left then Repeat(' ', room) else [];
    RepeatOf(' ', room);
    RepeatOf('0', room);
    RepeatOf('0', least - |digits|);
    ZerosAndDigits(z, m, b, f.large);
    ParseShape(a, sign, z + digits, tail, b);
    Flatten(a, sign, if !f.left && f.zeropad then Repeat('0', room) else [], Repeat('0', least - |digits|), digits,
            tail);
  }

  lemma Flatten(a: seq<char>, s: seq<char>, y: seq<char>, z: seq<char>, d: seq<char>, t: seq<char>)
    ensures a + s + y + z + d + t == a + s + ((y + z) + d + t)
  {
  }

  /** Sign and magnitude together are the number. */
  lemma SignCases(num: Word32, f: Flags)
    ensures SignText(num, f) == [] || exists c :: SignText(num, f) == [c] && (c == '-' || c == '+' || c == ' ')
    ensures var m: int := Magnitude(num, f);
      (if SignText(num, f) == ['-'] then -m else m) == if f.sign then Signed(num) else num
  {
  }

  lemma RepeatOf(c: char, n: int)
    ensures |Repeat(c, n)| == (if n > 0 then n else 0) && forall i :: 0 <= i < |Repeat(c, n)| ==> Repeat(c, n)[i] == c
  {
  }

  /** The field is as wide as asked for, or as the sign and the digits need. */
  lemma FieldWidth(num: Word32, base: nat, width: int, precision: int, f: Flags)
    requires precision != 0
    ensures |NumberText(num, base, width, precision, f)|
      == Max(width, |SignText(num, f)| + Max(precision, |Numeral(Magnitude(num, f), Base(base), f.large)|))
  {
  }

  // ---- Where a printed number does not read back ----

  lemma {:induction false} OnlyBlanks(a: seq<char>)
    requires forall i :: 0 <= i < |a| ==> a[i] == ' '
    ensures SkipSpaces(a) == []
  {
    if a != [] {
      OnlyBlanks(a[1..]);
    }
  }

  /** Without digits of its own a field reads as 0. */
  lemma ParseNothing(a: seq<char>, sign: seq<char>, z: seq<char>, tail: seq<char>, b: nat)
    requires (forall i :: 0 <= i < |a| ==> a[i] == ' ') && (forall i :: 0 <= i < |tail| ==> tail[i] == ' ')
    requires sign == [] || sign == ['-'] || sign == ['+'] || sign == [' ']
    requires b > 0 && forall i :: 0 <= i < |z| ==> z[i] == '0'
    ensures Parse(a + sign + (z + tail), b) == 0
  {
    if z != [] {
      ParseShape(a, sign, z, tail, b);
      ReadZeros(z, [], b);
      assert z + [] == z;
    } else if sign == [] || sign == [' '] {
      assert z + tail == tail;
      OnlyBlanks(a + sign + tail);
    } else {
      assert a + sign + (z + tail) == a + (sign + tail);
      SkipsBlanks(a, sign + tail);
      assert (sign + tail)[1..] == tail;
      assert tail != [] ==> DigitValue(tail[0]) == -1;
    }
  }

  /** With precision 0 the digits are left out and every field reads as 0. */
  lemma PrecisionZeroReadsZero(num: Word32, base: nat, width: int, f: Flags, b: nat)
    requires b > 0
    ensures Parse(NumberText(num, base, width, 0, f), b) == 0
  {
    hide Parse, Numeral, Repeat, SignText, Magnitude;
    SignCases(num, f);
    var digits, sign := Numeral(Magnitude(num, f), Base(base), f.large), SignText(num, f);
    var room := width - |digits| - |sign|;
    var a := if !f.left && !f.zeropad then Repeat(' ', room) else [];
    var z := if !f.left && f.zeropad then Repeat('0', room) else [];
    var tail := if f.left then Repeat(' ', room) else [];
    RepeatOf(' ', room);
    RepeatOf('0', room);
    RepeatOf('0', 0);
    ParseNothing(a, sign, z, tail, b);
    assert NumberText(num, base, width, 0, f) == a + sign + z + [] + [] + tail;
    Flatten(a, sign, z, [], [], tail);
    assert z + [] + [] + tail == z + tail;
  }

  /** A printed field reads back exactly if the precision is not 0 or the number is 0. */
  lemma ReadsBackIff(num: Word32, base: nat, width: int, precision: int, f: Flags)
    ensures Parse(NumberText(num, base, width, precision, f), Base(base)) == (if f.sign then Signed(num) else num)
      <==> precision != 0 || num == 0
  {
    if precision != 0 {
      PrintedReadsBack(num, base, width, precision, f);
    } else {
      PrecisionZeroReadsZero(num, base, width, f, Base(base));
    }
  }

  /** Reading stops at the first character that is no digit of the base. */
  lemma {:induction false} LeadingAppend(s: seq<char>, c: char, b: nat)
    ensures Leading(s + [c], b) == if Leading(s, b) == s && 0 <= DigitValue(c) < b then s + [c] else Leading(s, b)
    ensures |Leading(s, b)| <= |s|
  {
    if s == [] {
      assert s + [c] == [c] && [c][1..] == [];
      assert Leading([c], b) == if 0 <= DigitValue(c) < b then [c] + Leading([], b) else [];
    } else {
      assert (s + [c])[0] == s[0] && (s + [c])[1..] == s[1..] + [c];
      LeadingAppend(s[1..], c, b);
      assert s == [s[0]] + s[1..];
      LeadingFirst(s, c, b);
    }
  }

  lemma LeadingFirst(s: seq<char>, c: char, b: nat)
    requires s != []
    ensures Leading(s, b) == s <==> 0 <= DigitValue(s[0]) < b && Leading(s[1..], b) == s[1..]
    ensures [s[0]] + (s[1..] + [c]) == s + [c]
  {
    var t := Leading(s[1..], b);
    if Leading(s, b) == s {
      assert ([s[0]] + t)[1..] == t;
    } else if t == s[1..] {
      assert [s[0]] + s[1..] == s;
    }
  }

  /** Hexadecimal digits read as octal ones give a smaller number, unless there is only one below 8. */
  lemma {:induction false} HexReadAsOctal(n: nat, large: bool)
    ensures var v := Read(Leading(HighFirst(n, 16, large), 8), 8);
      0 <= v <= n && (n < 8 <==> v == n)
    decreases n
  {
    hide Leading, Read, DigitChar;
    if n == 0 {
      NothingRead(8);
    } else {
      var s, d := HighFirst(n / 16, 16, large), n % 16;
      HexReadAsOctal(n / 16, large);
      DigitCharValue(d, large);
      LeadingAppend(s, DigitChar(d, large), 8);
      ReadAppend(s, DigitChar(d, large), 8);
      if n < 16 {
        NothingRead(8);
      }
    }
  }

  lemma NothingRead(b: nat)
    ensures Leading([], b) == [] && Read([], b) == 0
  {
  }

  lemma {:induction false} LeadingZeros(z: seq<char>, x: seq<char>, b: nat)
    requires b > 0 && forall i :: 0 <= i < |z| ==> z[i] == '0'
    ensures Leading(z + x, b) == z + Leading(x, b)
  {
    if z == [] {
      assert z + x == x && z + Leading(x, b) == Leading(x, b);
    } else {
      assert (z + x)[0] == '0' && (z + x)[1..] == z[1..] + x;
      LeadingZeros(z[1..], x, b);
      assert z + Leading(x, b) == ['0'] + (z[1..] + Leading(x, b));
    }
  }

  lemma {:induction false} LeadingTail(s: seq<char>, tail: seq<char>, b: nat)
    requires tail == [] || tail[0] == ' '
    ensures Leading(s + tail, b) == Leading(s, b)
  {
    if s == [] {
      assert s + tail == tail;
      assert tail != [] ==> DigitValue(tail[0]) == -1;
    } else {
      assert (s + tail)[0] == s[0] && (s + tail)[1..] == s[1..] + tail;
      LeadingTail(s[1..], tail, b);
    }
  }

  /** The digits with their zeros and blanks, read in base 8. */
  lemma OctalDigits(z: seq<char>, n: nat, large: bool, tail: seq<char>)
    requires (tail == [] || tail[0] == ' ') && forall i :: 0 <= i < |z| ==> z[i] == '0'
    ensures var x, v := z + Numeral(n, 16, large) + tail, Read(Leading(z + Numeral(n, 16, large) + tail, 8), 8);
      x != [] && DigitValue(x[0]) >= 0 && 0 <= v <= n && (n < 8 <==> v == n)
  {
    hide Leading, Read;
    var d := Numeral(n, 16, large);
    NumeralReads(n, 16, large);
    LeadingTail(z + d, tail, 8);
    LeadingZeros(z, d, 8);
    ReadZeros(z, Leading(d, 8), 8);
    assert 0 <= DigitValue(d[0]);
    HexReadAsOctal(n, large);
    if n == 0 {
      LeadingZeros(['0'], [], 8);
      assert ['0'] + [] == ['0'];
      NothingRead(8);
      ReadZeros(['0'], [], 8);
    }
  }

  lemma OctalReads(num: Word32, width: int, precision: int, f: Flags)
    requires precision != 0
    ensures Parse(NumberText(num, 8, width, precision, f), 8) == (if f.sign then Signed(num) else num)
      <==> Magnitude(num, f) < 8
  {
    hide Parse, Numeral, Read, Leading, Repeat, SignText, Magnitude, DigitValue;
    SignCases(num, f);
    var m := Magnitude(num, f);
    var digits, sign := Numeral(m, 16, f.large), SignText(num, f);
    var least := Max(precision, |digits|);
    var room := width - least - |sign|;
    var a := if !f.left && !f.zeropad then Repeat(' ', room) else [];
    var z := (if !f.left && f.zeropad then Repeat('0', room) else []) + Repeat('0', least - |digits|);
    var tail := if f.left then Repeat(' ', room) else [];
    RepeatOf(' ', room);
    RepeatOf('0', room);
    RepeatOf('0', least - |digits|);
    OctalDigits(z, m, f.large, tail);
    var x := z + digits + tail;
    ParseFrom(a, sign, x, 8);
    Flatten(a, sign, if !f.left && f.zeropad then Repeat('0', room) else [], Repeat('0', least - |digits|), digits,
            tail);
  }

  /**
   %o prints hexadecimal digits: read in base 8 they give the number exactly if its magnitude
   is below 8, or with precision 0 if it is 0.
   */
  lemma OctalReadsBackIff(num: Word32, width: int, precision: int, f: Flags)
    ensures Parse(NumberText(num, 8, width, precision, f), 8) == (if f.sign then Signed(num) else num)
      <==> if precision != 0 then Magnitude(num, f) < 8 else num == 0
  {
    if precision != 0 {
      OctalReads(num, width, precision, f);
    } else {
      PrecisionZeroReadsZero(num, 8, width, f, 8);
    }
  }

  // ---- The bounded buffer ----

  /** The buffer after `text` has been put at position `at`: only what lies below `end` arrives. */
  function After(b: seq<char>, end: nat, at: nat, text: seq<char>): (r: seq<char>)
    ensures |r| == |b|
    ensures forall i :: 0 <= i < |b| ==> r[i] == if at <= i < at + |text| && i < end then text[i - at] else b[i]
  {
    seq(|b|, i requires 0 <= i < |b| => if at <= i < at + |text| && i < end then text[i - at] else b[i])
  }

  lemma AfterTwice(b: seq<char>, end: nat, at: nat, t: seq<char>, u: seq<char>)
    ensures After(After(b, end, at, t), end, at + |t|, u) == After(b, end, at, t + u)
  {
  }

  lemma AfterNothing(b: seq<char>, end: nat, at: nat)
    ensures After(b, end, at, []) == b
  {
  }

  /** Write one character if it lies below the end, and count it in any case. */
  method Put(buf: array<char>, end: nat, str: nat, c: char) returns (str': nat)
    requires end <= buf.Length
    modifies buf
    ensures buf[..] == After(old(buf[..]), end, str, [c]) && str' == str + 1
  {
    if str < end {
      buf[str] := c;
    }
    str' := str + 1;
  }

  /** As many copies of a character as `size` says; afterwards `size` is negative. */
  method PutRepeated(buf: array<char>, end: nat, str: nat, c: char, size: int) returns (str': nat, size': int)
    requires end <= buf.Length
    modifies buf
    ensures buf[..] == After(old(buf[..]), end, str, Repeat(c, size)) && str' == str + |Repeat(c, size)|
    ensures size' < 0 && size' == size - |Repeat(c, size)| - 1
  {
    str', size' := str, size;
    ghost var b := buf[..];
    AfterNothing(b, end, str);
    while size' > 0
      invariant size' == size - (str' - str) && str <= str' && (size' >= 0 || str' == str)
      invariant buf[..] == After(b, end, str, Repeat(c, str' - str))
    {
      AfterTwice(b, end, str, Repeat(c, str' - str), [c]);
      assert Repeat(c, str' - str) + [c] == Repeat(c, str' - str + 1);
      str' := Put(buf, end, str', c);
      size' := size' - 1;
    }
    size' := size' - 1;
  }

  /** The sign character of print_number, 0 for none, and the number without its sign. */
  method GetSign(num: Word32, type': Flags) returns (sign: char, n: Word32)
    ensures n == Magnitude(num, type') && SignText(num, type') == if sign == '\0' then [] else [sign]
  {
    sign, n := '\0', num;
    if type'.sign {
      if Signed(num) < 0 {
        sign := '-';
        n := 0x1_0000_0000 - num;
      } else if type'.plus {
        sign := '+';
      } else if type'.space {
        sign := ' ';
      }
    }
  }

  /** Put the digits of the temporary buffer, the last one first. */
  method PutDigits(buf: array<char>, end: nat, str: nat, tmp: array<char>, n: nat) returns (str': nat)
    requires end <= buf.Length && n <= tmp.Length && tmp != buf
    modifies buf
    ensures buf[..] == After(old(buf[..]), end, str, Backwards(tmp[..n])) && str' == str + n
  {
    hide After, Backwards;
    ghost var b, out: seq<char> := buf[..], [];
    AfterNothing(b, end, str);
    var i := n;
    str' := str;
    NothingBackwards();
    assert tmp[..n] == tmp[..i];
    while i > 0
      invariant i <= n && str' == str + |out| && |out| == n - i
      invariant buf[..] == After(b, end, str, out)
      invariant out + Backwards(tmp[..i]) == Backwards(tmp[..n])
    {
      i := i - 1;
      BackwardsAppend(tmp[..i], tmp[i]);
      assert tmp[..i] + [tmp[i]] == tmp[..i + 1];
      AfterTwice(b, end, str, out, [tmp[i]]);
      Regroup(out, tmp[i], Backwards(tmp[..i]));
      str' := Put(buf, end, str', tmp[i]);
      out := out + [tmp[i]];
    }
    assert tmp[..0] == [];
    assert out + [] == out;
  }

  /** The digits, unless they are suppressed. */
  method PutShown(buf: array<char>, end: nat, str: nat, tmp: array<char>, n: nat, shown: bool) returns (str': nat)
    requires end <= buf.Length && n <= tmp.Length && tmp != buf
    modifies buf
    ensures buf[..] == After(old(buf[..]), end, str, if shown then Backwards(tmp[..n]) else [])
    ensures str' == str + if shown then n else 0
  {
    hide After, Backwards;
    str' := str;
    if shown {
      str' := PutDigits(buf, end, str, tmp, n);
    } else {
      AfterNothing(buf[..], end, str);
    }
  }

  lemma NothingBackwards()
    ensures Backwards([]) == []
  {
  }

  lemma NoneRepeated(c: char, n: int)
    ensures n <= 0 ==> Repeat(c, n) == []
  {
  }

  lemma FieldParts(num: Word32, base: nat, width: int, precision: int, f: Flags)
    ensures var digits, sign := Numeral(Magnitude(num, f), Base(base), f.large), SignText(num, f);
      var least := if |digits| > precision then |digits| else precision;
      var room := width - least - |sign|;
      NumberText(num, base, width, precision, f)
        == Front(sign, f.zeropad, f.left, room) + Repeat('0', least - |digits|)
           + (if precision != 0 then digits else []) + (if f.left then Repeat(' ', room) else [])
  {
  }

  lemma RestParts(front: seq<char>, zeros: int, digits: seq<char>, size: int)
    ensures front + Rest3(zeros, digits, size) == front + Repeat('0', zeros) + digits + Repeat(' ', size)
    ensures size < 0 ==> Repeat(' ', size) == []
  {
  }

  lemma SameFront(sign: seq<char>, zeropad: bool, left: bool, room: int)
    ensures Front(sign, zeropad && !left, left, room) == Front(sign, zeropad, left, room)
  {
  }

  /** Everything up to the digits; `c` pads, and `size` is what remains of the width. */
  method PutFront(buf: array<char>, end: nat, str: nat, sign: char, zeropad: bool, left: bool, c: char, size: int,
                  ghost signText: seq<char>)
    returns (str': nat, size': int)
    requires end <= buf.Length && signText == (if sign == '\0' then [] else [sign])
    requires c == (if zeropad then '0' else ' ') && !(zeropad && left)
    modifies buf
    ensures buf[..] == After(old(buf[..]), end, str, Front(signText, zeropad, left, size - |signText|))
    ensures str' == str + |Front(signText, zeropad, left, size - |signText|)|
    ensures if left then size' == size - |signText| else size' < 0
  {
    hide After, Repeat;
    ghost var b, room := buf[..], size - |signText|;
    AfterNothing(b, end, str);
    str', size' := str, size;
    ghost var blanks: seq<char>, zeros: seq<char> := [], [];
    if !(zeropad || left) {
      if sign != '\0' && size' > 0 {
        size' := size' - 1;
      }
      NoneRepeated(' ', size');
      NoneRepeated(' ', room);
      str', size' := PutRepeated(buf, end, str', ' ', size');
      blanks := Repeat(' ', room);
    }
    AfterTwice(b, end, str, blanks, signText);
    if sign != '\0' {
      str' := Put(buf, end, str', sign);
      size' := size' - 1;
    } else {
      AfterNothing(buf[..], end, str');
    }
    NoneRepeated(c, size');
    if !left {
      AfterTwice(b, end, str, blanks + signText, Repeat(c, size'));
      zeros := Repeat(c, size');
      str', size' := PutRepeated(buf, end, str', c, size');
    }
    assert blanks + signText + zeros == Front(signText, zeropad, left, room);
  }

  /** Zeros up to the precision, the digits, and blanks up to the width. */
  method PutRest(buf: array<char>, end: nat, str: nat, tmp: array<char>, n: nat, zeros: int, shown: bool,
                 size: int) returns (str': nat)
    requires end <= buf.Length && n <= tmp.Length && tmp != buf
    modifies buf
    ensures buf[..] == After(old(buf[..]), end, str, Rest3(zeros, if shown then Backwards(tmp[..n]) else [], size))
    ensures str' == str + |Rest3(zeros, if shown then Backwards(tmp[..n]) else [], size)|
  {
    hide After, Repeat, Backwards;
    ghost var b, z, d := buf[..], Repeat('0', zeros), if shown then Backwards(tmp[..n]) else [];
    var rest;
    str', rest := PutRepeated(buf, end, str, '0', zeros);
    AfterTwice(b, end, str, z, d);
    str' := PutShown(buf, end, str', tmp, n, shown);
    AfterTwice(b, end, str, z + d, Repeat(' ', size));
    str', rest := PutRepeated(buf, end, str', ' ', size);
  }

  function Rest3(zeros: int, digits: seq<char>, size: int): seq<char> {
    Repeat('0', zeros) + digits + Repeat(' ', size)
  }

  /** The field as print_number puts it: `size` is what the width leaves behind the digits. */
  lemma FrontAndRest(num: Word32, base: nat, width: int, precision: int, f: Flags, size: int)
    requires var digits, sign := Numeral(Magnitude(num, f), Base(base), f.large), SignText(num, f);
      var least := if |digits| > precision then |digits| else precision;
      if f.left then size == width - least - |sign| else size < 0
    ensures var digits, sign := Numeral(Magnitude(num, f), Base(base), f.large), SignText(num, f);
      var least := if |digits| > precision then |digits| else precision;
      NumberText(num, base, width, precision, f)
        == Front(sign, f.zeropad && !f.left, f.left, width - least - |sign|)
           + Rest3(least - |digits|, if precision != 0 then digits else [], size)
  {
    hide Repeat, Numeral, SignText, Magnitude, Front, NumberText, Rest3;
    var digits, sign := Numeral(Magnitude(num, f), Base(base), f.large), SignText(num, f);
    var least := if |digits| > precision then |digits| else precision;
    var room := width - least - |sign|;
    NoneRepeated(' ', size);
    SameFront(sign, f.zeropad, f.left, room);
    RestParts(Front(sign, f.zeropad && !f.left, f.left, room), least - |digits|,
              if precision != 0 then digits else [], size);
    FieldParts(num, base, width, precision, f);
  }

  /** print_number: the whole field is put at `str`, as far as it fits. */
  method PrintNumber(buf: array<char>, end: nat, str: nat, num: Word32, base: nat, s: int, precision: int, type': Flags)
    returns (str': nat)
    requires end <= buf.Length
    modifies buf
    ensures buf[..] == After(old(buf[..]), end, str, NumberText(num, base, s, precision, type'))
    ensures str' == str + |NumberText(num, base, s, precision, type')|
  {
    hide After, Repeat, Numeral, SignText, Magnitude, Backwards, Front, NumberText, Rest3;
    ghost var b := buf[..];
    var zeropad := type'.zeropad && !type'.left;
    var c := if zeropad then '0' else ' ';
    var sign, n := GetSign(num, type');
    ghost var signText := SignText(num, type');
    var tmp, i := DigitLoop(n, base, type'.large);
    ghost var digits := Numeral(n, Base(base), type'.large);
    assert |digits| == i;
    var precision' := if i > precision then i else precision;
    var size := s - precision';
    ghost var room := size - |signText|;

    str', size := PutFront(buf, end, str, sign, zeropad, type'.left, c, size, signText);
    ghost var front := Front(signText, zeropad, type'.left, room);
    ghost var shown := if precision != 0 then digits else [];
    AfterTwice(b, end, str, front, Rest3(precision' - i, shown, size));
    str' := PutRest(buf, end, str', tmp, i, precision' - i, precision != 0, size);
    FrontAndRest(num, base, s, precision, type', size);
  }

  // ---- Format strings ----

  /** What a caller passes: 32-bit words and strings, or RT_NULL for a string. */
  datatype Arg = Word(w: Word32) | Text(s: seq<char>) | Null

  /** va_arg for an int. */
  function NextWord(args: seq<Arg>): Word32 {
    if args != [] && args[0].Word? then args[0].w else 0
  }

  /** va_arg for a string, cut at its terminating 0. */
  function NextText(args: seq<Arg>): seq<char> {
    if args != [] && args[0].Text? then UpToNul(args[0].s) else "(NULL)"
  }

  function UpToNul(s: seq<char>): (r: seq<char>)
    ensures |r| <= |s| && r == s[..|r|] && (|r| < |s| ==> s[|r|] == '\0')
    ensures forall i :: 0 <= i < |r| ==> r[i] != '\0'
  {
    if s == [] || s[0] == '\0' then [] else [s[0]] + UpToNul(s[1..])
  }

  function Rest(args: seq<Arg>): seq<Arg> {
    if args == [] then [] else args[1..]
  }

  /** The character the format pointer is at. */
  function Head(fmt: seq<char>): char {
    if fmt == [] then '\0' else fmt[0]
  }

  /** Advance the format pointer; it never moves behind the terminating 0. */
  function Tail(fmt: seq<char>): (r: seq<char>)
    ensures fmt != [] ==> |r| < |fmt|
    ensures |r| <= |fmt|
  {
    if fmt == [] then [] else fmt[1..]
  }

  datatype Field = Field(flags: Flags, width: int, precision: int, qualifier: char, fmt: seq<char>, args: seq<Arg>)

  /** The flag characters at the front. */
  function TakeFlags(fmt: seq<char>, f: Flags): (r: (Flags, seq<char>))
    ensures |r.1| <= |fmt|
  {
    match Head(fmt)
    case '-' => TakeFlags(Tail(fmt), f.(left := true))
    case '+' => TakeFlags(Tail(fmt), f.(plus := true))
    case ' ' => TakeFlags(Tail(fmt), f.(space := true))
    case '#' => TakeFlags(Tail(fmt), f.(special := true))
    case '0' => TakeFlags(Tail(fmt), f.(zeropad := true))
    case _ => (f, fmt)
  }

  function TakeWidth(d: Field): (r: Field)
    ensures |r.fmt| <= |d.fmt|
  {
    if IsDigit(Head(d.fmt)) then
      var k := DigitRun(d.fmt);
      d.(width := Read(d.fmt[..k], 10), fmt := d.fmt[k..])
    else if Head(d.fmt) == '*' then
      var w := Signed(NextWord(d.args));
      d.(width := if w < 0 then -w else w, flags := if w < 0 then d.flags.(left := true) else d.flags,
         fmt := Tail(d.fmt), args := Rest(d.args))
    else d.(width := -1)
  }

  function TakePrecision(d: Field): (r: Field)
    ensures |r.fmt| <= |d.fmt|
  {
    if Head(d.fmt) != '.' then d.(precision := -1)
    else
      var t := Tail(d.fmt);
      if IsDigit(Head(t)) then
        var k := DigitRun(t);
        d.(precision := Max(0, Read(t[..k], 10)), fmt := t[k..])
      else if Head(t) == '*' then
        d.(precision := Max(0, Signed(NextWord(d.args))), fmt := Tail(t), args := Rest(d.args))
      else d.(precision := 0, fmt := t)
  }

  function TakeQualifier(d: Field): (r: Field)
    ensures |r.fmt| <= |d.fmt|
  {
    if Head(d.fmt) == 'h' || Head(d.fmt) == 'l' then d.(qualifier := Head(d.fmt), fmt := Tail(d.fmt))
    else d.(qualifier := '\0')
  }

  /** Everything between the percent sign and the conversion character. */
  function TakeField(fmt: seq<char>, args: seq<Arg>): (r: Field)
    ensures |r.fmt| <= |fmt|
  {
    var (f, t) := TakeFlags(fmt, NOFLAGS);
    TakeQualifier(TakePrecision(TakeWidth(Field(f, -1, -1, '\0', t, args))))
  }

  /** Filled with blanks to the width, on the right or on the left. */
  function Padded(s: seq<char>, width: int, left: bool): seq<char> {
    if left then s + Repeat(' ', width - |s|) else Repeat(' ', width - |s|) + s
  }

  /** %c: the character is an unsigned byte. */
  function CharText(d: Field): seq<char> {
    var c := [(NextWord(d.args) % 256) as char];
    Padded(c, d.width, d.flags.left)
  }

  /** %s: cut at the field width and at a positive precision. */
  function StringText(d: Field): seq<char> {
    var s := NextText(d.args);
    var cut := if 0 <= d.width < |s| then d.width else |s|;
    var len := if 0 < d.precision < cut then d.precision else cut;
    Padded(s[..len], d.width, d.flags.left)
  }

  /** The word an integer conversion prints: `h` keeps the low 16 bits, with their sign for signed conversions. */
  function Operand(w: Word32, qualifier: char, sign: bool): Word32 {
    if qualifier != 'h' then w
    else if sign && w % 0x1_0000 >= 0x8000 then w % 0x1_0000 + 0xFFFF_0000
    else w % 0x1_0000
  }

  function IntegerText(d: Field, base: nat, f: Flags): seq<char> {
    NumberText(Operand(NextWord(d.args), d.qualifier, f.sign), base, d.width, d.precision, f)
  }

  /** What one directive prints, and what is left of format and arguments. */
  function Directive(fmt: seq<char>, args: seq<Arg>): (r: (seq<char>, seq<char>, seq<Arg>))
    ensures |r.1| <= |fmt|
  {
    var d := TakeField(fmt, args);
    match Head(d.fmt)
    case 'c' => (CharText(d), Tail(d.fmt), Rest(d.args))
    case 's' => (StringText(d), Tail(d.fmt), Rest(d.args))
    case 'p' =>
      (NumberText(NextWord(d.args), 16, if d.width == -1 then 8 else d.width, d.precision,
                  if d.width == -1 then d.flags.(zeropad := true) else d.flags), Tail(d.fmt), Rest(d.args))
    case '%' => (['%'], Tail(d.fmt), d.args)
    case 'o' => (IntegerText(d, 8, d.flags), Tail(d.fmt), Rest(d.args))
    case 'X' => (IntegerText(d, 16, d.flags.(large := true)), Tail(d.fmt), Rest(d.args))
    case 'x' => (IntegerText(d, 16, d.flags), Tail(d.fmt), Rest(d.args))
    case 'd' => (IntegerText(d, 10, d.flags.(sign := true)), Tail(d.fmt), Rest(d.args))
    case 'i' => (IntegerText(d, 10, d.flags.(sign := true)), Tail(d.fmt), Rest(d.args))
    case 'u' => (IntegerText(d, 10, d.flags), Tail(d.fmt), Rest(d.args))
    case '\0' => (['%'], d.fmt, d.args)
    case c => (['%', c], Tail(d.fmt), d.args)
  }

  /** The whole output, without any bound. */
  function Format(fmt: seq<char>, args: seq<Arg>): seq<char>
    decreases |fmt|
  {
    if Head(fmt) == '\0' then []
    else if Head(fmt) != '%' then [Head(fmt)] + Format(Tail(fmt), args)
    else
      var (text, rest, args') := Directive(Tail(fmt), args);
      text + Format(rest, args')
  }

  /** What a buffer of `size` characters holds afterwards: as much of the output as fits, and the terminating 0. */
  function Bounded(b: seq<char>, size: nat, out: seq<char>): seq<char>
    requires size <= |b|
  {
    if size == 0 then b
    else var n := if |out| < size then |out| else size - 1; out[..n] + ['\0'] + b[n + 1..]
  }

  lemma UpToNulAt(s: seq<char>, n: nat)
    requires n <= |s| && (forall i :: 0 <= i < n ==> s[i] != '\0')
    ensures n <= |UpToNul(s)|
    ensures n == |UpToNul(s)| <==> n == |s| || s[n] == '\0'
  {
    var r := UpToNul(s);
    assert |r| < |s| ==> s[|r|] == '\0';
    assert |r| > n ==> r[n] == s[n];
  }

  /** The loop over the flag characters. */
  method ParseFlags(fmt: seq<char>) returns (flags: Flags, rest: seq<char>)
    ensures (flags, rest) == TakeFlags(fmt, NOFLAGS)
  {
    flags, rest := NOFLAGS, fmt;
    while true
      invariant TakeFlags(rest, flags) == TakeFlags(fmt, NOFLAGS)
      decreases |rest|
    {
      if Head(rest) == '-' {
        flags := flags.(left := true);
      } else if Head(rest) == '+' {
        flags := flags.(plus := true);
      } else if Head(rest) == ' ' {
        flags := flags.(space := true);
      } else if Head(rest) == '#' {
        flags := flags.(special := true);
      } else if Head(rest) == '0' {
        flags := flags.(zeropad := true);
      } else {
        break;
      }
      rest := Tail(rest);
    }
  }

  /** Flags, field width, precision and qualifier. */
  method ParseField(format: seq<char>, arguments: seq<Arg>) returns (d: Field)
    ensures d == TakeField(format, arguments)
  {
    var flags, fmt := ParseFlags(format);
    var args := arguments;
    var width, precision, qualifier := -1, -1, '\0';
    if IsDigit(Head(fmt)) {
      width, fmt := SkipAtoi(fmt);
    } else if Head(fmt) == '*' {
      fmt := Tail(fmt);
      width := Signed(NextWord(args));
      args := Rest(args);
      if width < 0 {
        width := -width;
        flags := flags.(left := true);
      }
    }
    assert Field(flags, width, -1, '\0', fmt, args)
        == TakeWidth(Field(TakeFlags(format, NOFLAGS).0, -1, -1, '\0', TakeFlags(format, NOFLAGS).1, arguments));
    if Head(fmt) == '.' {
      fmt := Tail(fmt);
      if IsDigit(Head(fmt)) {
        precision, fmt := SkipAtoi(fmt);
      } else if Head(fmt) == '*' {
        fmt := Tail(fmt);
        precision := Signed(NextWord(args));
        args := Rest(args);
      }
      if precision < 0 {
        precision := 0;
      }
    }
    if Head(fmt) == 'h' || Head(fmt) == 'l' {
      qualifier := Head(fmt);
      fmt := Tail(fmt);
    }
    d := Field(flags, width, precision, qualifier, fmt, args);
  }

  /** %c. */
  method PrintChar(buf: array<char>, end: nat, str: nat, d: Field) returns (str': nat)
    requires end <= buf.Length
    modifies buf
    ensures buf[..] == After(old(buf[..]), end, str, CharText(d)) && str' == str + |CharText(d)|
  {
    hide After, Repeat;
    ghost var b := buf[..];
    AfterNothing(b, end, str);
    var width := d.width - 1;
    ghost var front: seq<char> := [];
    str' := str;
    if !d.flags.left {
      front := Repeat(' ', width);
      NoneRepeated(' ', width);
      str', width := PutRepeated(buf, end, str', ' ', width);
    }
    var c := (NextWord(d.args) % 256) as char;
    AfterTwice(b, end, str, front, [c]);
    str' := Put(buf, end, str', c);
    NoneRepeated(' ', width);
    AfterTwice(b, end, str, front + [c], Repeat(' ', width));
    str', width := PutRepeated(buf, end, str', ' ', width);
  }

  /** The length loop of %s. */
  method LengthOf(s: seq<char>, width: int) returns (len: nat)
    ensures len == if 0 <= width < |UpToNul(s)| then width else |UpToNul(s)|
  {
    len := 0;
    UpToNulAt(s, 0);
    while len != width && len < |s| && s[len] != '\0'
      invariant len <= |s| && len <= |UpToNul(s)| && (0 <= width ==> len <= width)
      invariant forall i :: 0 <= i < len ==> s[i] != '\0'
      decreases |s| - len
    {
      len := len + 1;
      UpToNulAt(s, len);
    }
    UpToNulAt(s, len);
  }

  /** The copy loop of %s. */
  method PutText(buf: array<char>, end: nat, str: nat, s: seq<char>, len: nat) returns (str': nat)
    requires end <= buf.Length && len <= |s|
    modifies buf
    ensures buf[..] == After(old(buf[..]), end, str, s[..len]) && str' == str + len
  {
    hide After;
    ghost var b := buf[..];
    AfterNothing(b, end, str);
    str' := str;
    var i := 0;
    assert s[..0] == [];
    while i < len
      invariant i <= len && str' == str + i && buf[..] == After(b, end, str, s[..i])
    {
      AfterTwice(b, end, str, s[..i], [s[i]]);
      assert s[..i] + [s[i]] == s[..i + 1];
      str' := Put(buf, end, str', s[i]);
      i := i + 1;
    }
  }

  /** The loops of %s that put blanks, the text and blanks. */
  method PutPadded(buf: array<char>, end: nat, str: nat, s: seq<char>, len: nat, width: int,
                   left: bool) returns (str': nat)
    requires end <= buf.Length && len <= |s|
    modifies buf
    ensures buf[..] == After(old(buf[..]), end, str, Padded(s[..len], width, left))
    ensures str' == str + |Padded(s[..len], width, left)|
  {
    hide After, Repeat;
    ghost var b, front: seq<char> := buf[..], [];
    AfterNothing(b, end, str);
    var size := width - len;
    str' := str;
    if !left {
      front := Repeat(' ', size);
      str', size := PutRepeated(buf, end, str', ' ', size);
    }
    AfterTwice(b, end, str, front, s[..len]);
    str' := PutText(buf, end, str', s, len);
    NoneRepeated(' ', size);
    AfterTwice(b, end, str, front + s[..len], Repeat(' ', size));
    str', size := PutRepeated(buf, end, str', ' ', size);
  }

  /** %s. */
  method PrintString(buf: array<char>, end: nat, str: nat, d: Field) returns (str': nat)
    requires end <= buf.Length
    modifies buf
    ensures buf[..] == After(old(buf[..]), end, str, StringText(d)) && str' == str + |StringText(d)|
  {
    hide After, Repeat, UpToNul, Padded;
    var s := if d.args != [] && d.args[0].Text? then d.args[0].s else "(NULL)";
    NullText();
    var len := LengthOf(s, d.width);
    if d.precision > 0 && len > d.precision {
      len := d.precision;
    }
    CutText(s, len);
    str' := PutPadded(buf, end, str, s, len, d.width, d.flags.left);
  }

  lemma CutText(s: seq<char>, len: nat)
    requires len <= |UpToNul(s)|
    ensures len <= |s| && s[..len] == UpToNul(s)[..len]
  {
  }

  lemma NullText()
    ensures UpToNul("(NULL)") == "(NULL)"
  {
    var s := "(NULL)";
    UpToNulAt(s, |s|);
  }

  /** The integer conversions. */
  method PrintInteger(buf: array<char>, end: nat, str: nat, d: Field, base: nat, flags: Flags) returns (str': nat)
    requires end <= buf.Length
    modifies buf
    ensures buf[..] == After(old(buf[..]), end, str, IntegerText(d, base, flags))
    ensures str' == str + |IntegerText(d, base, flags)|
  {
    hide After, NumberText;
    var num := NextWord(d.args);
    if d.qualifier == 'h' {
      num := num % 0x1_0000;
      if flags.sign && num >= 0x8000 {
        num := num + 0xFFFF_0000;
      }
    }
    str' := PrintNumber(buf, end, str, num, base, d.width, d.precision, flags);
  }

  /** One directive behind its percent sign. */
  method PrintDirective(buf: array<char>, end: nat, str: nat, fmt: seq<char>, args: seq<Arg>)
    returns (str': nat, fmt': seq<char>, args': seq<Arg>)
    requires end <= buf.Length
    modifies buf
    ensures buf[..] == After(old(buf[..]), end, str, Directive(fmt, args).0) && str' == str + |Directive(fmt, args).0|
    ensures fmt' == Directive(fmt, args).1 && args' == Directive(fmt, args).2
  {
    hide After, NumberText, TakeField, CharText, StringText, IntegerText;
    var d := ParseField(fmt, args);
    fmt', args' := Tail(d.fmt), Rest(d.args);
    match Head(d.fmt)
    case 'c' =>
      str' := PrintChar(buf, end, str, d);
    case 's' =>
      str' := PrintString(buf, end, str, d);
    case 'p' =>
      var width, flags := d.width, d.flags;
      if width == -1 {
        width, flags := 8, flags.(zeropad := true);
      }
      str' := PrintNumber(buf, end, str, NextWord(d.args), 16, width, d.precision, flags);
    case '%' =>
      str' := Put(buf, end, str, '%');
      args' := d.args;
    case 'o' =>
      str' := PrintInteger(buf, end, str, d, 8, d.flags);
    case 'X' =>
      str' := PrintInteger(buf, end, str, d, 16, d.flags.(large := true));
    case 'x' =>
      str' := PrintInteger(buf, end, str, d, 16, d.flags);
    case 'd' =>
      str' := PrintInteger(buf, end, str, d, 10, d.flags.(sign := true));
    case 'i' =>
      str' := PrintInteger(buf, end, str, d, 10, d.flags.(sign := true));
    case 'u' =>
      str' := PrintInteger(buf, end, str, d, 10, d.flags);
    case c =>
      ghost var b := buf[..];
      args' := d.args;
      str' := Put(buf, end, str, '%');
      if c != '\0' {
        AfterTwice(b, end, str, ['%'], [c]);
        assert ['%'] + [c] == ['%', c];
        str' := Put(buf, end, str', c);
      } else {
        fmt' := d.fmt;
      }
  }

  /**
   rt_vsnprintf: the buffer gets the first min(L, size - 1) characters of the unbounded
   output and a terminating 0, nothing else changes, and the full length L is returned.
   */
  method VsnPrintf(buf: array<char>, size: nat, format: seq<char>, arguments: seq<Arg>) returns (len: nat)
    requires size <= buf.Length
    modifies buf
    ensures len == |Format(format, arguments)|
    ensures buf[..] == Bounded(old(buf[..]), size, Format(format, arguments))
  {
    hide After, Directive, Format;
    ghost var b, out: seq<char> := buf[..], [];
    AfterNothing(b, size, 0);
    var fmt, args, str := format, arguments, 0;
    assert [] + Format(fmt, args) == Format(format, arguments);
    while Head(fmt) != '\0'
      invariant str == |out| && buf[..] == After(b, size, 0, out)
      invariant out + Format(fmt, args) == Format(format, arguments)
      decreases |fmt|
    {
      FormatStep(fmt, args, out);
      if Head(fmt) != '%' {
        AfterTwice(b, size, 0, out, [Head(fmt)]);
        str := Put(buf, size, str, Head(fmt));
        out := out + [Head(fmt)];
        fmt := Tail(fmt);
      } else {
        ghost var text := Directive(Tail(fmt), args).0;
        AfterTwice(b, size, 0, out, text);
        DirectiveShrinks(fmt, args);
        str, fmt, args := PrintDirective(buf, size, str, Tail(fmt), args);
        out := out + text;
      }
    }
    FormatEnd(fmt, args, out);
    Terminate(buf, size, str, b, out);
    len := str;
  }

  lemma DirectiveShrinks(fmt: seq<char>, args: seq<Arg>)
    requires Head(fmt) != '\0'
    ensures |Directive(Tail(fmt), args).1| < |fmt|
  {
  }

  /** One step of the loop, on what is still to come. */
  lemma FormatStep(fmt: seq<char>, args: seq<Arg>, out: seq<char>)
    requires Head(fmt) != '\0'
    ensures Head(fmt) != '%' ==> out + Format(fmt, args) == out + [Head(fmt)] + Format(Tail(fmt), args)
    ensures Head(fmt) == '%' ==>
      var (text, rest, args') := Directive(Tail(fmt), args);
      out + Format(fmt, args) == out + text + Format(rest, args')
  {
    hide Directive;
    if Head(fmt) == '%' {
      var (text, rest, args') := Directive(Tail(fmt), args);
      Joined(out, text, Format(rest, args'));
    } else {
      Joined(out, [Head(fmt)], Format(Tail(fmt), args));
    }
  }

  lemma Joined(a: seq<char>, b: seq<char>, c: seq<char>)
    ensures a + (b + c) == a + b + c
  {
  }

  lemma FormatEnd(fmt: seq<char>, args: seq<Arg>, out: seq<char>)
    requires Head(fmt) == '\0'
    ensures out + Format(fmt, args) == out
  {
  }

  /** The terminating 0 of rt_vsnprintf. */
  method Terminate(buf: array<char>, size: nat, str: nat, ghost b: seq<char>, ghost out: seq<char>)
    requires size <= buf.Length == |b| && str == |out| && buf[..] == After(b, size, 0, out)
    modifies buf
    ensures buf[..] == Bounded(b, size, out)
  {
    if size > 0 {
      if str < size {
        buf[str] := '\0';
      } else {
        buf[size - 1] := '\0';
      }
    }
    assert forall i :: 0 <= i < |b| ==> buf[..][i] == Bounded(b, size, out)[i];
  }

  // ---- What formats mean ----

  lemma LiteralChar(c: char, rest: seq<char>, args: seq<Arg>)
    requires c != '%' && c != '\0'
    ensures Format([c] + rest, args) == [c] + Format(rest, args)
  {
    assert ([c] + rest)[1..] == rest;
  }

  /** Text without percent signs stands for itself. */
  lemma {:induction false} LiteralText(lit: seq<char>, rest: seq<char>, args: seq<Arg>)
    requires forall i :: 0 <= i < |lit| ==> lit[i] != '%' && lit[i] != '\0'
    ensures Format(lit + rest, args) == lit + Format(rest, args)
  {
    hide Format;
    if lit == [] {
      assert lit + rest == rest;
    } else {
      LiteralText(lit[1..], rest, args);
      LiteralChar(lit[0], lit[1..] + rest, args);
      assert lit + rest == [lit[0]] + (lit[1..] + rest);
    }
  }

  /** A conversion character directly behind the percent sign. */
  lemma PlainField(c: char, rest: seq<char>, args: seq<Arg>)
    requires c == 'c' || c == 's' || c == 'd' || c == 'i' || c == 'u' || c == 'x' || c == 'X' || c == '%' || c == 'o'
    ensures TakeField([c] + rest, args) == Field(NOFLAGS, -1, -1, '\0', [c] + rest, args)
    ensures Tail(['%', c] + rest) == [c] + rest && Tail([c] + rest) == rest && Head(['%', c] + rest) == '%'
    ensures Head([c] + rest) == c
  {
    assert (['%', c] + rest)[1..] == [c] + rest;
    assert ([c] + rest)[1..] == rest;
    var fmt := [c] + rest;
    assert TakeFlags(fmt, NOFLAGS) == (NOFLAGS, fmt);
  }

  /** Unpadded numbers are the sign and the digits. */
  lemma PlainNumber(num: Word32, base: nat, f: Flags)
    requires !f.left && !f.zeropad && !f.plus && !f.space
    ensures NumberText(num, base, -1, -1, f)
      == (if f.sign && Signed(num) < 0 then ['-'] else []) + Numeral(Magnitude(num, f), Base(base), f.large)
  {
    hide Numeral;
  }

  /** %d prints the signed value, the most negative one included, so that it reads back. */
  lemma PrintsDecimal(w: Word32, rest: seq<char>, args: seq<Arg>)
    ensures var text := NumberText(w, 10, -1, -1, NOFLAGS.(sign := true));
      && Format("%d" + rest, [Word(w)] + args) == text + Format(rest, args)
      && Parse(text, 10) == Signed(w)
  {
    hide NumberText, Format, TakeField, Parse;
    PlainField('d', rest, [Word(w)] + args);
    PrintedReadsBack(w, 10, -1, -1, NOFLAGS.(sign := true));
    OneWord("%d" + rest, w, args);
  }

  /** %u, %x and %X print the unsigned value. */
  lemma PrintsUnsigned(c: char, w: Word32, rest: seq<char>, args: seq<Arg>)
    requires c == 'u' || c == 'x' || c == 'X'
    ensures var base, f := if c == 'u' then 10 else 16, NOFLAGS.(large := c == 'X');
      && Format(['%', c] + rest, [Word(w)] + args) == Numeral(w, base, c == 'X') + Format(rest, args)
      && Read(Numeral(w, base, c == 'X'), base) == w
  {
    hide NumberText, Format, TakeField, Parse, Numeral, Read;
    var base, f := if c == 'u' then 10 else 16, NOFLAGS.(large := c == 'X');
    PlainField(c, rest, [Word(w)] + args);
    PlainNumber(w, base, f);
    NumeralReads(w, base, c == 'X');
    OneWord(['%', c] + rest, w, args);
    assert [] + Numeral(w, base, c == 'X') == Numeral(w, base, c == 'X');
  }

  /** Unfolding of Format at a directive. */
  lemma DirectiveAt(fmt: seq<char>, args: seq<Arg>)
    requires Head(fmt) == '%'
    ensures var (text, rest, left) := Directive(Tail(fmt), args); Format(fmt, args) == text + Format(rest, left)
  {
  }

  lemma OneWord(fmt: seq<char>, w: Word32, args: seq<Arg>)
    requires Head(fmt) == '%'
    ensures Format(fmt, [Word(w)] + args) == Directive(Tail(fmt), [Word(w)] + args).0
      + Format(Directive(Tail(fmt), [Word(w)] + args).1, Directive(Tail(fmt), [Word(w)] + args).2)
    ensures NextWord([Word(w)] + args) == w && Rest([Word(w)] + args) == args
  {
    DirectiveAt(fmt, [Word(w)] + args);
    assert ([Word(w)] + args)[1..] == args;
  }

  /** %s prints the string up to its terminating 0. */
  lemma PrintsText(s: seq<char>, rest: seq<char>, args: seq<Arg>)
    ensures Format("%s" + rest, [Text(s)] + args) == UpToNul(s) + Format(rest, args)
  {
    hide TakeField, UpToNul, IntegerText, CharText, Format;
    PlainField('s', rest, [Text(s)] + args);
    DirectiveAt("%s" + rest, [Text(s)] + args);
    assert ([Text(s)] + args)[1..] == args;
    assert UpToNul(s)[..|UpToNul(s)|] == UpToNul(s);
    assert Repeat(' ', -1 - |UpToNul(s)|) == [];
  }

  /** %c prints one byte. */
  lemma PrintsChar(w: Word32, rest: seq<char>, args: seq<Arg>)
    ensures Format("%c" + rest, [Word(w)] + args) == [(w % 256) as char] + Format(rest, args)
  {
    hide TakeField, IntegerText, StringText, Format;
    PlainField('c', rest, [Word(w)] + args);
    OneWord("%c" + rest, w, args);
    assert Repeat(' ', -2) == [];
  }

  /** %% prints a percent sign and takes no argument. */
  lemma PrintsPercent(rest: seq<char>, args: seq<Arg>)
    ensures Format("%%" + rest, args) == ['%'] + Format(rest, args)
  {
    hide TakeField, IntegerText, StringText, CharText, Format;
    PlainField('%', rest, args);
    DirectiveAt("%%" + rest, args);
  }
}
