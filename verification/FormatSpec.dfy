/**
 What the formats of rt_vsnprintf mean (kservice.c): from the characters of a directive
 to the field it describes, and from the field to the characters that are printed.
 */
module FormatSpec {
  import opened Numerals
  import opened Formatter
  import opened Arithmetic

  // ---- Directives as text ----

  /** A width or precision: left out, a decimal number, or an asterisk for the next argument. */
  datatype Amount = Absent | Number(n: nat) | Star

  /** A directive without its conversion character; qualifier '\0' is none. */
  datatype Spec = Spec(flags: seq<char>, width: Amount, dot: bool, precision: Amount, qualifier: char)

  predicate IsFlag(c: char) {
    c == '-' || c == '+' || c == ' ' || c == '#' || c == '0'
  }

  /** A width of 0 would be a flag, and a precision needs its dot. */
  predicate ValidSpec(p: Spec) {
    && (forall i :: 0 <= i < |p.flags| ==> IsFlag(p.flags[i]))
    && (p.width.Number? ==> p.width.n > 0)
    && (!p.dot ==> p.precision.Absent?)
    && (p.qualifier == '\0' || p.qualifier == 'h' || p.qualifier == 'l')
  }

  /** No part of a directive but its conversion character. */
  predicate IsConversion(c: char) {
    !IsFlag(c) && !IsDigit(c) && c != '*' && c != '.' && c != 'h' && c != 'l' && c != '\0'
  }

  function AmountText(a: Amount): seq<char> {
    match a
    case Absent => []
    case Number(n) => Numeral(n, 10, false)
    case Star => ['*']
  }

  function PrecisionText(p: Spec): seq<char> {
    if p.dot then ['.'] + AmountText(p.precision) else []
  }

  function QualifierText(p: Spec): seq<char> {
    if p.qualifier == '\0' then [] else [p.qualifier]
  }

  /** The directive in front of `tail`, which starts with the conversion character. */
  function SpecThen(p: Spec, tail: seq<char>): seq<char> {
    p.flags + (AmountText(p.width) + (PrecisionText(p) + (QualifierText(p) + tail)))
  }

  // ---- What a directive says ----

  function StarValue(args: seq<Arg>): int {
    Signed(NextWord(args))
  }

  function ArgsAfterWidth(p: Spec, args: seq<Arg>): seq<Arg> {
    if p.width.Star? then Rest(args) else args
  }

  function ArgsAfter(p: Spec, args: seq<Arg>): seq<Arg> {
    var left := ArgsAfterWidth(p, args);
    if p.precision.Star? then Rest(left) else left
  }

  /** -1 for none; a negative argument counts without its sign. */
  function WidthOf(p: Spec, args: seq<Arg>): int {
    match p.width
    case Absent => -1
    case Number(n) => n
    case Star => if StarValue(args) < 0 then -StarValue(args) else StarValue(args)
  }

  /** -1 for none, 0 for a dot alone and for a negative argument. */
  function PrecisionOf(p: Spec, args: seq<Arg>): int {
    if !p.dot then -1
    else match p.precision
      case Absent => 0
      case Number(n) => n
      case Star => Max(0, StarValue(ArgsAfterWidth(p, args)))
  }

  predicate IsLeft(p: Spec, args: seq<Arg>) {
    '-' in p.flags || (p.width.Star? && StarValue(args) < 0)
  }

  function FlagsOf(p: Spec, args: seq<Arg>): Flags {
    WithFlags(NOFLAGS, p.flags).(left := IsLeft(p, args))
  }

  // ---- The directive is parsed as it says ----

  lemma HeadOf(a: seq<char>, t: seq<char>)
    ensures Head(a + t) == if a != [] then a[0] else Head(t)
    ensures a == [] ==> a + t == t
    ensures a != [] ==> Tail(a + t) == a[1..] + t
  {
  }

  function WithFlag(f: Flags, c: char): Flags {
    f.(zeropad := f.zeropad || c == '0', plus := f.plus || c == '+', space := f.space || c == ' ',
       special := f.special || c == '#', left := f.left || c == '-')
  }

  /** The flags that fs adds to f. */
  function WithFlags(f: Flags, fs: seq<char>): Flags {
    f.(zeropad := f.zeropad || '0' in fs, plus := f.plus || '+' in fs, space := f.space || ' ' in fs,
       special := f.special || '#' in fs, left := f.left || '-' in fs)
  }

  lemma FlagTaken(c: char, t: seq<char>, f: Flags)
    requires IsFlag(c)
    ensures TakeFlags([c] + t, f) == TakeFlags(t, WithFlag(f, c))
  {
    HeadOf([c], t);
  }

  lemma FlagAdded(f: Flags, c: char, fs: seq<char>)
    ensures WithFlags(WithFlag(f, c), fs) == WithFlags(f, [c] + fs)
  {
  }

  /** Flag characters are taken one by one, in any order and number. */
  lemma {:induction false} FlagsTaken(fs: seq<char>, t: seq<char>, f: Flags)
    requires (forall i :: 0 <= i < |fs| ==> IsFlag(fs[i])) && !IsFlag(Head(t))
    ensures TakeFlags(fs + t, f) == (WithFlags(f, fs), t)
    decreases |fs|
  {
    hide TakeFlags, WithFlag, WithFlags, Head;
    HeadOf(fs, t);
    if fs == [] {
      NoFlag(t, f);
    } else {
      assert fs == [fs[0]] + fs[1..] && fs + t == [fs[0]] + (fs[1..] + t);
      FlagTaken(fs[0], fs[1..] + t, f);
      FlagsTaken(fs[1..], t, WithFlag(f, fs[0]));
      FlagAdded(f, fs[0], fs[1..]);
    }
  }

  lemma NoFlag(t: seq<char>, f: Flags)
    requires !IsFlag(Head(t))
    ensures TakeFlags(t, f) == (f, t) && WithFlags(f, []) == f
  {
  }

  /** A decimal number is read up to the first character that is no digit. */
  lemma NumberTaken(n: nat, t: seq<char>)
    requires !IsDigit(Head(t))
    ensures var s := Numeral(n, 10, false) + t;
      IsDigit(Head(s)) && Read(s[..DigitRun(s)], 10) == n && s[DigitRun(s)..] == t
  {
    hide Numeral, Read;
    AtoiUndoesPrinting(n, t);
    NumeralReads(n, 10, false);
    HeadOf(Numeral(n, 10, false), t);
  }

  lemma WidthTaken(p: Spec, t: seq<char>, d: Field)
    requires d.fmt == AmountText(p.width) + t && !IsDigit(Head(t)) && Head(t) != '*'
    ensures TakeWidth(d) == d.(width := WidthOf(p, d.args), fmt := t, args := ArgsAfterWidth(p, d.args),
                               flags := d.flags.(left := d.flags.left || (p.width.Star? && StarValue(d.args) < 0)))
  {
    hide Numeral, Read, DigitRun;
    match p.width
    case Absent => HeadOf([], t);
    case Number(n) => NumberTaken(n, t);
    case Star => HeadOf(['*'], t);
  }

  lemma PrecisionTaken(p: Spec, args: seq<Arg>, t: seq<char>, d: Field)
    requires ValidSpec(p) && d.fmt == PrecisionText(p) + t && d.args == ArgsAfterWidth(p, args)
    requires !IsDigit(Head(t)) && Head(t) != '*' && Head(t) != '.'
    ensures TakePrecision(d) == d.(precision := PrecisionOf(p, args), fmt := t, args := ArgsAfter(p, args))
  {
    hide Numeral, Read, DigitRun, IsFlag;
    if p.dot {
      var a := AmountText(p.precision);
      assert d.fmt == ['.'] + (a + t);
      HeadOf(['.'], a + t);
      match p.precision
      case Absent => HeadOf([], t);
      case Number(n) => NumberTaken(n, t);
      case Star => HeadOf(['*'], t);
    } else {
      HeadOf([], t);
    }
  }

  lemma QualifierTaken(p: Spec, t: seq<char>, d: Field)
    requires ValidSpec(p) && d.fmt == QualifierText(p) + t && Head(t) != 'h' && Head(t) != 'l'
    ensures TakeQualifier(d) == d.(qualifier := p.qualifier, fmt := t)
  {
    hide IsFlag;
    HeadOf(QualifierText(p), t);
  }

  /** Where each part of a directive ends. */
  lemma PartsEnd(p: Spec, c: char, rest: seq<char>)
    requires ValidSpec(p) && IsConversion(c)
    ensures var t3 := [c] + rest;
      var t2 := QualifierText(p) + t3;
      var t1 := PrecisionText(p) + t2;
      var t0 := AmountText(p.width) + t1;
      && Head(t3) == c && !IsDigit(Head(t2)) && Head(t2) != '*' && Head(t2) != '.'
      && !IsDigit(Head(t1)) && Head(t1) != '*' && !IsFlag(Head(t0))
  {
    hide Numeral, Head;
    var t3 := [c] + rest;
    var t2 := QualifierText(p) + t3;
    var t1 := PrecisionText(p) + t2;
    HeadOf([c], rest);
    HeadOf(QualifierText(p), t3);
    HeadOf(PrecisionText(p), t2);
    HeadOf(AmountText(p.width), t1);
    if p.width.Number? {
      FirstDigit(p.width.n);
    }
  }

  lemma FirstDigit(n: nat)
    requires n > 0
    ensures IsDigit(Numeral(n, 10, false)[0]) && Numeral(n, 10, false)[0] != '0'
  {
    NumeralReads(n, 10, false);
    NoLeadingZero(n, 10, false);
  }

  /** What rt_vsnprintf makes of the characters of a directive is what they say. */
  lemma FieldParsed(p: Spec, c: char, rest: seq<char>, args: seq<Arg>)
    requires ValidSpec(p) && IsConversion(c)
    ensures TakeField(SpecThen(p, [c] + rest), args) ==
      Field(FlagsOf(p, args), WidthOf(p, args), PrecisionOf(p, args), p.qualifier, [c] + rest, ArgsAfter(p, args))
  {
    hide TakeFlags, TakeWidth, TakePrecision, TakeQualifier, AmountText, PrecisionText, QualifierText, WidthOf;
    hide PrecisionOf;
    var t3 := [c] + rest;
    var t2 := QualifierText(p) + t3;
    var t1 := PrecisionText(p) + t2;
    var t0 := AmountText(p.width) + t1;
    PartsEnd(p, c, rest);
    FlagsTaken(p.flags, t0, NOFLAGS);
    var f := TakeFlags(p.flags + t0, NOFLAGS).0;
    var d := Field(f, -1, -1, '\0', t0, args);
    WidthTaken(p, t1, d);
    PrecisionTaken(p, args, t2, TakeWidth(d));
    QualifierTaken(p, t3, TakePrecision(TakeWidth(d)));
  }

  // ---- Where each character of a field stands ----

  /**
   Character i of a field with a sign, digits and `room` fill characters: the fill stands behind the digits under
   '-', otherwise between sign and digits under '0', otherwise in front of both; it is 0 only between them.
   */
  function CharAt(sign: seq<char>, digits: seq<char>, room: nat, left: bool, zero: bool, i: nat): char {
    var signAt := if left || zero then 0 else room;
    var digitsAt := if left then |sign| else room + |sign|;
    if signAt <= i < signAt + |sign| then sign[i - signAt]
    else if digitsAt <= i < digitsAt + |digits| then digits[i - digitsAt]
    else if zero && !left then '0'
    else ' '
  }

  function Laid(sign: seq<char>, digits: seq<char>, room: nat, left: bool, zero: bool): seq<char> {
    seq(|sign| + |digits| + room, i requires 0 <= i => CharAt(sign, digits, room, left, zero, i))
  }

  function Copies(c: char, n: int): (s: seq<char>)
    ensures |s| == Max(0, n) && forall i :: 0 <= i < |s| ==> s[i] == c
  {
    if n <= 0 then [] else [c] + Copies(c, n - 1)
  }

  /** The digits of a number: zeros up to the precision, and none at all for precision 0. */
  function DigitsOf(n: nat, base: nat, large: bool, precision: int): seq<char>
    requires 10 <= base <= 16
  {
    var numeral := Numeral(n, base, large);
    Copies('0', precision - |numeral|) + if precision == 0 then [] else numeral
  }

  /** What the width leaves; the room for suppressed digits stays reserved. */
  function RoomFor(sign: seq<char>, n: nat, base: nat, large: bool, width: int, precision: int): nat
    requires 10 <= base <= 16
  {
    Max(0, width - |sign| - Max(precision, |Numeral(n, base, large)|))
  }

  lemma CopiesAre(c: char, n: int)
    ensures Copies(c, n) == Repeat(c, n)
  {
  }

  /** print_number puts every character where the flags say. */
  lemma NumberLaid(num: Word32, base: nat, width: int, precision: int, f: Flags)
    ensures var sign, m, b := SignText(num, f), Magnitude(num, f), Base(base);
      NumberText(num, base, width, precision, f)
        == Laid(sign, DigitsOf(m, b, f.large, precision), RoomFor(sign, m, b, f.large, width, precision),
                f.left, f.zeropad)
  {
    hide Numeral, SignText, Magnitude;
    var sign, m, b := SignText(num, f), Magnitude(num, f), Base(base);
    var numeral := Numeral(m, b, f.large);
    var room, zeros := width - Max(precision, |numeral|) - |sign|, Max(precision, |numeral|) - |numeral|;
    CopiesAre('0', precision - |numeral|);
    assert Repeat('0', zeros) == Repeat('0', precision - |numeral|);
    FrontLaid(sign, DigitsOf(m, b, f.large, precision), room, f.left, f.zeropad);
    Grouped(Front(sign, f.zeropad, f.left, room), Repeat('0', zeros), if precision != 0 then numeral else [],
            if f.left then Repeat(' ', room) else []);
  }

  lemma Grouped(a: seq<char>, b: seq<char>, c: seq<char>, d: seq<char>)
    ensures a + b + c + d == a + (b + c) + d
  {
  }

  lemma FrontLaid(sign: seq<char>, digits: seq<char>, room: int, left: bool, zero: bool)
    ensures Front(sign, zero, left, room) + digits + (if left then Repeat(' ', room) else [])
      == Laid(sign, digits, Max(0, room), left, zero)
  {
    var text := Front(sign, zero, left, room) + digits + if left then Repeat(' ', room) else [];
    var laid := Laid(sign, digits, Max(0, room), left, zero);
    assert |text| == |laid|;
    forall i | 0 <= i < |laid|
      ensures text[i] == laid[i]
    {
    }
  }

  // ---- Integer conversions ----

  /** The number an argument stands for: `h` takes its low 16 bits, with their own sign. */
  function ValueOf(w: Word32, qualifier: char, signed: bool): int {
    if qualifier == 'h' then (if signed && w % 0x1_0000 >= 0x8000 then w % 0x1_0000 - 0x1_0000 else w % 0x1_0000)
    else if signed then Signed(w)
    else w
  }

  /** What stands in front of the digits of v. */
  function SignFor(v: int, signed: bool, flags: seq<char>): seq<char> {
    if !signed then []
    else if v < 0 then ['-']
    else if '+' in flags then ['+']
    else if ' ' in flags then [' ']
    else []
  }

  predicate IsInteger(c: char) {
    c == 'd' || c == 'i' || c == 'u' || c == 'x' || c == 'X' || c == 'o'
  }

  /** %o is printed in hexadecimal, too. */
  function BaseFor(c: char): nat {
    if c == 'd' || c == 'i' || c == 'u' then 10 else 16
  }

  function Absolute(v: int): nat {
    if v < 0 then -v else v
  }

  /** The characters of an integer conversion. */
  function IntegerField(p: Spec, c: char, args: seq<Arg>): seq<char> {
    var signed := c == 'd' || c == 'i';
    var v := ValueOf(NextWord(ArgsAfter(p, args)), p.qualifier, signed);
    var sign, n := SignFor(v, signed, p.flags), Absolute(v);
    var precision := PrecisionOf(p, args);
    Laid(sign, DigitsOf(n, BaseFor(c), c == 'X', precision),
         RoomFor(sign, n, BaseFor(c), c == 'X', WidthOf(p, args), precision), IsLeft(p, args), '0' in p.flags)
  }

  lemma OperandValue(w: Word32, qualifier: char, f: Flags, flags: seq<char>)
    requires f.plus == ('+' in flags) && f.space == (' ' in flags)
    ensures var o, v := Operand(w, qualifier, f.sign), ValueOf(w, qualifier, f.sign);
      && (if f.sign then Signed(o) else o) == v
      && Magnitude(o, f) == Absolute(v) && SignText(o, f) == SignFor(v, f.sign, flags)
  {
  }

  /** The text of an integer directive, and what is left of format and arguments. */
  lemma IntegerDirective(p: Spec, c: char, rest: seq<char>, args: seq<Arg>)
    requires ValidSpec(p) && IsInteger(c)
    ensures var d := TakeField(SpecThen(p, [c] + rest), args);
      var f := d.flags.(sign := c == 'd' || c == 'i', large := c == 'X');
      && IsConversion(c) && Head(d.fmt) == c && Tail(d.fmt) == rest && d.args == ArgsAfter(p, args)
      && IntegerText(d, if c == 'o' then 8 else BaseFor(c), f) == IntegerField(p, c, args)
  {
    hide NumberText, TakeField, Laid, DigitsOf, RoomFor, Operand, ValueOf, Magnitude, SignText, SpecThen, WidthOf;
    hide PrecisionOf;
    FieldParsed(p, c, rest, args);
    HeadOf([c], rest);
    var d := TakeField(SpecThen(p, [c] + rest), args);
    var f := d.flags.(sign := c == 'd' || c == 'i', large := c == 'X');
    var w := NextWord(d.args);
    OperandValue(w, p.qualifier, f, p.flags);
    NumberLaid(Operand(w, p.qualifier, f.sign), if c == 'o' then 8 else BaseFor(c), d.width, d.precision, f);
  }

  /**
   Every integer directive prints the number its argument stands for, with the sign, zeros, blanks and letters its
   flags, width, precision and conversion character say, each in its place; then the rest of the format follows.
   */
  lemma PrintsInteger(p: Spec, c: char, rest: seq<char>, args: seq<Arg>)
    requires ValidSpec(p) && IsInteger(c)
    ensures Format(['%'] + SpecThen(p, [c] + rest), args)
      == IntegerField(p, c, args) + Format(rest, Rest(ArgsAfter(p, args)))
  {
    hide Format, TakeField, IntegerText, IntegerField, SpecThen, ValidSpec;
    var fmt := ['%'] + SpecThen(p, [c] + rest);
    HeadOf(['%'], SpecThen(p, [c] + rest));
    IntegerDirective(p, c, rest, args);
    DirectiveAt(fmt, args);
    assert fmt[1..] == SpecThen(p, [c] + rest);
    SameFlags(TakeField(Tail(fmt), args), p, c, rest, args);
  }

  lemma SameFlags(d: Field, p: Spec, c: char, rest: seq<char>, args: seq<Arg>)
    requires ValidSpec(p) && IsInteger(c) && d == TakeField(SpecThen(p, [c] + rest), args)
    ensures IsConversion(c) && !d.flags.sign && !d.flags.large
    ensures d.flags.(sign := false, large := false) == d.flags
  {
    hide TakeField, SpecThen;
    FieldParsed(p, c, rest, args);
  }

  // ---- The other conversions ----

  /** A text filled with blanks to the width: behind it under '-', in front of it otherwise. */
  function TextField(text: seq<char>, width: int, left: bool): seq<char> {
    Laid([], text, Max(0, width - |text|), left, false)
  }

  lemma PaddedLaid(text: seq<char>, width: int, left: bool)
    ensures Padded(text, width, left) == TextField(text, width, left)
  {
    assert |Padded(text, width, left)| == |TextField(text, width, left)|;
    forall i | 0 <= i < |TextField(text, width, left)|
      ensures Padded(text, width, left)[i] == TextField(text, width, left)[i]
    {
    }
  }

  /** How much of a string is printed: no more than the width, and than a precision other than 0. */
  function Shown(s: seq<char>, width: int, precision: int): nat {
    Min(if width >= 0 then Min(|s|, width) else |s|, if precision > 0 then precision else |s|)
  }

  /** What the directives that are no integers print. */
  function OtherField(p: Spec, c: char, args: seq<Arg>): seq<char> {
    var a, width := ArgsAfter(p, args), WidthOf(p, args);
    match c
    case 'c' => TextField([(NextWord(a) % 256) as char], width, IsLeft(p, args))
    case 's' => TextField(NextText(a)[..Shown(NextText(a), width, PrecisionOf(p, args))], width, IsLeft(p, args))
    case 'p' =>
      var none := p.width.Absent?;
      Laid([], DigitsOf(NextWord(a), 16, false, PrecisionOf(p, args)),
           RoomFor([], NextWord(a), 16, false, if none then 8 else width, PrecisionOf(p, args)),
           IsLeft(p, args), none || '0' in p.flags)
    case '%' => ['%']
    case _ => ['%', c]
  }

  lemma PointerLaid(w: Word32, width: int, precision: int, f: Flags)
    requires !f.sign
    ensures NumberText(w, 16, width, precision, f)
      == Laid([], DigitsOf(w, 16, f.large, precision), RoomFor([], w, 16, f.large, width, precision), f.left, f.zeropad)
  {
    hide Laid, DigitsOf, RoomFor, NumberText;
    NumberLaid(w, 16, width, precision, f);
  }

  lemma OtherDirective(p: Spec, c: char, rest: seq<char>, args: seq<Arg>)
    requires ValidSpec(p) && IsConversion(c) && !IsInteger(c)
    ensures Directive(SpecThen(p, [c] + rest), args) == (OtherField(p, c, args), rest,
      if c == 'c' || c == 's' || c == 'p' then Rest(ArgsAfter(p, args)) else ArgsAfter(p, args))
  {
    hide NumberText, TakeField, Laid, DigitsOf, RoomFor, SpecThen, PrecisionOf, ValidSpec, IntegerText, TextField;
    hide Padded, UpToNul;
    FieldParsed(p, c, rest, args);
    HeadOf([c], rest);
    var d := TakeField(SpecThen(p, [c] + rest), args);
    var w := NextWord(d.args);
    if c == 'c' {
      PaddedLaid([(w % 256) as char], d.width, d.flags.left);
    } else if c == 's' {
      PaddedLaid(NextText(d.args)[..Shown(NextText(d.args), d.width, d.precision)], d.width, d.flags.left);
    } else if c == 'p' {
      WidthGiven(p, args);
      PointerLaid(w, if d.width == -1 then 8 else d.width, d.precision,
                  if d.width == -1 then d.flags.(zeropad := true) else d.flags);
    }
  }

  lemma WidthGiven(p: Spec, args: seq<Arg>)
    requires ValidSpec(p)
    ensures WidthOf(p, args) == -1 <==> p.width.Absent?
  {
  }

  /**
   %c prints a byte, %s as much of a string as width and precision allow, %p a word in hexadecimal, with eight digits
   if no width is given, %% a percent sign; any other character stands for itself behind a percent sign.
   */
  lemma PrintsOther(p: Spec, c: char, rest: seq<char>, args: seq<Arg>)
    requires ValidSpec(p) && IsConversion(c) && !IsInteger(c)
    ensures Format(['%'] + SpecThen(p, [c] + rest), args) == OtherField(p, c, args)
      + Format(rest, if c == 'c' || c == 's' || c == 'p' then Rest(ArgsAfter(p, args)) else ArgsAfter(p, args))
  {
    hide Format, TakeField, OtherField, SpecThen, ValidSpec, Directive;
    var fmt := ['%'] + SpecThen(p, [c] + rest);
    HeadOf(['%'], SpecThen(p, [c] + rest));
    OtherDirective(p, c, rest, args);
    DirectiveAt(fmt, args);
    assert fmt[1..] == SpecThen(p, [c] + rest);
  }

  /** A percent sign at the end of the format prints itself. */
  lemma LonePercent(args: seq<Arg>)
    ensures Format("%", args) == "%"
  {
    hide Format;
    assert "%"[1..] == "" && TakeFlags("", NOFLAGS) == (NOFLAGS, "");
    DirectiveAt("%", args);
    FormatEnd("", args, []);
  }

  // ---- Two formats spelled out ----

  lemma FortyTwo()
    ensures Numeral(42, 10, false) == "42" && Numeral(5, 10, false) == "5"
  {
    NumeralTwo(4, 2);
    assert HighFirst(5, 10, false) == HighFirst(0, 10, false) + ['5'];
  }

  lemma NumeralTwo(a: nat, b: nat)
    requires 0 < a < 10 && b < 10
    ensures Numeral(10 * a + b, 10, false) == [DigitChar(a, false), DigitChar(b, false)]
  {
    hide DigitChar;
    var n := 10 * a + b;
    assert n / 10 == a && n % 10 == b && a / 10 == 0 && a % 10 == a;
    assert HighFirst(a, 10, false) == HighFirst(0, 10, false) + [DigitChar(a, false)];
  }

  /** Zeros in front under '0', blanks behind under '-', and '-' wins over '0'. */
  lemma PadsFortyTwo(args: seq<Arg>)
    ensures Format("%05d", [Word(42)] + args) == "00042"
    ensures Format("%-5d", [Word(42)] + args) == "42   "
    ensures Format("%-05d", [Word(42)] + args) == "42   "
  {
    hide Format;
    PadsOne("0", args);
    PadsOne("-", args);
    PadsOne("-0", args);
    assert "%" + "0" + "5d" == "%05d" && "%" + "-" + "5d" == "%-5d" && "%" + "-0" + "5d" == "%-05d";
  }

  lemma PadsOne(flags: seq<char>, args: seq<Arg>)
    requires flags == "0" || flags == "-" || flags == "-0"
    ensures Format("%" + flags + "5d", [Word(42)] + args) == if flags == "0" then "00042" else "42   "
  {
    hide Format, Numeral, Laid;
    var p, a := Spec(flags, Number(5), false, Absent, '\0'), [Word(42)] + args;
    FortyTwo();
    PrintsInteger(p, 'd', [], a);
    assert "%" + flags + "5d" == ['%'] + SpecThen(p, ['d'] + []);
    FormatEnd([], Rest(a), []);
    assert a[0] == Word(42);
    assert DigitsOf(42, 10, false, -1) == "42";
    LaidFive(flags != "0", '0' in flags);
  }

  lemma LaidFive(left: bool, zero: bool)
    ensures Laid([], "42", 3, left, zero) == if left then "42   " else if zero then "00042" else "   42"
  {
  }
}
