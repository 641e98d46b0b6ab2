/**
 Integers and strings as section 7.21.6.1 of ISO/IEC 9899:2011 asks for them to be printed, and exactly when
 lib/printf/printf.c prints them so.
 */
module PrintfStandard {
  import opened Numbers
  import opened Options
  import opened PrintfText

  /** No 64-bit number has more digits in base 8 or above. */
  const LONGEST: nat := 22

  // ---------------------------------------------------------------------------------------------
  // The standard's reading of a conversion specification

  /**
   Flags, width and precision, the number of values of the argument's type, and the positions reached.  A negative
   argument for the precision is taken as if the precision were omitted: it is `withdrawn`.
   */
  datatype Reading = Reading(
    flags: Flags, width: nat, precision: Option<nat>, withdrawn: bool, bound: nat, i: nat, j: nat)

  /** A number as it is written, however large. */
  function Number(format: string, i: nat, n: nat): (r: (nat, nat))
    decreases |format| - i
  {
    if IsDigit(At(format, i)) then Number(format, i + 1, n * 10 + DigitValue(At(format, i))) else (n, i)
  }

  predicate IsFlag(c: char) {
    c == '-' || c == '+' || c == ' ' || c == '#' || c == '0'
  }

  /** How many flag characters follow, in whatever order and however often. */
  function FlagCount(format: string, i: nat): (n: nat)
    ensures n > 0 ==> i + n <= |format|
    decreases |format| - i
  {
    if i < |format| && IsFlag(format[i]) then 1 + FlagCount(format, i + 1) else 0
  }

  function ReadFlags(format: string, i: nat): Flags {
    var n := FlagCount(format, i);
    var run := if n == 0 then "" else format[i..i + n];
    NO_FLAGS.(left := '-' in run, plus := '+' in run, space := ' ' in run, hash := '#' in run, zeroPad := '0' in run)
  }

  function ReadWidth(format: string, args: seq<Arg>, r: Reading): Option<Reading> {
    if IsDigit(At(format, r.i)) then
      var (n, i) := Number(format, r.i, 0);
      Some(r.(width := n, i := i))
    else if At(format, r.i) == '*' then
      match WordAt(args, r.j)
      case None => None
      case Some(v) =>
        var w := Signed(v, TWO32);
        if w < 0 then Some(r.(flags := r.flags.(left := true), width := -w, i := r.i + 1, j := r.j + 1))
        else Some(r.(width := w, i := r.i + 1, j := r.j + 1))
    else Some(r)
  }

  function ReadPrecision(format: string, args: seq<Arg>, r: Reading): Option<Reading> {
    if At(format, r.i) != '.' then Some(r)
    else if IsDigit(At(format, r.i + 1)) then
      var (n, i) := Number(format, r.i + 1, 0);
      Some(r.(precision := Some(n), i := i))
    else if At(format, r.i + 1) == '*' then
      match WordAt(args, r.j)
      case None => None
      case Some(v) =>
        var p := Signed(v, TWO32);
        if p < 0 then Some(r.(withdrawn := true, i := r.i + 2, j := r.j + 1))
        else Some(r.(precision := Some(p), i := r.i + 2, j := r.j + 1))
    else Some(r.(precision := Some(0), i := r.i + 1))
  }

  function ReadLength(format: string, r: Reading): Reading {
    var first, second := At(format, r.i), At(format, r.i + 1);
    r.(bound := StandardBound(first, second), i := r.i + ModifierChars(first, second))
  }

  /** `hh`, `h`, `l`, `ll`, `j`, `z` or `t` */
  function ModifierChars(first: char, second: char): nat {
    if first == second && (first == 'h' || first == 'l') then 2
    else if first == 'h' || first == 'l' || first == 'j' || first == 'z' || first == 't' then 1
    else 0
  }

  function ReadSpec(format: string, args: seq<Arg>, i: nat, j: nat): Option<Reading> {
    var flags, i' := ReadFlags(format, i), i + FlagCount(format, i);
    match ReadWidth(format, args, Reading(flags, 0, None, false, TWO32, i', j))
    case None => None
    case Some(r) =>
      match ReadPrecision(format, args, r)
      case None => None
      case Some(t) => Some(ReadLength(format, t))
  }

  /** The argument, converted to the type that the length modifier names */
  function ReadArg(signed: bool, r: Reading, args: seq<Arg>): Option<int>
    requires r.bound > 0
  {
    match if r.bound == TWO64 then DoubleWordAt(args, r.j) else WordAt(args, r.j)
    case None => None
    case Some(v) => Some(if signed then Signed(v, r.bound) else v % r.bound)
  }

  // ---------------------------------------------------------------------------------------------
  // The standard's text of an integer

  predicate IsInteger(c: char) {
    c in {'d', 'i', 'u', 'x', 'X', 'o'}
  }

  predicate IsSigned(c: char) {
    c == 'd' || c == 'i'
  }

  /** The digits of a number; zero has none of its own. */
  function Numeral(value: nat, symbols: string): string
    requires |symbols| >= 2
    decreases value
  {
    if value == 0 then "" else Numeral(value / |symbols|, symbols) + [symbols[value % |symbols|]]
  }

  /** The digits of each conversion, by value */
  function Symbols(c: char): (s: string)
    ensures 2 <= |s| <= 16
  {
    if c == 'o' then "01234567"
    else if c == 'x' then "0123456789abcdef"
    else if c == 'X' then "0123456789ABCDEF"
    else "0123456789"
  }

  function Magnitude(v: int): nat {
    if v < 0 then -v else v
  }

  function DigitsOf(c: char, v: int): string {
    Numeral(Magnitude(v), Symbols(c))
  }

  /** `+` takes precedence over a blank. */
  function Sign(negative: bool, flags: Flags): string {
    if negative then "-" else if flags.plus then "+" else if flags.space then " " else ""
  }

  /** The sign, for signed conversions, and `0x` or `0X`, for hexadecimal ones with `#` of anything but zero */
  function Front(c: char, r: Reading, v: int): string {
    (if IsSigned(c) then Sign(v < 0, r.flags) else "")
    + if r.flags.hash && v != 0 && c == 'x' then "0x" else if r.flags.hash && v != 0 && c == 'X' then "0X" else ""
  }

  /** `0` is ignored beside `-` and beside a precision. */
  predicate ZeroPads(r: Reading) {
    r.flags.zeroPad && !r.flags.left && r.precision.None?
  }

  /** With `#` the first digit of an octal number must be zero. */
  predicate LeadsWithZero(c: char, r: Reading) {
    r.flags.hash && c == 'o'
  }

  /** How many digits are asked for: those of the number, the precision, which is 1 by default, and the width with `0`. */
  function DigitCount(digits: nat, front: nat, precision: nat, pads: bool, width: nat, leads: bool): (n: nat)
    ensures n >= digits
  {
    var n := Max(digits, Max(precision, if pads then width - front else 0));
    if leads && n == digits then n + 1 else n
  }

  function Count(c: char, r: Reading, v: int, pads: bool): (n: nat)
    ensures n >= |DigitsOf(c, v)|
  {
    DigitCount(|DigitsOf(c, v)|, |Front(c, r, v)|, if r.precision.Some? then r.precision.value else 1, pads, r.width,
               LeadsWithZero(c, r))
  }

  function Blanked(body: string, width: nat, left: bool): string {
    if left then body + Repeat(' ', width - |body|) else Repeat(' ', width - |body|) + body
  }

  function StandardInteger(c: char, r: Reading, v: int): string {
    Blanked(Body(Front(c, r, v), DigitsOf(c, v), Count(c, r, v, ZeroPads(r))), r.width, r.flags.left)
  }

  // ---------------------------------------------------------------------------------------------
  // When the code prints it

  /**
   Sign, prefix and digits fit the digit buffer; or the digits just do, and the sign that does not is a blank that the
   padding makes up for.
   */
  predicate RoomFor(c: char, r: Reading, v: int) {
    var n, front := Count(c, r, v, ZeroPads(r)), Front(c, r, v);
    n + |front| <= ROOM || (n == ROOM && front == " " && !r.flags.left && !ZeroPads(r) && r.width > ROOM)
  }

  /** A withdrawn precision, which the code takes for 0, makes no difference. */
  predicate WithdrawnIsHarmless(c: char, r: Reading, v: int) {
    (v != 0 || LeadsWithZero(c, r)) && Count(c, r, v, ZeroPads(r)) == Count(c, r, v, false)
  }

  predicate AsAsked(c: char, r: Reading, v: int) {
    && r.width < TWO32 && (r.precision.Some? ==> r.precision.value < TWO32)
    && RoomFor(c, r, v)
    && (r.withdrawn ==> WithdrawnIsHarmless(c, r, v))
  }

  // Numerals

  /** The digits that the code has are those of the numeral. */
  lemma DigitCharIs(d: nat, upper: bool)
    requires d < 16
    ensures DigitChar(d, upper) == (if upper then "0123456789ABCDEF" else "0123456789abcdef")[d]
  {
  }

  lemma SymbolsAre(c: char, d: nat)
    requires IsInteger(c)
    ensures |Symbols(c)| == BaseOf(c) && (d < BaseOf(c) ==> Symbols(c)[d] == DigitChar(d, c == 'X'))
  {
    if d < BaseOf(c) {
      DigitCharIs(d, c == 'X');
    }
  }

  lemma {:induction false} NumeralIs(value: nat, c: char, room: nat)
    requires IsInteger(c) && value < Power(BaseOf(c), room)
    ensures Numeral(value, Symbols(c)) == Reversed(ReversedDigits(value, BaseOf(c), c == 'X', room))
    ensures |Numeral(value, Symbols(c))| <= room
    decreases room
  {
    hide Reversed, DigitChar, Power, Symbols, BaseOf, IsInteger;
    var base := BaseOf(c);
    PowerStep(base, room);
    SymbolsAre(c, value % base);
    if value == 0 {
      ReversedShort("");
    } else {
      QuotientFits(value, base, Power(base, room - 1));
      NumeralIs(value / base, c, room - 1);
      ReversedCons(DigitChar(value % base, c == 'X'), ReversedDigits(value / base, base, c == 'X', room - 1));
    }
  }

  predicate OnlyDigits(s: string) {
    forall k :: 0 <= k < |s| ==> s[k] in "0123456789abcdefABCDEF"
  }

  lemma {:induction false} NumeralDigits(value: nat, symbols: string)
    requires |symbols| >= 2 && OnlyDigits(symbols)
    ensures OnlyDigits(Numeral(value, symbols)) && (value != 0 <==> Numeral(value, symbols) != "")
    decreases value
  {
    if value != 0 {
      NumeralDigits(value / |symbols|, symbols);
    }
  }

  lemma SymbolsDigits(c: char)
    ensures OnlyDigits(Symbols(c))
  {
    forall k | 0 <= k < |Symbols(c)| ensures Symbols(c)[k] in "0123456789abcdefABCDEF" {
      assert Symbols(c)[k] == "0123456789abcdefABCDEF"[if c == 'X' && k >= 10 then k + 6 else k];
    }
  }

  /** 22 digits are enough for 64 bits in base 8 and above. */
  lemma LongestIs(base: nat)
    requires base >= 8
    ensures TWO64 <= Power(base, LONGEST)
  {
    assert Power(8, 4) == 4096;
    PowerSum(8, 4, 4);
    PowerSum(8, 8, 8);
    PowerSum(8, 16, 4);
    PowerSum(8, 20, 2);
    PowerMonotone(8, base, LONGEST);
  }

  lemma DigitsFacts(c: char, v: int)
    requires IsInteger(c) && Magnitude(v) < TWO64
    ensures |DigitsOf(c, v)| <= LONGEST && OnlyDigits(DigitsOf(c, v)) && (v != 0 <==> DigitsOf(c, v) != "")
    ensures DigitsOf(c, v) == Reversed(ReversedDigits(Magnitude(v), BaseOf(c), c == 'X', ROOM))
  {
    hide Numeral, Power, Reversed, ReversedDigits, OnlyDigits;
    LongestIs(BaseOf(c));
    EnoughRoom(BaseOf(c));
    NumeralIs(Magnitude(v), c, LONGEST);
    NumeralIs(Magnitude(v), c, ROOM);
    SymbolsDigits(c);
    NumeralDigits(Magnitude(v), Symbols(c));
  }

  // Texts with the same digits

  /** Where the digits and their zeros are, there is nothing else. */
  lemma BodyDigits(front: string, d: string, n: nat, k: nat)
    requires |d| <= n && OnlyDigits(d) && |front| <= k < |front| + n
    ensures |Body(front, d, n)| == |front| + n && OnlyDigits([Body(front, d, n)[k]])
    ensures Body(front, d, n)[k] !in {' ', '+', '-', 'x', 'X'}
  {
    var c := Body(front, d, n)[k];
    assert c == if k < |front| + n - |d| then '0' else d[k - (|front| + n - |d|)];
    assert '0' == "0123456789abcdefABCDEF"[0];
  }

  lemma BodyLength(front: string, d: string, n: nat)
    requires |d| <= n
    ensures |Body(front, d, n)| == |front| + n
  {
  }

  /** Where `0` has filled the width with zeros, there is no room for blanks. */
  lemma FilledUp(body: string, width: nat, flags: Flags)
    requires flags.zeroPad && !flags.left ==> |body| >= width
    ensures Padded(body, width, flags) == Blanked(body, width, flags.left)
  {
    if flags.zeroPad && !flags.left {
      assert Repeat(' ', width - |body|) == "" && "" + body == body;
    }
  }

  /** Padding makes up for a shorter body exactly if it is blanks in front that are missing. */
  lemma ShorterBody(a: string, b: string, width: nat, flags: Flags)
    requires |a| < |b| && b[|b| - 1] != ' '
    ensures Padded(a, width, flags) == Blanked(b, width, flags.left)
            <==> !flags.left && !flags.zeroPad && width >= |b| && b == Repeat(' ', |b| - |a|) + a
  {
    var text, other := Padded(a, width, flags), Blanked(b, width, flags.left);
    if flags.left {
      if width >= |b| {
        assert text[|b| - 1] == ' ' && other[|b| - 1] == b[|b| - 1];
      }
    } else if !flags.zeroPad && width >= |b| {
      var blanks := Repeat(' ', |b| - |a|);
      BlanksJoin(width - |b|, |b| - |a|, a);
      assert text == Repeat(' ', width - |b|) + (blanks + a) && other == Repeat(' ', width - |b|) + b;
      SameTail(Repeat(' ', width - |b|), blanks + a, b);
    }
  }

  lemma BlanksJoin(m: nat, n: nat, s: string)
    ensures Repeat(' ', m + n) + s == Repeat(' ', m) + (Repeat(' ', n) + s)
  {
  }

  lemma SameTail(front: string, a: string, b: string)
    requires |a| == |b|
    ensures front + a == front + b <==> a == b
  {
    if front + a == front + b {
      assert a == (front + a)[|front|..] == (front + b)[|front|..] == b;
    }
  }

  // Without a prefix

  /** The code's digits are those asked for as far as there is room, and the sign as well. */
  lemma PlainExactly(sign: string, d: string, n: nat, width: nat, flags: Flags)
    requires |d| <= Min(n, ROOM) && OnlyDigits(d) && sign in {"", "-", "+", " "}
    requires flags.zeroPad && !flags.left ==> n + |sign| >= width
    ensures var k := Min(n, ROOM);
            Padded(Body(if k < ROOM then sign else "", d, k), width, flags) == Blanked(Body(sign, d, n), width, flags.left)
            <==> n + |sign| <= ROOM || (n == ROOM && sign == " " && !flags.left && !flags.zeroPad && width > ROOM)
  {
    hide OnlyDigits, Padded, Blanked, Body;
    BodyLength(sign, d, n);
    if n + |sign| <= ROOM {
      FilledUp(Body(sign, d, n), width, flags);
    } else {
      var a, b := Body("", d, ROOM), Body(sign, d, n);
      BodyLength("", d, ROOM);
      BodyDigits(sign, d, n, |sign| + n - 1);
      ShorterBody(a, b, width, flags);
      SignOrMore(sign, d, n);
    }
  }

  /** What is missing is a blank exactly if it is the sign and is one. */
  lemma SignOrMore(sign: string, d: string, n: nat)
    requires |d| <= ROOM <= n && n + |sign| > ROOM && OnlyDigits(d) && sign in {"", "-", "+", " "}
    ensures var a, b := Body("", d, ROOM), Body(sign, d, n);
            |b| > |a| && (b == Repeat(' ', |b| - |a|) + a <==> n == ROOM && sign == " ")
  {
    var a, b := Body("", d, ROOM), Body(sign, d, n);
    if n == ROOM && sign == " " {
      assert b == " " + a;
    } else if b == Repeat(' ', |b| - |a|) + a {
      assert b[0] == ' ' && b[|b| - |a| - 1] == ' ';
      BodyDigits(sign, d, n, if sign == "" then 0 else |b| - |a| - 1);
    }
  }

  // With a prefix

  /** The flags that `print_integer` is called with, for what the standard reads */
  predicate Took(c: char, r: Reading, flags: Flags) {
    && flags.left == r.flags.left && flags.zeroPad == (r.flags.zeroPad && r.precision.None?)
    && flags.hash == (r.flags.hash && BaseOf(c) != 10) && flags.upper == (c == 'X')
    && flags.precision == r.precision.Some? && !flags.pointer
    && flags.plus == (IsSigned(c) && r.flags.plus) && flags.space == (IsSigned(c) && r.flags.space)
  }

  function PrecisionOf(r: Reading): nat {
    if r.precision.Some? then r.precision.value else 0
  }

  /** In hexadecimal the zeros taken back are those that `0x` needs of the width. */
  lemma HexLayout(digits: nat, precision: nat, width: nat, flags: Flags)
    requires 1 <= digits <= LONGEST && flags.hash && !flags.pointer && !flags.plus && !flags.space
    requires flags.zeroPad ==> !flags.precision
    requires !flags.precision ==> precision == 0
    ensures var n := DigitCount(digits, 2, if flags.precision then precision else 1, flags.zeroPad && !flags.left, width,
                                false);
            n + 2 <= ROOM ==> Layout(digits, false, 16, precision, width, flags) == (if flags.upper then "0X" else "0x", n)
  {
    hide Layout;
    var n := DigitCount(digits, 2, if flags.precision then precision else 1, flags.zeroPad && !flags.left, width, false);
    if n + 2 <= ROOM {
      var m := Min(WantedDigits(digits, 0, precision, width, flags), ROOM);
      assert TakenBack(m, digits, 16, precision, width, flags) == n;
      assert Mark(n, 16, flags) == if flags.upper then "0X" else "0x";
      MarkedLayout(digits, 16, precision, width, flags);
      assert "" + Mark(n, 16, flags) == Mark(n, 16, flags);
    }
  }

  lemma MarkedLayout(digits: nat, base: nat, precision: nat, width: nat, flags: Flags)
    requires digits <= ROOM && !flags.plus && !flags.space
    ensures var n := Min(WantedDigits(digits, 0, precision, width, flags), ROOM);
            var k := TakenBack(n, digits, base, precision, width, flags);
            Layout(digits, false, base, precision, width, flags)
            == if Marks(n, digits, base, flags) then ("" + Mark(k, base, flags), k) else ("", n)
  {
    hide WantedDigits, Marks, Mark, TakenBack;
  }

  lemma HexExactly(d: string, precision: nat, width: nat, flags: Flags)
    requires 1 <= |d| <= LONGEST && OnlyDigits(d) && flags.hash && !flags.pointer && !flags.plus && !flags.space
    requires flags.zeroPad ==> !flags.precision
    requires !flags.precision ==> precision == 0
    ensures var n := DigitCount(|d|, 2, if flags.precision then precision else 1, flags.zeroPad && !flags.left, width,
                                false);
            var (front, k) := Layout(|d|, false, 16, precision, width, flags);
            Padded(Body(front, d, k), width, flags)
            == Blanked(Body(if flags.upper then "0X" else "0x", d, n), width, flags.left)
            <==> n + 2 <= ROOM
  {
    hide OnlyDigits, Padded, Blanked, Body, Layout;
    var n := DigitCount(|d|, 2, if flags.precision then precision else 1, flags.zeroPad && !flags.left, width, false);
    var (front, k) := Layout(|d|, false, 16, precision, width, flags);
    var mark := if flags.upper then "0X" else "0x";
    HexLayout(|d|, precision, width, flags);
    BodyLength(mark, d, n);
    if n + 2 <= ROOM {
      FilledUp(Body(mark, d, n), width, flags);
    } else {
      BodyLength(front, d, k);
      BodyDigits(mark, d, n, n + 1);
      ShorterBody(Body(front, d, k), Body(mark, d, n), width, flags);
      BodyStart(mark, d, n);
    }
  }

  lemma BodyStart(front: string, d: string, n: nat)
    requires front != "" && front[0] != ' '
    ensures Body(front, d, n) != "" && forall k: nat, a: string :: k > 0 ==> Body(front, d, n) != Repeat(' ', k) + a
  {
    assert Body(front, d, n)[0] == front[0];
    forall k: nat, a: string | k > 0 ensures Body(front, d, n) != Repeat(' ', k) + a {
      assert (Repeat(' ', k) + a)[0] == ' ';
    }
  }

  /** In octal the zero is either among those already there, or the prefix. */
  lemma OctalExactly(d: string, precision: nat, width: nat, flags: Flags)
    requires |d| <= LONGEST && OnlyDigits(d) && flags.hash && !flags.pointer && !flags.plus && !flags.space
    requires d == "" ==> flags.precision
    requires flags.zeroPad ==> !flags.precision
    requires !flags.precision ==> precision == 0
    ensures var n := DigitCount(|d|, 0, if flags.precision then precision else 1, flags.zeroPad && !flags.left, width,
                                true);
            var (front, k) := Layout(|d|, false, 8, precision, width, flags);
            Padded(Body(front, d, k), width, flags) == Blanked(Body("", d, n), width, flags.left) <==> n <= ROOM
  {
    hide OnlyDigits, Padded, Blanked, Body, Layout;
    var n := DigitCount(|d|, 0, if flags.precision then precision else 1, flags.zeroPad && !flags.left, width, true);
    MarkedLayout(|d|, 8, precision, width, flags);
    if WantedDigits(|d|, 0, precision, width, flags) > |d| {
      PlainExactly("", d, n, width, flags);
    } else {
      assert Mark(|d|, 8, flags) == "0" && "" + "0" == "0";
      ZeroInFront(d);
      BodyLength("", d, n);
      FilledUp(Body("", d, n), width, flags);
    }
  }

  lemma ZeroInFront(d: string)
    ensures Body("0", d, |d|) == Body("", d, |d| + 1)
  {
    assert Repeat('0', 0) == "" && Repeat('0', 1) == "0";
    assert "0" + "" == "0" && "" + "0" == "0";
  }

  // All conversions

  /** A number in octal or hexadecimal that `#` makes a difference to */
  predicate Alternative(c: char, v: int, flags: Flags) {
    flags.hash && (v != 0 || (c == 'o' && flags.precision))
  }

  lemma ZeroDigit(front: string, n: nat)
    requires n >= 1
    ensures Body(front, "0", n) == Body(front, "", n) && Reversed("0") == "0" && Reversed("") == ""
  {
    ReversedShort("0");
    ReversedShort("");
  }

  /** What `print_integer` starts with is the numeral, or `0`. */
  lemma Starts(c: char, r: Reading, v: int, flags: Flags)
    requires IsInteger(c) && Magnitude(v) < TWO64 && Took(c, r, flags)
    ensures !flags.pointer
    ensures var (digits, flags') := StartDigits(Magnitude(v), BaseOf(c), flags);
            && (v == 0 && !flags.precision ==> digits == "0")
            && (v != 0 || flags.precision ==> Reversed(digits) == DigitsOf(c, v) && |digits| == |DigitsOf(c, v)|)
            && (Alternative(c, v, flags) ==> flags' == flags)
            && (!Alternative(c, v, flags) ==> flags' == flags.(hash := false))
  {
    hide Reversed, ReversedDigits, DigitsOf, OnlyDigits;
    DigitsFacts(c, v);
    ReversedShort("");
  }

  lemma FrontIsSign(c: char, r: Reading, v: int, flags: Flags)
    requires IsInteger(c) && Took(c, r, flags) && !Alternative(c, v, flags) && (!IsSigned(c) ==> v >= 0)
    ensures Front(c, r, v) == SignText(v < 0, flags)
  {
    EmptySum(SignText(v < 0, flags));
  }

  /** The code wants as many digits as the standard asks for, `0` being one. */
  lemma CountIsWanted(c: char, r: Reading, v: int, flags: Flags)
    requires IsInteger(c) && (!IsSigned(c) ==> v >= 0) && Took(c, r, flags) && !Alternative(c, v, flags)
    requires v != 0 <==> DigitsOf(c, v) != ""
    ensures var digits := if v == 0 && !flags.precision then 1 else |DigitsOf(c, v)|;
            Count(c, r, v, ZeroPads(r))
            == WantedDigits(digits, |SignText(v < 0, flags)|, PrecisionOf(r), r.width, flags)
  {
    hide DigitsOf, Front, SignText;
    FrontIsSign(c, r, v, flags);
  }

  lemma PlainText(c: char, r: Reading, v: int, flags: Flags)
    requires IsInteger(c) && Magnitude(v) < TWO64 && (!IsSigned(c) ==> v >= 0)
    requires Took(c, r, flags) && !Alternative(c, v, flags)
    ensures var k := Min(Count(c, r, v, ZeroPads(r)), ROOM);
            && |DigitsOf(c, v)| <= k
            && IntegerText(Magnitude(v), v < 0, BaseOf(c), PrecisionOf(r), r.width, flags)
               == Padded(Body(if k < ROOM then SignText(v < 0, flags) else "", DigitsOf(c, v), k), r.width, flags)
  {
    hide Reversed, StartDigits, IntegerText, Layout, Padded, Body, DigitsOf, OnlyDigits, SignText, Count, WantedDigits,
         Took, Alternative, BaseOf;
    DigitsFacts(c, v);
    Starts(c, r, v, flags);
    IntegerShape(Magnitude(v), v < 0, BaseOf(c), PrecisionOf(r), r.width, flags);
    var (digits, flags') := StartDigits(Magnitude(v), BaseOf(c), flags);
    var k := Min(Count(c, r, v, ZeroPads(r)), ROOM);
    var shown := if k < ROOM then SignText(v < 0, flags) else "";
    CountIsWanted(c, r, v, flags);
    PlainLayout(|digits|, v < 0, BaseOf(c), PrecisionOf(r), r.width, flags, flags');
    if digits == "0" {
      ZeroDigit(shown, k);
    }
    SamePadding(Body(shown, DigitsOf(c, v), k), r.width, flags, flags');
  }

  lemma PlainLayout(digits: nat, negative: bool, base: nat, precision: nat, width: nat, flags: Flags, bare: Flags)
    requires digits <= ROOM && bare == flags.(hash := false) && !flags.pointer
    ensures var sign := SignText(negative, flags);
            var k := Min(WantedDigits(digits, |sign|, precision, width, flags), ROOM);
            Layout(digits, negative, base, precision, width, bare) == (if k < ROOM then sign else "", k)
  {
  }

  lemma PlainCase(c: char, r: Reading, v: int, flags: Flags)
    requires IsInteger(c) && Magnitude(v) < TWO64 && (!IsSigned(c) ==> v >= 0)
    requires Took(c, r, flags) && !Alternative(c, v, flags)
    ensures IntegerText(Magnitude(v), v < 0, BaseOf(c), PrecisionOf(r), r.width, flags) == StandardInteger(c, r, v)
            <==> RoomFor(c, r, v)
  {
    hide IntegerText, Padded, Blanked, Body, DigitsOf, OnlyDigits, SignText, DigitCount, Front;
    PlainText(c, r, v, flags);
    DigitsFacts(c, v);
    FrontIsSign(c, r, v, flags);
    SignIsShort(v < 0, flags);
    WidthFilled(c, r, v);
    PlainExactly(SignText(v < 0, flags), DigitsOf(c, v), Count(c, r, v, ZeroPads(r)), r.width, flags);
  }

  lemma WidthFilled(c: char, r: Reading, v: int)
    ensures ZeroPads(r) ==> Count(c, r, v, ZeroPads(r)) + |Front(c, r, v)| >= r.width
  {
    hide DigitsOf, Front;
  }

  lemma SamePadding(body: string, width: nat, a: Flags, b: Flags)
    requires a.left == b.left && a.zeroPad == b.zeroPad
    ensures Padded(body, width, a) == Padded(body, width, b)
  {
  }

  lemma HexCase(c: char, r: Reading, v: int, flags: Flags)
    requires c in {'x', 'X'} && 0 < v < TWO64 && Took(c, r, flags) && flags.hash
    ensures IntegerText(v, false, 16, PrecisionOf(r), r.width, flags) == StandardInteger(c, r, v) <==> RoomFor(c, r, v)
  {
    hide Reversed, ReversedDigits, StartDigits, IntegerText, Layout, Padded, Blanked, Body, Numeral, OnlyDigits;
    DigitsFacts(c, v);
    Starts(c, r, v, flags);
    IntegerShape(v, false, 16, PrecisionOf(r), r.width, flags);
    assert Front(c, r, v) == if c == 'X' then "0X" else "0x";
    HexExactly(DigitsOf(c, v), PrecisionOf(r), r.width, flags);
  }

  lemma OctalCase(r: Reading, v: int, flags: Flags)
    requires 0 <= v < TWO64 && Took('o', r, flags) && Alternative('o', v, flags)
    ensures IntegerText(v, false, 8, PrecisionOf(r), r.width, flags) == StandardInteger('o', r, v) <==> RoomFor('o', r, v)
  {
    hide Reversed, ReversedDigits, StartDigits, IntegerText, Layout, Padded, Blanked, Body, Numeral, OnlyDigits;
    DigitsFacts('o', v);
    Starts('o', r, v, flags);
    IntegerShape(v, false, 8, PrecisionOf(r), r.width, flags);
    assert Front('o', r, v) == "";
    OctalExactly(DigitsOf('o', v), PrecisionOf(r), r.width, flags);
  }

  /** `print_integer`, called with what the standard reads, prints what it asks for if and only if there is room. */
  lemma PrintsAsAsked(c: char, r: Reading, v: int, flags: Flags)
    requires IsInteger(c) && Magnitude(v) < TWO64 && (!IsSigned(c) ==> v >= 0) && Took(c, r, flags)
    ensures IntegerText(Magnitude(v), v < 0, BaseOf(c), PrecisionOf(r), r.width, flags) == StandardInteger(c, r, v)
            <==> RoomFor(c, r, v)
  {
    hide IntegerText, StandardInteger, RoomFor;
    if Alternative(c, v, flags) {
      if c == 'o' {
        OctalCase(r, v, flags);
      } else {
        HexCase(c, r, v, flags);
      }
    } else {
      PlainCase(c, r, v, flags);
    }
  }

  /** No text of the code's is longer than its width and its digit buffer. */
  lemma TextIsShort(value: nat, negative: bool, base: nat, precision: nat, width: nat, flags: Flags)
    requires 2 <= base <= 16
    ensures |IntegerText(value, negative, base, precision, width, flags)| <= Max(width, ROOM)
  {
    hide StartDigits, IntegerText, Layout, Padded, Body;
    IntegerShape(value, negative, base, precision, width, flags);
    var (digits, flags') := StartDigits(value, base, flags);
    var (front, n) := Layout(|digits|, negative, base, precision, width, flags');
    BodyLength(front, Reversed(digits), n);
    NotLonger(Body(front, Reversed(digits), n), width, flags');
  }

  lemma NotLonger(body: string, width: nat, flags: Flags)
    ensures |Padded(body, width, flags)| <= Max(width, |body|)
  {
  }

  lemma StandardIsLong(c: char, r: Reading, v: int)
    ensures |StandardInteger(c, r, v)| >= r.width
    ensures r.precision.Some? ==> |StandardInteger(c, r, v)| >= r.precision.value
  {
    hide DigitsOf, Front;
    BodyLength(Front(c, r, v), DigitsOf(c, v), Count(c, r, v, ZeroPads(r)));
  }

  // ---------------------------------------------------------------------------------------------
  // Precisions withdrawn

  /** What the code takes a withdrawn precision for */
  function AsTaken(r: Reading): Reading {
    if r.withdrawn then r.(precision := Some(0), withdrawn := false) else r
  }

  lemma WithdrawnCounts(c: char, r: Reading, v: int)
    requires r.withdrawn && r.precision.None? && (v != 0 <==> DigitsOf(c, v) != "")
    ensures var n, m := Count(c, AsTaken(r), v, false), Count(c, r, v, ZeroPads(r));
            && n <= m && (n == m <==> WithdrawnIsHarmless(c, r, v)) && m > 0
    ensures Front(c, AsTaken(r), v) == Front(c, r, v)
  {
    hide DigitsOf;
  }

  lemma SignsAgree(negative: bool, flags: Flags)
    ensures Sign(negative, flags) == SignText(negative, flags)
  {
  }

  lemma FrontIsShort(c: char, r: Reading, v: int)
    requires IsInteger(c)
    ensures Front(c, r, v) in {"", "-", "+", " ", "0x", "0X"}
  {
    hide Sign, SignText;
    SignsAgree(v < 0, r.flags);
    SignIsShort(v < 0, r.flags);
    EmptySum(Sign(v < 0, r.flags));
    EmptySum("");
    EmptySum("0x");
    EmptySum("0X");
  }

  lemma NotBlanks(front: string, d: string, n: nat, m: nat)
    requires |d| <= n < m && OnlyDigits(d) && front in {"", "-", "+", " ", "0x", "0X"}
    ensures Body(front, d, m) != Repeat(' ', m - n) + Body(front, d, n)
  {
    var a, b := Body(front, d, n), Body(front, d, m);
    var other := Repeat(' ', m - n) + a;
    if front == " " {
      BodyDigits(front, d, m, m - n);
      assert other[m - n] == a[0] == ' ';
    } else {
      BodyDigits(front, d, m, |front|);
      assert other[0] == ' ' && b[0] != ' ';
    }
  }

  /** Precision 0 in place of none makes another text, unless it makes no difference to the digits. */
  lemma WithdrawnExactly(c: char, r: Reading, v: int)
    requires IsInteger(c) && Magnitude(v) < TWO64 && r.withdrawn && r.precision.None?
    ensures StandardInteger(c, AsTaken(r), v) == StandardInteger(c, r, v) <==> WithdrawnIsHarmless(c, r, v)
    ensures RoomFor(c, AsTaken(r), v) && (WithdrawnIsHarmless(c, r, v) ==> RoomFor(c, r, v))
  {
    hide DigitsOf, Front, OnlyDigits, Blanked, Body, WithdrawnIsHarmless, Count;
    DigitsFacts(c, v);
    WithdrawnCounts(c, r, v);
    FrontIsShort(c, r, v);
    var n, m := Count(c, AsTaken(r), v, false), Count(c, r, v, ZeroPads(r));
    WithdrawnRoom(c, r, v);
    if n < m {
      MoreZeros(Front(c, r, v), DigitsOf(c, v), n, m, r.width, r.flags.left);
    }
  }

  lemma WithdrawnRoom(c: char, r: Reading, v: int)
    requires IsInteger(c) && Magnitude(v) < TWO64 && r.withdrawn && r.precision.None?
    ensures RoomFor(c, AsTaken(r), v) && (WithdrawnIsHarmless(c, r, v) ==> RoomFor(c, r, v))
  {
    hide DigitsOf, Front, OnlyDigits;
    DigitsFacts(c, v);
    FrontIsShort(c, r, v);
    WithdrawnCounts(c, r, v);
  }

  lemma MoreZeros(front: string, d: string, n: nat, m: nat, width: nat, left: bool)
    requires |d| <= n < m && OnlyDigits(d) && front in {"", "-", "+", " ", "0x", "0X"}
    ensures Blanked(Body(front, d, n), width, left) != Blanked(Body(front, d, m), width, left)
  {
    hide OnlyDigits, Blanked, Padded, Body;
    var bare := NO_FLAGS.(left := left);
    FilledUp(Body(front, d, n), width, bare);
    BodyLength(front, d, n);
    BodyLength(front, d, m);
    BodyDigits(front, d, m, |front| + m - 1);
    ShorterBody(Body(front, d, n), Body(front, d, m), width, bare);
    NotBlanks(front, d, n, m);
    PaddedIsBlanked(Body(front, d, n), width, bare);
  }

  lemma PaddedIsBlanked(body: string, width: nat, flags: Flags)
    requires !flags.zeroPad
    ensures Padded(body, width, flags) == Blanked(body, width, flags.left)
  {
  }

  // ---------------------------------------------------------------------------------------------
  // The code's reading

  lemma {:induction false} NumberParsed(format: string, i: nat, n: nat)
    ensures var (m, i') := Number(format, i, n); ParsedNumber(format, i, n % TWO32) == (m % TWO32, i')
    decreases |format| - i
  {
    if IsDigit(At(format, i)) {
      NextDigit(n, DigitValue(At(format, i)));
      NumberParsed(format, i + 1, n * 10 + DigitValue(At(format, i)));
    }
  }

  lemma NextDigit(n: nat, d: nat)
    ensures (n % TWO32 * 10 + d) % TWO32 == (n * 10 + d) % TWO32
  {
    var q := n / TWO32;
    assert n * 10 + d == q * 10 * TWO32 + (n % TWO32 * 10 + d);
  }

  /** Up to the length modifier */
  predicate Matches(s: Spec, r: Reading) {
    && s.i == r.i && s.j == r.j && s.width == r.width % TWO32 && s.precision == PrecisionOf(r) % TWO32
    && s.flags == r.flags.(precision := r.precision.Some? || r.withdrawn) && !(r.precision.Some? && r.withdrawn)
  }

  lemma WidthMatches(format: string, args: seq<Arg>, s: Spec, r: Reading)
    requires Matches(s, r)
    ensures ParsedWidth(format, args, s).Some? <==> ReadWidth(format, args, r).Some?
    ensures ReadWidth(format, args, r).Some? ==>
              var t := ReadWidth(format, args, r).value;
              && Matches(ParsedWidth(format, args, s).value, t)
              && t.precision == r.precision && t.withdrawn == r.withdrawn && (Bare(r.flags) ==> Bare(t.flags))
  {
    hide ParsedNumber, Number, IsDigit, At, Matches;
    MatchesParts(s, r);
    if IsDigit(At(format, s.i)) {
      NumberParsed(format, s.i, 0);
      WidthTaken(s, r, ParsedNumber(format, s.i, 0).0, Number(format, s.i, 0).0, Number(format, s.i, 0).1, s.j);
    } else if At(format, s.i) == '*' && WordAt(args, s.j).Some? {
      var w := Signed(WordAt(args, s.j).value, TWO32);
      if w < 0 {
        LeftTaken(s, r, -w, s.i + 1, s.j + 1);
      } else {
        WidthTaken(s, r, w, w, s.i + 1, s.j + 1);
      }
    }
  }

  lemma MatchesParts(s: Spec, r: Reading)
    requires Matches(s, r)
    ensures s.i == r.i && s.j == r.j
  {
  }

  lemma WidthTaken(s: Spec, r: Reading, parsed: nat, width: nat, i: nat, j: nat)
    requires Matches(s, r) && parsed == width % TWO32
    ensures Matches(s.(width := parsed, i := i, j := j), r.(width := width, i := i, j := j))
    ensures s.j == j ==> s.(width := parsed, i := i, j := j) == s.(width := parsed, i := i)
    ensures r.j == j ==> r.(width := width, i := i, j := j) == r.(width := width, i := i)
  {
  }

  lemma LeftTaken(s: Spec, r: Reading, width: nat, i: nat, j: nat)
    requires Matches(s, r) && width < TWO32
    ensures Matches(s.(flags := s.flags.(left := true), width := width, i := i, j := j),
                    r.(flags := r.flags.(left := true), width := width, i := i, j := j))
  {
    LeftSet(s.flags, r.flags, r.precision.Some? || r.withdrawn);
  }

  lemma LeftSet(f: Flags, g: Flags, precision: bool)
    requires f == g.(precision := precision)
    ensures f.(left := true) == g.(left := true).(precision := precision)
  {
  }

  lemma PrecisionMatches(format: string, args: seq<Arg>, s: Spec, r: Reading)
    requires Matches(s, r) && r.precision.None? && !r.withdrawn
    ensures ParsedPrecision(format, args, s).Some? <==> ReadPrecision(format, args, r).Some?
    ensures ReadPrecision(format, args, r).Some? ==>
              var t := ReadPrecision(format, args, r).value;
              Matches(ParsedPrecision(format, args, s).value, t) && t.flags == r.flags
  {
    hide ParsedNumber, Number, IsDigit, At, Matches;
    MatchesParts(s, r);
    if At(format, s.i) == '.' {
      if IsDigit(At(format, s.i + 1)) {
        NumberParsed(format, s.i + 1, 0);
        var (n, i) := Number(format, s.i + 1, 0);
        PrecisionTaken(s, r, ParsedNumber(format, s.i + 1, 0).0, Some(n), i, s.j);
      } else if At(format, s.i + 1) == '*' {
        if WordAt(args, s.j).Some? {
          var p := Signed(WordAt(args, s.j).value, TWO32);
          PrecisionTaken(s, r, if p > 0 then p else 0, if p < 0 then None else Some(p), s.i + 2, s.j + 1);
        }
      } else {
        PrecisionTaken(s, r, s.precision, Some(0), s.i + 1, s.j);
      }
    }
  }

  lemma PrecisionTaken(s: Spec, r: Reading, parsed: nat, precision: Option<nat>, i: nat, j: nat)
    requires Matches(s, r) && r.precision.None? && !r.withdrawn
    requires || parsed == (if precision.Some? then precision.value % TWO32 else 0)
             || (parsed == s.precision && precision == Some(0))
    ensures Matches(s.(flags := s.flags.(precision := true), precision := parsed, i := i, j := j),
                    if precision.Some? then r.(precision := precision, i := i, j := j)
                    else r.(withdrawn := true, i := i, j := j))
    ensures s.(flags := s.flags.(precision := true), i := i, j := j).(precision := parsed)
            == s.(flags := s.flags.(precision := true), precision := parsed, i := i, j := j)
  {
  }

  /** The number of values of the argument's type, as the code takes it from the flags */
  function BoundOf(flags: Flags): nat {
    if flags.longLong then TWO64 else if flags.long then TWO32 else if flags.char_ then 0x100
    else if flags.short then 0x1_0000 else TWO32
  }

  predicate NoLength(flags: Flags) {
    !flags.char_ && !flags.short && !flags.long && !flags.longLong
  }

  /** Nothing but what the flag characters set */
  predicate Bare(flags: Flags) {
    NoLength(flags) && !flags.precision && !flags.pointer && !flags.upper
  }

  lemma LengthMatches(first: char, second: char, flags: Flags)
    requires NoLength(flags)
    ensures BoundOf(LengthFlags(first, second, flags)) == StandardBound(first, second)
  {
  }

  lemma LengthSets(first: char, second: char, flags: Flags)
    ensures var f := LengthFlags(first, second, flags);
            f == flags.(char_ := f.char_, short := f.short, long := f.long, longLong := f.longLong)
  {
  }

  function Flagged(flags: Flags, c: char): Flags {
    flags.(left := flags.left || c == '-', plus := flags.plus || c == '+', space := flags.space || c == ' ',
           hash := flags.hash || c == '#', zeroPad := flags.zeroPad || c == '0')
  }

  function WithRun(flags: Flags, run: string): Flags {
    flags.(left := flags.left || '-' in run, plus := flags.plus || '+' in run, space := flags.space || ' ' in run,
           hash := flags.hash || '#' in run, zeroPad := flags.zeroPad || '0' in run)
  }

  function FlagRun(format: string, i: nat): string {
    var n := FlagCount(format, i);
    if n == 0 then "" else format[i..i + n]
  }

  lemma RunFirst(flags: Flags, c: char, run: string)
    ensures WithRun(Flagged(flags, c), run) == WithRun(flags, [c] + run) && WithRun(flags, "") == flags
  {
    InFront('-', c, run);
    InFront('+', c, run);
    InFront(' ', c, run);
    InFront('#', c, run);
    InFront('0', c, run);
  }

  lemma InFront(d: char, c: char, run: string)
    ensures d in [c] + run <==> c == d || d in run
  {
  }

  lemma FlagTaken(c: char, flags: Flags)
    ensures FlagSet(c, flags) == if IsFlag(c) then Some(Flagged(flags, c)) else None
  {
  }

  lemma RunSplits(format: string, i: nat)
    requires i < |format| && IsFlag(format[i])
    ensures FlagCount(format, i) == 1 + FlagCount(format, i + 1)
    ensures FlagRun(format, i) == [format[i]] + FlagRun(format, i + 1)
  {
    hide IsFlag;
  }

  /** The flags found one by one are those that are somewhere among the flag characters. */
  lemma {:induction false} FlagsAgree(format: string, i: nat, flags: Flags)
    ensures ParsedFlags(format, i, flags) == (WithRun(flags, FlagRun(format, i)), i + FlagCount(format, i))
    decreases |format| - i
  {
    hide WithRun, Flagged, FlagRun, FlagCount, IsFlag, FlagSet;
    FlagTaken(At(format, i), flags);
    NoFlagAtEnd();
    if i < |format| && IsFlag(format[i]) {
      FlagsAgree(format, i + 1, Flagged(flags, format[i]));
      RunSplits(format, i);
      RunFirst(flags, format[i], FlagRun(format, i + 1));
    } else {
      RunFirst(flags, '0', "");
      NoRun(format, i);
    }
  }

  lemma NoFlagAtEnd()
    ensures !IsFlag('\0')
  {
  }

  lemma NoRun(format: string, i: nat)
    requires !(i < |format| && IsFlag(format[i]))
    ensures FlagRun(format, i) == "" && FlagCount(format, i) == 0
  {
  }

  lemma FlagsRead(format: string, i: nat)
    ensures ParsedFlags(format, i, NO_FLAGS) == (ReadFlags(format, i), i + FlagCount(format, i))
  {
    hide ParsedFlags, FlagCount;
    FlagsAgree(format, i, NO_FLAGS);
  }

  lemma ModifiersAgree(first: char, second: char)
    ensures LengthChars(first, second) == ModifierChars(first, second)
  {
  }

  lemma {:induction false} FlagsAreBare(format: string, i: nat, flags: Flags)
    requires Bare(flags)
    ensures Bare(ParsedFlags(format, i, flags).0)
    decreases |format| - i
  {
    hide FlagSet;
    FlagTaken(At(format, i), flags);
    if IsFlag(At(format, i)) {
      FlagsAreBare(format, i + 1, Flagged(flags, At(format, i)));
    }
  }

  /** What the code and the standard make of a specification */
  predicate Agree(s: Spec, r: Reading) {
    && s.i == r.i && s.j == r.j && s.width == r.width % TWO32 && s.precision == PrecisionOf(r) % TWO32
    && s.flags == r.flags.(precision := r.precision.Some? || r.withdrawn, char_ := s.flags.char_, short := s.flags.short,
                           long := s.flags.long, longLong := s.flags.longLong)
    && !(r.precision.Some? && r.withdrawn) && BoundOf(s.flags) == r.bound && !r.flags.pointer
  }

  lemma SpecsAgree(format: string, args: seq<Arg>, i: nat, j: nat)
    ensures ParsedSpec(format, args, i, j).Some? <==> ReadSpec(format, args, i, j).Some?
    ensures ReadSpec(format, args, i, j).Some? ==>
              Agree(ParsedSpec(format, args, i, j).value, ReadSpec(format, args, i, j).value)
  {
    hide ParsedFlags, ReadFlags, FlagCount, ParsedWidth, ParsedPrecision, ReadWidth, ReadPrecision, LengthFlags,
         StandardBound, At, Matches, Agree;
    FlagsAreBare(format, i, NO_FLAGS);
    FlagsRead(format, i);
    var (flags, i') := ParsedFlags(format, i, NO_FLAGS);
    var s, r := Spec(flags, 0, 0, i', j), Reading(flags, 0, None, false, TWO32, i', j);
    StartMatches(flags, i', j);
    WidthMatches(format, args, s, r);
    if ReadWidth(format, args, r).Some? {
      var s', r' := ParsedWidth(format, args, s).value, ReadWidth(format, args, r).value;
      PrecisionMatches(format, args, s', r');
      if ReadPrecision(format, args, r').Some? {
        LengthAgrees(format, ParsedPrecision(format, args, s').value, ReadPrecision(format, args, r').value);
      }
    }
  }

  lemma StartMatches(flags: Flags, i: nat, j: nat)
    requires Bare(flags)
    ensures Matches(Spec(flags, 0, 0, i, j), Reading(flags, 0, None, false, TWO32, i, j))
  {
  }

  lemma LengthAgrees(format: string, s: Spec, r: Reading)
    requires Matches(s, r) && Bare(r.flags)
    ensures Agree(ParsedLength(format, s), ReadLength(format, r))
  {
    hide LengthFlags, LengthChars, ModifierChars, StandardBound, At, BoundOf;
    ModifiersAgree(At(format, s.i), At(format, s.i + 1));
    LengthMatches(At(format, s.i), At(format, s.i + 1), s.flags);
    LengthSets(At(format, s.i), At(format, s.i + 1), s.flags);
  }

  lemma SameArg(signed: bool, s: Spec, r: Reading, args: seq<Arg>)
    requires Agree(s, r)
    ensures r.bound > 0 && IntegerArg(signed, s, args) == ReadArg(signed, r, args)
    ensures ReadArg(signed, r, args).Some? ==>
              Magnitude(ReadArg(signed, r, args).value) < TWO64 && (!signed ==> ReadArg(signed, r, args).value >= 0)
  {
  }

  // ---------------------------------------------------------------------------------------------
  // The results

  lemma FlagsTaken(c: char, s: Spec, r: Reading)
    requires IsInteger(c) && Agree(s, r)
    ensures Took(c, AsTaken(r), IntegerFlags(c, s.flags))
  {
  }

  /**
   For every integer conversion of every format, with or without `#`: what the code prints is what the standard asks for
   if and only if `AsAsked` says so of the standard's reading of it.
   */
  lemma IntegerAsStandard(float: FloatPrinter, format: string, args: seq<Arg>, i: nat, j: nat)
    requires ParsedSpec(format, args, i, j).Some?
    requires var s := ParsedSpec(format, args, i, j).value;
             s.i < |format| && IsInteger(format[s.i]) && Converted(float, format[s.i], s, args).Some?
    ensures ReadSpec(format, args, i, j).Some?
    ensures var s, r := ParsedSpec(format, args, i, j).value, ReadSpec(format, args, i, j).value;
            var c := format[s.i];
            && r.i == s.i && r.bound > 0 && ReadArg(IsSigned(c), r, args).Some?
            && var v := ReadArg(IsSigned(c), r, args).value;
            && Converted(float, c, s, args).value.1 == r.j + 1
            && (Converted(float, c, s, args).value.0 == StandardInteger(c, r, v) <==> AsAsked(c, r, v))
  {
    hide ParsedSpec, ReadSpec, IntegerText, StandardInteger, AsAsked, Agree, IntegerArg, ReadArg, IntegerFlags;
    SpecsAgree(format, args, i, j);
    var s, r := ParsedSpec(format, args, i, j).value, ReadSpec(format, args, i, j).value;
    var c := format[s.i];
    SameArg(IsSigned(c), s, r, args);
    SamePlace(s, r);
    PrintedAsAsked(c, s, r, ReadArg(IsSigned(c), r, args).value);
  }

  lemma SamePlace(s: Spec, r: Reading)
    requires Agree(s, r)
    ensures r.i == s.i && r.j == s.j
  {
  }

  lemma PrintedAsAsked(c: char, s: Spec, r: Reading, v: int)
    requires IsInteger(c) && Agree(s, r) && Magnitude(v) < TWO64 && (!IsSigned(c) ==> v >= 0)
    ensures IntegerText(Magnitude(v), v < 0, BaseOf(c), s.precision, s.width, IntegerFlags(c, s.flags))
            == StandardInteger(c, r, v)
            <==> AsAsked(c, r, v)
  {
    hide IntegerText, StandardInteger, RoomFor, WithdrawnIsHarmless, IntegerFlags, Took, IsInteger, BaseOf;
    FlagsTaken(c, s, r);
    if r.width < TWO32 && (r.precision.Some? ==> r.precision.value < TWO32) {
      PrintsAsAsked(c, AsTaken(r), v, IntegerFlags(c, s.flags));
      if r.withdrawn {
        WithdrawnExactly(c, r, v);
      }
    } else {
      TextIsShort(Magnitude(v), v < 0, BaseOf(c), s.precision, s.width, IntegerFlags(c, s.flags));
      StandardIsLong(c, r, v);
    }
  }

  // Strings

  /** As much of it as the precision allows, or all */
  function Allowed(r: Reading, p: string): (n: nat)
    ensures n <= |p|
  {
    if r.precision.Some? && r.precision.value < |p| then r.precision.value else |p|
  }

  function StandardString(r: Reading, p: string): string {
    Blanked(p[..Allowed(r, p)], r.width, r.flags.left)
  }

  /** As much of it as the code prints: nothing if the precision was withdrawn, and numbers are read modulo 2^32. */
  function Printed(r: Reading, p: string): (n: nat)
    ensures n <= |p|
  {
    if r.withdrawn then 0
    else if r.precision.Some? && r.precision.value % TWO32 < |p| then r.precision.value % TWO32
    else |p|
  }

  /** What is cut off is blank and made up for by the padding. */
  predicate CutIsBlank(a: string, b: string, width: nat, left: bool) {
    |b| <= width && |a| <= |b| && b == if left then a + Repeat(' ', |b| - |a|) else Repeat(' ', |b| - |a|) + a
  }

  lemma CutExactly(a: string, b: string, width: nat, left: bool)
    requires |a| <= |b|
    ensures Blanked(a, width, left) == Blanked(b, width, left) <==> a == b || CutIsBlank(a, b, width, left)
  {
    var blanks := Repeat(' ', |b| - |a|);
    if |b| <= width {
      if left {
        BlanksAppend(a, |b| - |a|, width - |b|);
        SameHead(a + blanks, b, Repeat(' ', width - |b|));
      } else {
        BlanksJoin(width - |b|, |b| - |a|, a);
        SameTail(Repeat(' ', width - |b|), blanks + a, b);
      }
    } else if |a| == |b| {
      assert Repeat(' ', width - |b|) == "";
      EmptySum(a);
      EmptySum(b);
    }
  }

  lemma BlanksAppend(s: string, m: nat, n: nat)
    ensures s + Repeat(' ', m + n) == s + Repeat(' ', m) + Repeat(' ', n)
  {
  }

  lemma SameHead(a: string, b: string, rest: string)
    requires |a| == |b|
    ensures a + rest == b + rest <==> a == b
  {
    if a + rest == b + rest {
      assert a == (a + rest)[..|a|] == (b + rest)[..|b|] == b;
    }
  }

  /**
   For `%s` of every string of less than 2^32 characters: the text is what the standard asks for if and only if the width
   has 32 bits and all is printed that the precision allows, or what is missing is blank anyway.
   */
  lemma StringAsStandard(float: FloatPrinter, format: string, args: seq<Arg>, i: nat, j: nat)
    requires ParsedSpec(format, args, i, j).Some?
    requires var s := ParsedSpec(format, args, i, j).value;
             && s.i < |format| && format[s.i] == 's'
             && s.j < |args| && args[s.j].Str? && args[s.j].s.Some? && |args[s.j].s.value| < TWO32
    ensures ReadSpec(format, args, i, j).Some?
    ensures var s, r := ParsedSpec(format, args, i, j).value, ReadSpec(format, args, i, j).value;
            var p := args[s.j].s.value;
            && Converted(float, 's', s, args).Some?
            && (Converted(float, 's', s, args).value.0 == StandardString(r, p)
                <==> && r.width < TWO32
                     && (Printed(r, p) == Allowed(r, p)
                         || CutIsBlank(p[..Printed(r, p)], p[..Allowed(r, p)], r.width, r.flags.left)))
  {
    hide ParsedSpec, ReadSpec, Agree, StringText, StandardString, CutIsBlank, Printed, Allowed;
    SpecsAgree(format, args, i, j);
    var s, r := ParsedSpec(format, args, i, j).value, ReadSpec(format, args, i, j).value;
    StringPrinted(s, r, args[s.j].s.value);
  }

  lemma StringPrinted(s: Spec, r: Reading, p: string)
    requires Agree(s, r) && |p| < TWO32
    ensures StringText(p, s.precision, s.width, s.flags) == StandardString(r, p)
            <==> && r.width < TWO32
                 && (Printed(r, p) == Allowed(r, p)
                     || CutIsBlank(p[..Printed(r, p)], p[..Allowed(r, p)], r.width, r.flags.left))
  {
    hide CutIsBlank;
    PrintedIs(s, r, p);
    if r.width < TWO32 {
      CutExactly(p[..Printed(r, p)], p[..Allowed(r, p)], r.width, r.flags.left);
    }
  }

  lemma PrintedIs(s: Spec, r: Reading, p: string)
    requires Agree(s, r)
    ensures StringText(p, s.precision, s.width, s.flags) == Blanked(p[..Printed(r, p)], r.width % TWO32, r.flags.left)
    ensures Printed(r, p) <= Allowed(r, p)
  {
    assert p[..|p|] == p;
  }

  // Characters

  /** `%c` prints the argument's low eight bits, padded with blanks to the width, if that is below 2^32. */
  lemma CharAsStandard(float: FloatPrinter, format: string, args: seq<Arg>, i: nat, j: nat)
    requires ParsedSpec(format, args, i, j).Some?
    requires var s := ParsedSpec(format, args, i, j).value;
             s.i < |format| && format[s.i] == 'c' && s.j < |args| && args[s.j].Word?
    ensures ReadSpec(format, args, i, j).Some?
    ensures var s, r := ParsedSpec(format, args, i, j).value, ReadSpec(format, args, i, j).value;
            && Converted(float, 'c', s, args).Some?
            && var asked := Blanked([(args[s.j].v % 256) as char], r.width, r.flags.left);
               Converted(float, 'c', s, args).value.0 == asked <==> r.width < TWO32
  {
    hide ParsedSpec, ReadSpec, Agree, CharText, Blanked;
    SpecsAgree(format, args, i, j);
    var s, r := ParsedSpec(format, args, i, j).value, ReadSpec(format, args, i, j).value;
    CharPrinted(s, r, (args[s.j].v % 256) as char);
    LowBits(args[s.j].v);
  }

  lemma LowBits(v: nat)
    ensures v % TWO32 % 256 == v % 256
  {
  }

  lemma CharPrinted(s: Spec, r: Reading, c: char)
    requires Agree(s, r)
    ensures CharText(c, s.width, s.flags) == Blanked([c], r.width, r.flags.left) <==> r.width < TWO32
  {
    assert |CharText(c, s.width, s.flags)| == Max(1, r.width % TWO32);
    assert |Blanked([c], r.width, r.flags.left)| == Max(1, r.width);
  }

  // Numbers as they are passed

  /** The low bits of what is passed, read in two's complement */
  lemma SignedMeans(v: nat, bound: nat)
    requires bound in {0x100, 0x1_0000, TWO32, TWO64}
    ensures var r := Signed(v, bound); 0 <= 2 * r + bound && 2 * r < bound && exists q: int :: Times(q, bound) == v - r
  {
    var q, r: int := v / bound, Signed(v, bound);
    assert v == q * bound + v % bound;
    if r < 0 {
      assert (q + 1) * bound == q * bound + bound;
      assert Times(q + 1, bound) == v - r;
    } else {
      assert Times(q, bound) == v - r;
    }
  }

  function Times(a: int, b: int): int {
    a * b
  }

  lemma DigitValueIs(d: nat)
    requires d < 10
    ensures IsDigit("0123456789"[d]) && DigitValue("0123456789"[d]) == d
  {
  }

  /** However many digits are asked for, no more than 32 are printed. */
  lemma DigitLimit(value: nat, precision: nat, flags: Flags)
    requires value < TWO32 && flags == NO_FLAGS.(precision := true)
    ensures |IntegerText(value, false, 10, precision, 0, flags)|
            == if precision > 32 then 32 else Max(|Numeral(value, "0123456789")|, precision)
  {
    hide IntegerText, StartDigits, Reversed, ReversedDigits, Numeral, Layout, Padded, Body;
    IntegerShape(value, false, 10, precision, 0, flags);
    LimitedDigits(value, flags);
    var (digits, flags') := StartDigits(value, 10, flags);
    LimitedLayout(|digits|, precision, flags');
    BodyLength("", Reversed(digits), Min(Max(|digits|, precision), ROOM));
    LimitedPadding(Body("", Reversed(digits), Min(Max(|digits|, precision), ROOM)), flags');
  }

  lemma LimitedDigits(value: nat, flags: Flags)
    requires value < TWO32 && flags == NO_FLAGS.(precision := true)
    ensures var (digits, flags') := StartDigits(value, 10, flags);
            flags' == flags && |digits| == |Numeral(value, "0123456789")| <= 32
  {
    hide Reversed, ReversedDigits, Numeral, Power;
    EnoughRoom(10);
    NumeralIs(value, 'd', ROOM);
    if value == 0 {
      EmptyNumeral("0123456789");
    }
  }

  lemma EmptyNumeral(symbols: string)
    requires |symbols| >= 2
    ensures Numeral(0, symbols) == ""
  {
  }

  lemma LimitedLayout(digits: nat, precision: nat, flags: Flags)
    requires digits <= ROOM && flags == NO_FLAGS.(precision := true)
    ensures Layout(digits, false, 10, precision, 0, flags) == ("", Min(Max(digits, precision), ROOM))
  {
  }

  lemma LimitedPadding(body: string, flags: Flags)
    requires flags == NO_FLAGS.(precision := true)
    ensures Padded(body, 0, flags) == body
  {
    assert Repeat(' ', 0 - |body|) + body == body;
  }

  // Precisions that are withdrawn and missed

  /** `%.*d` of -1 and 0, of which the standard asks for `0`, prints nothing. */
  lemma WithdrawnIsMissed(float: FloatPrinter)
    ensures var args := [Word(TWO32 - 1), Word(0)];
            && Text(float, "%.*d", args, 0, 0) == Some("")
            && ReadSpec("%.*d", args, 1, 0).Some?
            && StandardInteger('d', ReadSpec("%.*d", args, 1, 0).value, 0) == "0"
  {
    hide IntegerText, IntegerFlags, StandardInteger, ParsedSpec, ReadSpec;
    var format, args := "%.*d", [Word(TWO32 - 1), Word(0)];
    var flags := NO_FLAGS.(precision := true);
    WithdrawnIsRead(format, args);
    NothingPrinted(flags);
    assert format[3] == 'd' && |format| == 4;
    assert Converted(float, 'd', Spec(flags, 0, 0, 3, 1), args) == Some(("", 2));
    OneConversion(float, format, args, Spec(flags, 0, 0, 3, 1), "", 2);
    ZeroAsked(Reading(NO_FLAGS, 0, None, true, TWO32, 3, 1));
  }

  /** A format that is one conversion specification */
  lemma OneConversion(float: FloatPrinter, format: string, args: seq<Arg>, s: Spec, text: string, j: nat)
    requires |format| > 1 && format[0] == '%' && ParsedSpec(format, args, 1, 0) == Some(s)
    requires s.i == |format| - 1 && Converted(float, format[s.i], s, args) == Some((text, j))
    ensures Text(float, format, args, 0, 0) == Some(text)
  {
    hide ParsedSpec, Converted;
    assert Text(float, format, args, s.i + 1, j) == Some("");
    assert text + "" == text;
  }

  lemma WithdrawnIsRead(format: string, args: seq<Arg>)
    requires format == "%.*d" && args == [Word(TWO32 - 1), Word(0)]
    ensures ParsedSpec(format, args, 1, 0) == Some(Spec(NO_FLAGS.(precision := true), 0, 0, 3, 1))
    ensures ReadSpec(format, args, 1, 0) == Some(Reading(NO_FLAGS, 0, None, true, TWO32, 3, 1))
  {
    assert ParsedFlags(format, 1, NO_FLAGS) == (NO_FLAGS, 1);
  }

  lemma NothingPrinted(flags: Flags)
    requires flags == NO_FLAGS.(precision := true)
    ensures IntegerText(0, false, 10, 0, 0, IntegerFlags('d', flags)) == ""
  {
    ReversedShort("");
  }

  lemma ZeroAsked(r: Reading)
    requires r.flags == NO_FLAGS && r.width == 0 && r.precision == None
    ensures StandardInteger('d', r, 0) == "0"
  {
  }
}
