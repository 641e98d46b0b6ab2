/**
 What lib/printf/printf.c prints: the text of each conversion and of a whole format, as a function of the format and
 its arguments alone.

 A character string is taken without its terminating NUL.  `int`, `long` and pointers have 32 bits, `long long` 64.
 */
module PrintfText {
  import opened Numbers
  import opened Options

  /** `PRINTF_INTEGER_BUFFER_SIZE` */
  const ROOM: nat := 32

  const TWO32: nat := 0x1_0000_0000
  const TWO64: nat := 0x1_0000_0000_0000_0000

  datatype Flags = Flags(
    zeroPad: bool, left: bool, plus: bool, space: bool, hash: bool, upper: bool,
    char_: bool, short: bool, long: bool, longLong: bool, precision: bool, pointer: bool)

  const NO_FLAGS := Flags(false, false, false, false, false, false, false, false, false, false, false, false)

  // ---------------------------------------------------------------------------------------------
  // Digits

  function IsDigit(c: char): bool {
    '0' <= c <= '9'
  }

  function DigitChar(d: nat, upper: bool): (c: char)
    requires d < 16
  {
    if d < 10 then '0' + d as char else (if upper then 'A' else 'a') + (d - 10) as char
  }

  function DigitValue(c: char): nat {
    if IsDigit(c) then c as nat - '0' as nat
    else if 'A' <= c <= 'F' then c as nat - 'A' as nat + 10
    else if 'a' <= c <= 'f' then c as nat - 'a' as nat + 10
    else 0
  }

  /** The digits of a value, last one first, as far as there is room. */
  function ReversedDigits(value: nat, base: nat, upper: bool, room: nat): (r: string)
    requires 2 <= base <= 16
    ensures |r| <= room
    decreases room
  {
    if value == 0 || room == 0 then ""
    else [DigitChar(value % base, upper)] + ReversedDigits(value / base, base, upper, room - 1)
  }

  function Reversed(s: string): (r: string)
    ensures |r| == |s| && forall i :: 0 <= i < |s| ==> r[i] == s[|s| - 1 - i]
  {
    if s == "" then "" else Reversed(s[1..]) + [s[0]]
  }

  /** The number a string of digits denotes. */
  function Value(s: string, base: nat): nat {
    if s == "" then 0 else Value(s[..|s| - 1], base) * base + DigitValue(s[|s| - 1])
  }

  function Power(base: nat, n: nat): nat {
    if n == 0 then 1 else base * Power(base, n - 1)
  }

  lemma DigitRoundTrip(d: nat, upper: bool)
    requires d < 16
    ensures DigitValue(DigitChar(d, upper)) == d
    ensures d < 10 ==> IsDigit(DigitChar(d, upper))
  {
  }

  lemma ReversedCons(c: char, s: string)
    ensures Reversed([c] + s) == Reversed(s) + [c]
  {
  }

  /** The printed digits denote the value modulo what the buffer has room for, and so the value exactly if it fits. */
  lemma {:induction false} DigitsDenote(value: nat, base: nat, upper: bool, room: nat)
    requires 2 <= base <= 16
    ensures Power(base, room) > 0
    ensures Value(Reversed(ReversedDigits(value, base, upper, room)), base) == value % Power(base, room)
    decreases room
  {
    hide Value, Reversed, DigitChar, DigitValue, Power;
    PowerStep(base, room);
    if room == 0 {
      NoDigits(base);
    } else {
      PowerPositive(base, room);
      if value == 0 {
        NoDigits(base);
      } else {
        var rest := ReversedDigits(value / base, base, upper, room - 1);
        DigitsDenote(value / base, base, upper, room - 1);
        var c := DigitChar(value % base, upper);
        ReversedCons(c, rest);
        DigitRoundTrip(value % base, upper);
        ValueSnoc(Reversed(rest), c, base);
        RemainderSplit(value, base, Power(base, room - 1));
      }
    }
  }

  lemma {:induction false} PowerPositive(base: nat, n: nat)
    requires base > 0
    ensures Power(base, n) > 0
  {
    if n > 0 {
      PowerPositive(base, n - 1);
      Positive(base, Power(base, n - 1));
    }
  }

  lemma Positive(a: nat, b: nat)
    requires a > 0 && b > 0
    ensures a * b > 0
  {
  }

  /** Taking a remainder digit by digit */
  lemma RemainderSplit(value: nat, base: nat, rest: nat)
    requires base > 0 && rest > 0
    ensures base * rest > 0 && value % (base * rest) == (value / base % rest) * base + value % base
  {
    Positive(base, rest);
    var q, d := value / base, value % base;
    var k, m := q / rest, q % rest;
    Division(value, base);
    Division(q, rest);
    Regrouped(k, m, base, rest);
    assert value == k * (base * rest) + (m * base + d);
    Grows(base, m + 1, rest);
    Distributed(m, base);
    UniqueRemainder(value, base * rest, k, m * base + d);
  }

  lemma Distributed(m: nat, base: nat)
    ensures base * (m + 1) == m * base + base
  {
  }

  lemma Regrouped(k: nat, m: nat, base: nat, rest: nat)
    ensures (k * rest + m) * base == k * (base * rest) + m * base
  {
    assert k * rest * base == k * (base * rest) by { Associate(k, rest, base); assert rest * base == base * rest; }
  }

  lemma UniqueRemainder(value: nat, n: nat, k: nat, r: nat)
    requires n > 0 && value == k * n + r && r < n
    ensures value % n == r
  {
    Division(value, n);
    if value / n > k {
      Grows(n, k + 1, value / n);
      Distributed(k, n);
    } else if value / n < k {
      Grows(n, value / n + 1, k);
      Distributed(value / n, n);
    }
  }

  lemma NoDigits(base: nat)
    ensures Value(Reversed(""), base) == 0
  {
  }

  lemma ValueSnoc(s: string, c: char, base: nat)
    ensures Value(s + [c], base) == Value(s, base) * base + DigitValue(c)
  {
    assert (s + [c])[..|s|] == s;
  }

  lemma Division(value: nat, base: nat)
    requires base > 0
    ensures value / base * base + value % base == value
  {
  }

  lemma QuotientFits(value: nat, base: nat, rest: nat)
    requires base >= 2 && value < base * rest
    ensures value / base < rest
  {
    Division(value, base);
    if value / base >= rest {
      Grows(base, rest, value / base);
    }
  }

  lemma Grows(base: nat, a: nat, b: nat)
    requires a <= b
    ensures base * a <= b * base
  {
  }

  /** There is no leading zero. */
  lemma {:induction false} NoLeadingZero(value: nat, base: nat, upper: bool, room: nat)
    requires 2 <= base <= 16 && 0 < value < Power(base, room)
    ensures var r := ReversedDigits(value, base, upper, room); r != "" && DigitValue(r[|r| - 1]) != 0
    decreases room
  {
    hide DigitValue, DigitChar, Power, ReversedDigits;
    PowerStep(base, room);
    DigitsStep(value, base, upper, room);
    DigitRoundTrip(value % base, upper);
    if value / base != 0 {
      QuotientFits(value, base, Power(base, room - 1));
      NoLeadingZero(value / base, base, upper, room - 1);
    } else {
      OneDigit(value, base);
    }
  }

  lemma DigitsStep(value: nat, base: nat, upper: bool, room: nat)
    requires 2 <= base <= 16 && value > 0 && room > 0
    ensures ReversedDigits(value, base, upper, room)
            == [DigitChar(value % base, upper)] + ReversedDigits(value / base, base, upper, room - 1)
    ensures value / base == 0 ==> ReversedDigits(value / base, base, upper, room - 1) == ""
  {
  }

  lemma OneDigit(value: nat, base: nat)
    requires base > 0 && value / base == 0
    ensures value % base == value
  {
    Division(value, base);
  }

  lemma PowerStep(base: nat, n: nat)
    ensures Power(base, n) == if n == 0 then 1 else base * Power(base, n - 1)
  {
  }

  lemma {:induction false} PowerSum(base: nat, m: nat, n: nat)
    ensures Power(base, m + n) == Power(base, m) * Power(base, n)
  {
    hide Power;
    PowerStep(base, m);
    PowerStep(base, m + n);
    if m > 0 {
      PowerSum(base, m - 1, n);
      Associate(base, Power(base, m - 1), Power(base, n));
    }
  }

  lemma Associate(a: nat, b: nat, c: nat)
    ensures a * (b * c) == a * b * c
  {
  }

  lemma {:induction false} PowerMonotone(a: nat, b: nat, n: nat)
    requires a <= b
    ensures Power(a, n) <= Power(b, n)
  {
    if n > 0 {
      PowerMonotone(a, b, n - 1);
      Grows(a, Power(a, n - 1), Power(b, n - 1));
      Grows(Power(b, n - 1), a, b);
    }
  }

  /** 32 digits are enough for 64 bits in base 8 and above. */
  lemma EnoughRoom(base: nat)
    requires base >= 8
    ensures TWO64 <= Power(base, ROOM)
  {
    assert Power(8, 4) == 4096;
    PowerSum(8, 4, 4);
    PowerSum(8, 8, 8);
    PowerSum(8, 16, 8);
    assert TWO64 <= Power(8, 24);
    PowerSum(8, 24, 8);
    assert Power(8, 8) == 0x100_0000;
    PowerMonotone(8, base, ROOM);
  }

  // ---------------------------------------------------------------------------------------------
  // Conversions

  function Repeat(c: char, n: int): (r: string)
    ensures |r| == if n > 0 then n else 0
    ensures forall i :: 0 <= i < |r| ==> r[i] == c
  {
    if n <= 0 then "" else seq(n, i => c)
  }

  /** `out_rev_` */
  function PaddedReverse(r: string, width: nat, flags: Flags): string {
    (if !flags.left && !flags.zeroPad then Repeat(' ', width - |r|) else "") + Reversed(r)
    + if flags.left then Repeat(' ', width - |r|) else ""
  }

  /** Zeros up to a length, as far as there is room. */
  function ZeroFilled(r: string, n: nat): (z: string)
    ensures |z| <= if |r| > ROOM then |r| else ROOM
    ensures |r| <= |z|
  {
    r + Repeat('0', Min(n, ROOM) - |r|)
  }

  /** The width the sign leaves to the zeros. */
  function ZeroWidth(negative: bool, width: nat, flags: Flags): nat {
    if !flags.left && width > 0 && flags.zeroPad && (negative || flags.plus || flags.space) then width - 1 else width
  }

  /** What `print_integer_finalization` puts behind the reversed digits before it comes to the sign. */
  function WithZeros(digits: string, negative: bool, precision: nat, width: nat, flags: Flags): string {
    var z := if !flags.left && flags.zeroPad then ZeroFilled(digits, ZeroWidth(negative, width, flags)) else digits;
    ZeroFilled(z, precision)
  }

  /** Its treatment of `#` and `%p`: some zeros are taken back to make room for the base. */
  function WithPrefix(r: string, digits: nat, base: nat, precision: nat, width: nat, flags: Flags): string
    requires digits <= |r|
  {
    if !(flags.pointer || (flags.hash && !(base == 8 && |r| > digits))) then r
    else
      var n := TakenBack(|r|, digits, base, precision, width, flags);
      var marked := r[..n] + BaseMark(n, base, flags);
      marked + if |marked| < ROOM then "0" else ""
  }

  function TakenBack(n: nat, digits: nat, base: nat, precision: nat, width: nat, flags: Flags): (r: nat)
    requires digits <= n
    ensures r <= n
  {
    var back := !flags.precision && n > 0 && (n == precision || n == width);
    var n1 := if back && digits < n then n - 1 else n;
    if back && n1 > 0 && (base == 16 || base == 2) && digits < n1 then n1 - 1 else n1
  }

  function BaseMark(n: nat, base: nat, flags: Flags): string {
    if n >= ROOM then ""
    else if base == 16 then (if flags.upper then "X" else "x")
    else if base == 2 then "b"
    else ""
  }

  function WithSign(r: string, negative: bool, flags: Flags): string {
    if |r| >= ROOM then r
    else if negative then r + "-"
    else if flags.plus then r + "+"
    else if flags.space then r + " "
    else r
  }

  /** `print_integer_finalization` */
  function Finalized(digits: string, negative: bool, base: nat, precision: nat, width: nat, flags: Flags): string {
    var zeros := WithZeros(digits, negative, precision, width, flags);
    var prefixed := WithPrefix(zeros, |digits|, base, precision, ZeroWidth(negative, width, flags), flags);
    PaddedReverse(WithSign(prefixed, negative, flags), ZeroWidth(negative, width, flags), flags)
  }

  /** What `print_integer` starts with: the reversed digits, and the flags that still matter. */
  function StartDigits(value: nat, base: nat, flags: Flags): (r: (string, Flags))
    requires 2 <= base <= 16
    ensures |r.0| <= ROOM
  {
    if value == 0 then
      if !flags.precision then ("0", flags.(hash := false))
      else ("", if base == 16 then flags.(hash := false) else flags)
    else (ReversedDigits(value, base, flags.upper, ROOM), flags)
  }

  /** `print_integer` */
  function IntegerText(value: nat, negative: bool, base: nat, precision: nat, width: nat, flags: Flags): string
    requires 2 <= base <= 16
  {
    var (digits, flags') := StartDigits(value, base, flags);
    Finalized(digits, negative, base, precision, width, flags')
  }

  // ---------------------------------------------------------------------------------------------
  // What the text of an integer is

  lemma {:induction false} ReversedSum(a: string, b: string)
    ensures Reversed(a + b) == Reversed(b) + Reversed(a)
  {
  }

  lemma ReversedRepeat(c: char, n: int)
    ensures Reversed(Repeat(c, n)) == Repeat(c, n)
  {
  }

  function SignText(negative: bool, flags: Flags): string {
    if negative then "-" else if flags.plus then "+" else if flags.space then " " else ""
  }

  /** How many digits the precision asks for, or with `0` the width, beside a sign of this length. */
  function WantedDigits(digits: nat, sign: nat, precision: nat, width: nat, flags: Flags): (n: nat)
    ensures n >= digits
  {
    Max(digits, Max(precision, if flags.zeroPad && !flags.left then width - sign else 0))
  }

  /** Blanks on one side; with `0` the zeros should have made them unnecessary. */
  function Padded(body: string, width: nat, flags: Flags): string {
    if flags.left then body + Repeat(' ', width - |body|)
    else if flags.zeroPad then body
    else Repeat(' ', width - |body|) + body
  }

  function Body(sign: string, digits: string, n: nat): string {
    sign + Repeat('0', n - |digits|) + digits
  }

  /** Whether `print_integer_finalization` puts a prefix before `n` digits, of which `digits` are the value's. */
  predicate Marks(n: nat, digits: nat, base: nat, flags: Flags) {
    flags.pointer || (flags.hash && !(base == 8 && n > digits))
  }

  /** The prefix before `n` digits, as far as there is room. */
  function Mark(n: nat, base: nat, flags: Flags): (m: string)
    ensures |m| <= 2
  {
    var letter := BaseMark(n, base, flags);
    (if n + |letter| < ROOM then "0" else "") + letter
  }

  /** What is printed before the digits, and how many digits there are with their zeros. */
  function Layout(digits: nat, negative: bool, base: nat, precision: nat, width: nat, flags: Flags): (l: (string, nat))
    requires digits <= ROOM
    ensures digits <= l.1 && |l.0| + l.1 <= ROOM
  {
    var sign := SignText(negative, flags);
    var n := Min(WantedDigits(digits, |sign|, precision, width, flags), ROOM);
    if Marks(n, digits, base, flags) then
      var k := TakenBack(n, digits, base, precision, ZeroWidth(negative, width, flags), flags);
      var mark := Mark(k, base, flags);
      ((if k + |mark| < ROOM then sign else "") + mark, k)
    else (if n < ROOM then sign else "", n)
  }

  /**
   What an integer is printed as, whatever flags, width and precision: sign and prefix, zeros and digits, padded with
   blanks.  There are no more than 32 digits with their zeros; sign and prefix come as far as the 32 leave room.
   */
  lemma IntegerShape(value: nat, negative: bool, base: nat, precision: nat, width: nat, flags: Flags)
    requires 2 <= base <= 16
    ensures var (digits, flags') := StartDigits(value, base, flags);
            var (front, n) := Layout(|digits|, negative, base, precision, width, flags');
            IntegerText(value, negative, base, precision, width, flags)
            == Padded(Body(front, Reversed(digits), n), width, flags')
  {
    hide Reversed, Layout, Finalized, StartDigits, Padded, Body;
    var (digits, flags') := StartDigits(value, base, flags);
    ShapeOf(digits, negative, base, precision, width, flags');
  }

  lemma ShapeOf(d: string, negative: bool, base: nat, precision: nat, width: nat, flags: Flags)
    requires |d| <= ROOM
    ensures var (front, n) := Layout(|d|, negative, base, precision, width, flags);
            Finalized(d, negative, base, precision, width, flags) == Padded(Body(front, Reversed(d), n), width, flags)
  {
    hide Reversed, Repeat, WithZeros, WithPrefix, WithSign, WantedDigits, PaddedReverse, ZeroWidth, Padded, SignText, Body,
         Marks, Mark, TakenBack, Finalized, Layout;
    var n := Min(WantedDigits(|d|, |SignText(negative, flags)|, precision, width, flags), ROOM);
    var w := ZeroWidth(negative, width, flags);
    ZerosFill(d, negative, precision, width, flags);
    PrefixIs(d, n, base, precision, w, flags);
    LayoutIs(|d|, negative, base, precision, width, flags);
    var k := if Marks(n, |d|, base, flags) then TakenBack(n, |d|, base, precision, w, flags) else n;
    ShapeWith(d, negative, base, precision, width, flags, n, k,
              if Marks(n, |d|, base, flags) then Mark(k, base, flags) else "");
  }

  lemma LayoutIs(digits: nat, negative: bool, base: nat, precision: nat, width: nat, flags: Flags)
    requires digits <= ROOM
    ensures var sign := SignText(negative, flags);
            var n := Min(WantedDigits(digits, |sign|, precision, width, flags), ROOM);
            var k := if Marks(n, digits, base, flags)
                     then TakenBack(n, digits, base, precision, ZeroWidth(negative, width, flags), flags) else n;
            var mark := if Marks(n, digits, base, flags) then Mark(k, base, flags) else "";
            Layout(digits, negative, base, precision, width, flags)
            == ((if k + |mark| < ROOM then sign else "") + mark, k)
  {
    hide WantedDigits, SignText, Marks, Mark, TakenBack, ZeroWidth;
    EmptySum("");
    EmptySum(SignText(negative, flags));
  }

  lemma ShapeWith(d: string, negative: bool, base: nat, precision: nat, width: nat, flags: Flags, n: nat, k: nat,
                  mark: string)
    requires |d| <= k <= n && WithZeros(d, negative, precision, width, flags) == d + Repeat('0', n - |d|)
    requires WithPrefix(d + Repeat('0', n - |d|), |d|, base, precision, ZeroWidth(negative, width, flags), flags)
             == d + Repeat('0', k - |d|) + Reversed(mark)
    ensures Finalized(d, negative, base, precision, width, flags)
            == Padded(Body((if k + |mark| < ROOM then SignText(negative, flags) else "") + mark, Reversed(d), k), width,
                      flags)
  {
    hide Reversed, Repeat, WithZeros, WithPrefix, WithSign, PaddedReverse, ZeroWidth, Padded, SignText, Body;
    SignedBody(d, k, mark, negative, width, flags);
  }

  /** The prefix stands reversed behind the reversed digits. */
  lemma PrefixIs(d: string, n: nat, base: nat, precision: nat, width: nat, flags: Flags)
    requires |d| <= n
    ensures var k := if Marks(n, |d|, base, flags) then TakenBack(n, |d|, base, precision, width, flags) else n;
            && |d| <= k <= n
            && WithPrefix(d + Repeat('0', n - |d|), |d|, base, precision, width, flags)
               == d + Repeat('0', k - |d|) + Reversed(if Marks(n, |d|, base, flags) then Mark(k, base, flags) else "")
  {
    hide Reversed, BaseMark, TakenBack;
    var r := d + Repeat('0', n - |d|);
    if Marks(n, |d|, base, flags) {
      var k := TakenBack(n, |d|, base, precision, width, flags);
      KeepsDigits(n, |d|, base, precision, width, flags);
      assert r[..k] == d + Repeat('0', k - |d|);
      MarkReversed(k, base, flags);
      Regrouping(r[..k], BaseMark(k, base, flags), if k + |BaseMark(k, base, flags)| < ROOM then "0" else "");
    } else {
      ReversedShort("");
      EmptySum(r);
    }
  }

  lemma KeepsDigits(n: nat, digits: nat, base: nat, precision: nat, width: nat, flags: Flags)
    requires digits <= n
    ensures TakenBack(n, digits, base, precision, width, flags) >= digits
  {
  }

  lemma MarkReversed(n: nat, base: nat, flags: Flags)
    ensures var letter := BaseMark(n, base, flags);
            Reversed(Mark(n, base, flags)) == letter + if n + |letter| < ROOM then "0" else ""
  {
    hide Reversed;
    var letter := BaseMark(n, base, flags);
    var zero := if n + |letter| < ROOM then "0" else "";
    ReversedSum(zero, letter);
    ReversedShort(zero);
    ReversedShort(letter);
  }

  /** Sign and padding, once digits and prefix stand reversed */
  lemma SignedBody(d: string, n: nat, mark: string, negative: bool, width: nat, flags: Flags)
    requires |d| <= n
    ensures var r := d + Repeat('0', n - |d|) + Reversed(mark);
            PaddedReverse(WithSign(r, negative, flags), ZeroWidth(negative, width, flags), flags)
            == Padded(Body((if n + |mark| < ROOM then SignText(negative, flags) else "") + mark, Reversed(d), n), width,
                      flags)
  {
    hide Reversed, Repeat, WithSign, PaddedReverse, ZeroWidth, Padded, SignText, Body;
    var r := d + Repeat('0', n - |d|) + Reversed(mark);
    var shown := if n + |mark| < ROOM then SignText(negative, flags) else "";
    SignAdded(r, negative, flags);
    SignIsShort(negative, flags);
    PaddedIs(r + shown, negative, width, flags);
    BodyIs(d, n, mark, shown);
  }

  lemma BodyIs(d: string, n: nat, mark: string, sign: string)
    requires |sign| <= 1 && |d| <= n
    ensures Reversed(d + Repeat('0', n - |d|) + Reversed(mark) + sign) == Body(sign + mark, Reversed(d), n)
  {
    hide Reversed, Repeat;
    var zeros := Repeat('0', n - |d|);
    ReversedSum(d, zeros);
    ReversedRepeat('0', n - |d|);
    ReversedSum(d + zeros, Reversed(mark));
    ReversedTwice(mark);
    ReversedSum(d + zeros + Reversed(mark), sign);
    ReversedShort(sign);
    Regrouping(mark, zeros, Reversed(d));
    Regrouping(sign, mark + zeros, Reversed(d));
    Regrouping(sign, mark, zeros);
  }

  lemma ReversedTwice(s: string)
    ensures Reversed(Reversed(s)) == s
  {
  }

  lemma SignIsShort(negative: bool, flags: Flags)
    ensures SignText(negative, flags) in {"", "-", "+", " "}
  {
  }

  lemma PaddedIs(r: string, negative: bool, width: nat, flags: Flags)
    ensures PaddedReverse(r, ZeroWidth(negative, width, flags), flags) == Padded(Reversed(r), width, flags)
  {
    hide Reversed, Repeat, PaddedReverse, ZeroWidth, Padded;
    PaddedWays(r, ZeroWidth(negative, width, flags), flags);
    WidthLeft(negative, width, flags, Reversed(r));
  }

  lemma Regrouping(a: string, b: string, c: string)
    ensures a + (b + c) == a + b + c
  {
  }

  lemma ReversedShort(s: string)
    requires |s| <= 1
    ensures Reversed(s) == s
  {
  }

  lemma ZerosFill(d: string, negative: bool, precision: nat, width: nat, flags: Flags)
    requires |d| <= ROOM
    ensures var n := Min(WantedDigits(|d|, |SignText(negative, flags)|, precision, width, flags), ROOM);
            n >= |d| && WithZeros(d, negative, precision, width, flags) == d + Repeat('0', n - |d|)
  {
  }

  lemma SignAdded(r: string, negative: bool, flags: Flags)
    ensures WithSign(r, negative, flags) == r + if |r| < ROOM then SignText(negative, flags) else ""
  {
  }

  /** The sign has its place in the width only where zeros fill it. */
  lemma WidthLeft(negative: bool, width: nat, flags: Flags, body: string)
    ensures (if flags.left then body + Repeat(' ', ZeroWidth(negative, width, flags) - |body|)
             else if flags.zeroPad then body
             else Repeat(' ', ZeroWidth(negative, width, flags) - |body|) + body)
            == Padded(body, width, flags)
  {
    hide Repeat;
  }

  lemma PaddedWays(r: string, width: nat, flags: Flags)
    ensures PaddedReverse(r, width, flags) == if flags.left then Reversed(r) + Repeat(' ', width - |r|)
                                              else if flags.zeroPad then Reversed(r)
                                              else Repeat(' ', width - |r|) + Reversed(r)
  {
    hide Reversed, Repeat;
    var text, blanks := Reversed(r), Repeat(' ', width - |r|);
    if flags.left {
      EmptySum(text);
    } else if flags.zeroPad {
      EmptySum(text);
    } else {
      EmptySum(blanks + text);
    }
  }

  lemma EmptySum(s: string)
    ensures "" + s == s && s + "" == s
  {
  }

  /** What is printed without any flags is the number in that base. */
  lemma PlainIntegerDenotes(value: nat, base: nat)
    requires base in {8, 10, 16} && value < TWO64
    ensures Value(IntegerText(value, false, base, 0, 0, NO_FLAGS), base) == value
  {
    hide ReversedDigits, Reversed, Power;
    EnoughRoom(base);
    if value == 0 {
      ZeroText(base);
    } else {
      DigitsDenote(value, base, false, ROOM);
      SmallRemainder(value, Power(base, ROOM));
      PlainText(value, base);
    }
  }

  lemma SmallRemainder(value: nat, n: nat)
    requires value < n
    ensures value % n == value
  {
  }

  lemma ZeroText(base: nat)
    requires 2 <= base <= 16
    ensures IntegerText(0, false, base, 0, 0, NO_FLAGS) == "0" && Value("0", base) == 0
  {
    hide ReversedDigits, Reversed, IntegerText, Repeat, Value;
    ReversedShort("0");
    IntegerShape(0, false, base, 0, 0, NO_FLAGS);
    ZeroBody();
    ValueOfNothing(base);
    ValueSnoc("", '0', base);
    assert "" + ['0'] == "0";
  }

  lemma ZeroBody()
    ensures Padded(Body("", "0", 1), 0, NO_FLAGS) == "0"
  {
  }

  lemma PlainText(value: nat, base: nat)
    requires 2 <= base <= 16 && value > 0
    ensures IntegerText(value, false, base, 0, 0, NO_FLAGS) == Reversed(ReversedDigits(value, base, false, ROOM))
  {
    hide ReversedDigits, Reversed;
  }

  // ---------------------------------------------------------------------------------------------
  // Formats

  /** The arguments, as they are passed: 32 bits, 64 bits, a string that may be missing, a `double`, a place to store to. */
  datatype Arg = Word(v: nat) | DoubleWord(v: nat) | Str(s: Option<string>) | Double(v: nat) | Place

  /**
   The text that `print_floating_point` makes of a number, a conversion character, precision, width and flags.  What it
   is, is not modelled; all the rest holds whatever it is.
   */
  type FloatPrinter = (nat, char, nat, nat, Flags) -> string

  /** What `%n` has stored through which argument, in how many values. */
  datatype Store = Store(arg: nat, bound: nat, value: nat)

  /** A bit pattern read as a signed number. */
  function Signed(v: nat, bound: nat): int
    requires bound > 0
  {
    if v % bound < bound / 2 then v % bound else v % bound - bound
  }

  function WordAt(args: seq<Arg>, j: nat): Option<nat> {
    if j < |args| && args[j].Word? then Some(args[j].v % TWO32) else None
  }

  function DoubleWordAt(args: seq<Arg>, j: nat): Option<nat> {
    if j < |args| && args[j].DoubleWord? then Some(args[j].v % TWO64) else None
  }

  /** The character at a position of the format; its end reads as NUL. */
  function At(format: string, i: nat): char {
    if i < |format| then format[i] else '\0'
  }

  /** What one flag character sets */
  function FlagSet(c: char, flags: Flags): Option<Flags> {
    if c == '0' then Some(flags.(zeroPad := true))
    else if c == '-' then Some(flags.(left := true))
    else if c == '+' then Some(flags.(plus := true))
    else if c == ' ' then Some(flags.(space := true))
    else if c == '#' then Some(flags.(hash := true))
    else None
  }

  /** `parse_flags` */
  function ParsedFlags(format: string, i: nat, flags: Flags): (r: (Flags, nat))
    ensures r.1 >= i && (i <= |format| ==> r.1 <= |format|)
    decreases |format| - i
  {
    match FlagSet(At(format, i), flags)
    case None => (flags, i)
    case Some(flags') => ParsedFlags(format, i + 1, flags')
  }

  /** `atou_`, from the value it has so far, in 32 bits */
  function ParsedNumber(format: string, i: nat, n: nat): (r: (nat, nat))
    ensures r.1 >= i && (i <= |format| ==> r.1 <= |format|)
    decreases |format| - i
  {
    if IsDigit(At(format, i)) then ParsedNumber(format, i + 1, (n * 10 + DigitValue(At(format, i))) % TWO32)
    else (n, i)
  }

  /** What has been parsed of a conversion: the next position and the next argument. */
  datatype Spec = Spec(flags: Flags, width: nat, precision: nat, i: nat, j: nat)

  function ParsedWidth(format: string, args: seq<Arg>, s: Spec): (r: Option<Spec>)
    ensures r.Some? ==> r.value.i >= s.i && (s.i <= |format| ==> r.value.i <= |format|)
  {
    if IsDigit(At(format, s.i)) then
      var (n, i) := ParsedNumber(format, s.i, 0);
      Some(s.(width := n, i := i))
    else if At(format, s.i) == '*' then
      match WordAt(args, s.j)
      case None => None
      case Some(v) =>
        var w := Signed(v, TWO32);
        if w < 0 then Some(s.(flags := s.flags.(left := true), width := -w, i := s.i + 1, j := s.j + 1))
        else Some(s.(width := w, i := s.i + 1, j := s.j + 1))
    else Some(s)
  }

  function ParsedPrecision(format: string, args: seq<Arg>, s: Spec): (r: Option<Spec>)
    ensures r.Some? ==> r.value.i >= s.i && (s.i <= |format| ==> r.value.i <= |format|)
  {
    if At(format, s.i) != '.' then Some(s)
    else
      var t := s.(flags := s.flags.(precision := true), i := s.i + 1);
      if IsDigit(At(format, t.i)) then
        var (n, i) := ParsedNumber(format, t.i, 0);
        Some(t.(precision := n, i := i))
      else if At(format, t.i) == '*' then
        match WordAt(args, t.j)
        case None => None
        case Some(v) =>
          var p := Signed(v, TWO32);
          Some(t.(precision := if p > 0 then p else 0, i := t.i + 1, j := t.j + 1))
      else Some(t)
  }

  /** The length field: what its one or two characters set, */
  function LengthFlags(first: char, second: char, flags: Flags): Flags {
    flags.(long := flags.long || first == 'l' || first == 't' || first == 'z',
           longLong := flags.longLong || first == 'j' || (first == 'l' && second == 'l'),
           short := flags.short || first == 'h',
           char_ := flags.char_ || (first == 'h' && second == 'h'))
  }

  /** and how many they are. */
  function LengthChars(first: char, second: char): nat {
    match first
    case 'l' => if second == 'l' then 2 else 1
    case 'h' => if second == 'h' then 2 else 1
    case 't' => 1
    case 'j' => 1
    case 'z' => 1
    case _ => 0
  }

  function ParsedLength(format: string, s: Spec): (r: Spec)
    ensures r.i >= s.i && (s.i <= |format| ==> r.i <= |format|)
  {
    var first, second := At(format, s.i), At(format, s.i + 1);
    s.(flags := LengthFlags(first, second, s.flags), i := s.i + LengthChars(first, second))
  }

  /** Everything between `%` and the conversion character; `None` if an argument for `*` is missing. */
  function ParsedSpec(format: string, args: seq<Arg>, i: nat, j: nat): (r: Option<Spec>)
    ensures r.Some? ==> r.value.i >= i && (i <= |format| ==> r.value.i <= |format|)
  {
    var (flags, i') := ParsedFlags(format, i, NO_FLAGS);
    match ParsedWidth(format, args, Spec(flags, 0, 0, i', j))
    case None => None
    case Some(s) =>
      match ParsedPrecision(format, args, s)
      case None => None
      case Some(t) => Some(ParsedLength(format, t))
  }

  function BaseOf(c: char): (base: nat)
    ensures base in {2, 8, 10, 16}
  {
    match c
    case 'x' => 16
    case 'X' => 16
    case 'o' => 8
    case 'b' => 2
    case _ => 10
  }

  /** The argument of an integer conversion, narrowed as its length says. */
  function IntegerArg(signed: bool, s: Spec, args: seq<Arg>): Option<int> {
    if s.flags.longLong then
      match DoubleWordAt(args, s.j)
      case None => None
      case Some(v) => Some(if signed then Signed(v, TWO64) else v)
    else
      match WordAt(args, s.j)
      case None => None
      case Some(v) =>
        var bound := if s.flags.long then TWO32 else if s.flags.char_ then 0x100
                     else if s.flags.short then 0x1_0000 else TWO32;
        Some(if signed then Signed(v, bound) else v % bound)
  }

  function IntegerFlags(c: char, flags: Flags): Flags {
    var f := flags.(hash := flags.hash && BaseOf(c) != 10, upper := c == 'X', zeroPad := flags.zeroPad && !flags.precision);
    if c == 'd' || c == 'i' then f else f.(plus := false, space := false)
  }

  function CharText(c: char, width: nat, flags: Flags): string {
    if flags.left then [c] + Repeat(' ', width - 1) else Repeat(' ', width - 1) + [c]
  }

  /** As much of a string as the precision allows, padded to the width. */
  function StringText(s: string, precision: nat, width: nat, flags: Flags): string {
    var shown := if flags.precision && precision < |s| then s[..precision] else s;
    if flags.left then shown + Repeat(' ', width - |shown|) else Repeat(' ', width - |shown|) + shown
  }

  /**
   The text of one conversion and the next argument; `None` if the argument is not there or is of the wrong kind, which
   is undefined.
   */
  function Converted(float: FloatPrinter, c: char, s: Spec, args: seq<Arg>): Option<(string, nat)> {
    match c
    case 'n' => if s.j < |args| && args[s.j].Place? then Some(("", s.j + 1)) else None
    case 'c' =>
      (match WordAt(args, s.j)
       case None => None
       case Some(v) => Some((CharText((v % 256) as char, s.width, s.flags), s.j + 1)))
    case 's' =>
      if s.j >= |args| || !args[s.j].Str? then None
      else if args[s.j].s.None? then Some((PaddedReverse(")llun(", s.width, s.flags), s.j + 1))
      else Some((StringText(args[s.j].s.value, s.precision, s.width, s.flags), s.j + 1))
    case 'p' =>
      (match WordAt(args, s.j)
       case None => None
       case Some(v) =>
         var flags := s.flags.(zeroPad := true, pointer := true);
         var text := if v == 0 then PaddedReverse(")lin(", 10, flags)
                     else IntegerText(v, false, 16, s.precision, 10, flags);
         Some((text, s.j + 1)))
    case _ =>
      if c in {'d', 'i', 'u', 'x', 'X', 'o', 'b'} then
        match IntegerArg(c == 'd' || c == 'i', s, args)
        case None => None
        case Some(v) =>
          var magnitude := if v < 0 then -v else v;
          Some((IntegerText(magnitude, v < 0, BaseOf(c), s.precision, s.width, IntegerFlags(c, s.flags)), s.j + 1))
      else if c in {'f', 'F', 'e', 'E', 'g', 'G'} then
        if s.j < |args| && args[s.j].Double? then
          Some((float(args[s.j].v, c, s.precision, s.width, s.flags), s.j + 1))
        else None
      else Some(([c], s.j))
  }

  /** The text of a format from position `i` with the arguments from `j` on. */
  function Text(float: FloatPrinter, format: string, args: seq<Arg>, i: nat, j: nat): Option<string>
    requires i <= |format|
    decreases |format| - i
  {
    if i == |format| then Some("")
    else if format[i] != '%' then
      match Text(float, format, args, i + 1, j)
      case None => None
      case Some(rest) => Some([format[i]] + rest)
    else
      match ParsedSpec(format, args, i + 1, j)
      case None => None
      case Some(s) =>
        if s.i >= |format| then None
        else
          match Converted(float, format[s.i], s, args)
          case None => None
          case Some((text, j')) =>
            match Text(float, format, args, s.i + 1, j')
            case None => None
            case Some(rest) => Some(text + rest)
  }

  /** How many values the place has that `%n` stores to. */
  function StoreBound(flags: Flags): nat {
    if flags.char_ then 0x100 else if flags.short then 0x1_0000 else if flags.long then TWO32
    else if flags.longLong then TWO64 else TWO32
  }

  /** All that is stored from position `i` on, `n` characters having come before. */
  function Stores(float: FloatPrinter, format: string, args: seq<Arg>, i: nat, j: nat, n: nat): seq<Store>
    requires i <= |format| && Text(float, format, args, i, j).Some?
    decreases |format| - i
  {
    if i == |format| then []
    else if format[i] != '%' then Stores(float, format, args, i + 1, j, n + 1)
    else
      var s := ParsedSpec(format, args, i + 1, j).value;
      var (text, j') := Converted(float, format[s.i], s, args).value;
      StoredBy(format[s.i], s, n) + Stores(float, format, args, s.i + 1, j', n + |text|)
  }

  function StoredBy(c: char, s: Spec, n: nat): seq<Store> {
    if c == 'n' then [Store(s.j, StoreBound(s.flags), n % StoreBound(s.flags))] else []
  }

  /** The size that section 7.21.6.1 of ISO/IEC 9899:2011 gives the place for a length modifier. */
  function StandardBound(first: char, second: char): nat {
    if first == 'h' then (if second == 'h' then 0x100 else 0x1_0000)
    else if first == 'j' || (first == 'l' && second == 'l') then TWO64
    else TWO32
  }

  /** `%n` stores as much as the standard says if and only if the length is not `ll`, for which it stores a `long`. */
  lemma StoresAsAsked(first: char, second: char)
    ensures StoreBound(LengthFlags(first, second, NO_FLAGS)) == StandardBound(first, second)
            <==> !(first == 'l' && second == 'l')
  {
  }

  // ---------------------------------------------------------------------------------------------
  // atou_ undoes %u

  lemma {:induction false} ParsedDigits(digits: string, i: nat, n: nat)
    requires i <= |digits| && AllDigits(digits)
    requires Value(digits, 10) < TWO32 && n == Value(digits[..i], 10)
    ensures ParsedNumber(digits, i, n) == (Value(digits, 10), |digits|)
    decreases |digits| - i
  {
    hide Value, DigitValue, IsDigit;
    if i < |digits| {
      assert IsDigit(digits[i]);
      ValueSnoc(digits[..i], digits[i], 10);
      assert digits[..i + 1] == digits[..i] + [digits[i]];
      PrefixIsLess(digits, i + 1);
      var next := Value(digits[..i + 1], 10);
      assert next == (n * 10 + DigitValue(digits[i])) % TWO32;
      ParsedDigits(digits, i + 1, next);
    } else {
      NulEnds();
      assert digits[..i] == digits;
    }
  }

  lemma NulEnds()
    ensures !IsDigit('\0')
  {
  }

  lemma {:induction false} PrefixIsLess(digits: string, i: nat)
    requires i <= |digits|
    ensures Value(digits[..i], 10) <= Value(digits, 10)
    decreases |digits|
  {
    if i < |digits| {
      PrefixIsLess(digits[..|digits| - 1], i);
      assert digits[..|digits| - 1][..i] == digits[..i];
    } else {
      assert digits[..i] == digits;
    }
  }

  /** Every unsigned number that is printed without padding in base 10 is read back as it was. */
  lemma AtouUndoesPrinting(value: nat)
    requires value < TWO32
    ensures var text := IntegerText(value, false, 10, 0, 0, NO_FLAGS); ParsedNumber(text, 0, 0) == (value, |text|)
  {
    hide ReversedDigits, Reversed, Power, Value, ParsedNumber, IntegerText, IsDigit;
    PlainIntegerDenotes(value, 10);
    PlainIsDecimal(value);
    ValueOfNothing(10);
    var text := IntegerText(value, false, 10, 0, 0, NO_FLAGS);
    assert text[..0] == "";
    ParsedDigits(text, 0, 0);
  }

  lemma ValueOfNothing(base: nat)
    ensures Value("", base) == 0
  {
  }

  lemma PlainIsDecimal(value: nat)
    ensures AllDigits(IntegerText(value, false, 10, 0, 0, NO_FLAGS))
  {
    if value == 0 {
      ZeroText(10);
    } else {
      PlainText(value, 10);
      DecimalDigits(value, ROOM);
    }
  }

  predicate AllDigits(s: string) {
    forall k :: 0 <= k < |s| ==> IsDigit(s[k])
  }

  lemma {:induction false} DecimalDigits(value: nat, room: nat)
    ensures AllDigits(ReversedDigits(value, 10, false, room))
    decreases room
  {
    if value != 0 && room != 0 {
      DecimalDigits(value / 10, room - 1);
    }
  }

  // ---------------------------------------------------------------------------------------------
  // Marks, pointers and null

  /** What `#` puts in front of the digits, if there is room */
  lemma MarkIs(n: nat, flags: Flags)
    requires n + 2 <= ROOM
    ensures Mark(n, 16, flags) == if flags.upper then "0X" else "0x"
    ensures Mark(n, 2, flags) == "0b" && Mark(n, 8, flags) == "0"
  {
  }

  /** A missing string reads as `(null)` and a null pointer as `(nil)`. */
  lemma NullIsPrinted(width: nat, flags: Flags)
    ensures PaddedReverse(")llun(", width, flags) == Padded("(null)", width, flags)
    ensures PaddedReverse(")lin(", width, flags) == Padded("(nil)", width, flags)
  {
    hide Repeat;
    var missing, nil := Reversed(")llun("), Reversed(")lin(");
    assert missing == "(null)" by {
      assert forall k :: 0 <= k < 6 ==> missing[k] == "(null)"[k];
    }
    assert nil == "(nil)" by {
      assert forall k :: 0 <= k < 5 ==> nil[k] == "(nil)"[k];
    }
    EmptySum(missing);
    EmptySum(nil);
  }

  /** Any other pointer is printed as `0x` and eight digits. */
  lemma PointerIsHex(v: nat)
    requires 0 < v < TWO32
    ensures var digits := ReversedDigits(v, 16, false, ROOM);
            && |digits| <= 8
            && IntegerText(v, false, 16, 0, 10, NO_FLAGS.(zeroPad := true, pointer := true))
               == "0x" + Repeat('0', 8 - |digits|) + Reversed(digits)
  {
    hide ReversedDigits, Reversed, IntegerText, Layout, Padded, Repeat;
    var flags := NO_FLAGS.(zeroPad := true, pointer := true);
    var digits := ReversedDigits(v, 16, false, ROOM);
    EightDigits(v);
    IntegerShape(v, false, 16, 0, 10, flags);
    PointerLayout(|digits|);
    ZerosPadNothing(Body("0x", Reversed(digits), 8), 10, flags);
  }

  lemma PointerLayout(digits: nat)
    requires digits <= 8
    ensures var flags := NO_FLAGS.(zeroPad := true, pointer := true);
            Layout(digits, false, 16, 0, 10, flags) == ("0x", 8)
  {
    var flags := NO_FLAGS.(zeroPad := true, pointer := true);
    assert WantedDigits(digits, 0, 0, 10, flags) == 10;
    assert TakenBack(10, digits, 16, 0, ZeroWidth(false, 10, flags), flags) == 8;
    MarkIs(8, flags);
    assert SignText(false, flags) + Mark(8, 16, flags) == "0x";
  }

  lemma ZerosPadNothing(body: string, width: nat, flags: Flags)
    requires flags.zeroPad && !flags.left
    ensures Padded(body, width, flags) == body
  {
  }

  lemma EightDigits(v: nat)
    requires v < TWO32
    ensures |ReversedDigits(v, 16, false, ROOM)| <= 8
  {
    assert Power(16, 4) == 0x1_0000;
    PowerSum(16, 4, 4);
    DigitsFit(v, 16, ROOM, 8);
  }

  lemma {:induction false} DigitsFit(value: nat, base: nat, room: nat, n: nat)
    requires 2 <= base <= 16 && value < Power(base, n)
    ensures |ReversedDigits(value, base, false, room)| <= n
    decreases room
  {
    hide Power, DigitChar;
    if value != 0 && room != 0 {
      PowerStep(base, n);
      QuotientFits(value, base, Power(base, n - 1));
      DigitsFit(value / base, base, room - 1, n - 1);
    }
  }

  // ---------------------------------------------------------------------------------------------
  // Whole formats

  /** A format without `%` is printed as it is. */
  lemma {:induction false} PlainIsItself(float: FloatPrinter, format: string, args: seq<Arg>, i: nat, j: nat)
    requires i <= |format| && '%' !in format[i..]
    ensures Text(float, format, args, i, j) == Some(format[i..])
    decreases |format| - i
  {
    hide ParsedSpec, Converted;
    if i < |format| {
      assert format[i..] == [format[i]] + format[i + 1..];
      assert format[i..][0] == format[i] && format[i] != '%';
      PlainIsItself(float, format, args, i + 1, j);
    } else {
      assert format[i..] == "";
    }
  }

  /** `%%` prints a percent sign and takes no argument. */
  lemma PercentIsPrinted(float: FloatPrinter, format: string, args: seq<Arg>, i: nat, j: nat)
    requires i + 1 < |format| && format[i] == '%' && format[i + 1] == '%'
    requires Text(float, format, args, i + 2, j).Some?
    ensures Text(float, format, args, i, j) == Some("%" + Text(float, format, args, i + 2, j).value)
  {
    hide Converted;
    assert ParsedFlags(format, i + 1, NO_FLAGS) == (NO_FLAGS, i + 1);
    PercentSpec(format, args, i + 1, j);
    PercentConverted(float, args, i + 1, j);
  }

  lemma PercentSpec(format: string, args: seq<Arg>, i: nat, j: nat)
    requires i < |format| && format[i] == '%'
    ensures ParsedSpec(format, args, i, j) == Some(Spec(NO_FLAGS, 0, 0, i, j))
  {
    assert ParsedFlags(format, i, NO_FLAGS) == (NO_FLAGS, i);
  }

  lemma PercentConverted(float: FloatPrinter, args: seq<Arg>, i: nat, j: nat)
    ensures Converted(float, '%', Spec(NO_FLAGS, 0, 0, i, j), args) == Some(("%", j))
  {
  }

  /**
   What is stored by a `%n` that ends at `i`, with the arguments from `j` on left: how many of the `total` characters of
   the whole text come before the text of the rest.
   */
  ghost predicate StoredAt(float: FloatPrinter, format: string, args: seq<Arg>, total: nat, st: Store, i: nat, j: nat) {
    && 0 < i <= |format| && format[i - 1] == 'n'
    && Text(float, format, args, i, j).Some? && |Text(float, format, args, i, j).value| <= total
    && st.bound > 0 && st.value == (total - |Text(float, format, args, i, j).value|) % st.bound
  }

  /** Every `%n` stores how many characters have been printed before it. */
  lemma {:induction false} StoresCount(
    float: FloatPrinter, format: string, args: seq<Arg>, i: nat, j: nat, n: nat, total: nat, st: Store)
    requires i <= |format| && Text(float, format, args, i, j).Some?
    requires total == n + |Text(float, format, args, i, j).value| && st in Stores(float, format, args, i, j, n)
    ensures exists i', j' :: StoredAt(float, format, args, total, st, i', j')
    decreases |format| - i
  {
    hide ParsedSpec, Converted, StoreBound;
    if format[i] != '%' {
      StoresCount(float, format, args, i + 1, j, n + 1, total, st);
    } else {
      var s := ParsedSpec(format, args, i + 1, j).value;
      var (text, j') := Converted(float, format[s.i], s, args).value;
      if st in StoredBy(format[s.i], s, n) {
        NothingPrintedByN(float, s, args);
        StoreBoundPositive(s.flags);
        assert StoredAt(float, format, args, total, st, s.i + 1, j');
      } else {
        StoresCount(float, format, args, s.i + 1, j', n + |text|, total, st);
      }
    }
  }

  lemma StoreBoundPositive(flags: Flags)
    ensures StoreBound(flags) > 0
  {
  }

  lemma NothingPrintedByN(float: FloatPrinter, s: Spec, args: seq<Arg>)
    requires Converted(float, 'n', s, args).Some?
    ensures Converted(float, 'n', s, args).value.0 == ""
  {
  }
}
