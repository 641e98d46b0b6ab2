/**
 The code of lib/printf/printf.c: characters go one by one to an output gadget, which writes them to a buffer or to a
 function and counts them all.
 */
module Printf {
  import opened Numbers
  import opened Options
  import opened PrintfText

  /** `PRINTF_MAX_POSSIBLE_BUFFER_SIZE` */
  const MAX_BUFFER: nat := 0x7fff_ffff

  /** `output_gadget_t`; `sink` is what the function has been given. */
  class Gadget {
    const toFunction: bool
    const buffer: array<char>
    const maxChars: nat
    var pos: nat
    var sink: string
    var stores: seq<Store>      // what %n has stored
    ghost const before: string  // what the buffer held
    ghost var text: string      // all characters so far, written or not

    ghost predicate Valid()
      reads `pos, `sink, `text, buffer
    {
      && pos == |text|
      && (toFunction ==> sink == text[..Min(pos, maxChars)])
      && (!toFunction ==>
            && maxChars <= buffer.Length == |before|
            && buffer[..] == text[..Min(pos, maxChars)] + before[Min(pos, maxChars)..])
    }

    /** `buffer_gadget`, with the first `size` cells of a buffer; size 0 stands for a null pointer as well. */
    constructor ForBuffer(buffer: array<char>, size: nat)
      requires size <= buffer.Length
      ensures Valid() && text == "" && stores == [] && !toFunction && this.buffer == buffer && before == buffer[..]
      ensures maxChars == Min(size, MAX_BUFFER)
    {
      toFunction, this.buffer, pos, sink, stores, text := false, buffer, 0, "", [], "";
      maxChars := if size > MAX_BUFFER then MAX_BUFFER else size;
      before := buffer[..];
    }

    /** `function_gadget` */
    constructor ForFunction()
      ensures Valid() && text == "" && stores == [] && toFunction && maxChars == MAX_BUFFER && fresh(buffer)
    {
      toFunction, pos, sink, stores, text := true, 0, "", [], "";
      maxChars := MAX_BUFFER;
      buffer := new char[0];
      before := "";
    }

    /** `putchar_via_gadget` */
    method PutChar(c: char)
      requires Valid()
      modifies `pos, `sink, `text, buffer
      ensures Valid() && text == old(text) + [c]
    {
      var writePos := pos;
      pos := pos + 1;
      text := text + [c];
      if writePos >= maxChars {
        return;
      }
      if toFunction {
        sink := sink + [c];
      } else {
        buffer[writePos] := c;
      }
    }

    /** `append_termination_with_gadget` */
    method AppendTermination()
      requires Valid()
      modifies buffer
      ensures unchanged(this)
      ensures toFunction || maxChars == 0 ==> unchanged(buffer)
      ensures !toFunction && maxChars > 0 ==>
                var n := Min(|text|, maxChars - 1); buffer[..] == Terminated(text[..n], before)
    {
      if toFunction || maxChars == 0 {
        return;
      }
      var nullPos := if pos < maxChars then pos else maxChars - 1;
      buffer[nullPos] := '\0';
    }

    /** A loop of `putchar_via_gadget( output, ' ' )` */
    method PutBlanks(n: int)
      requires Valid()
      modifies `pos, `sink, `text, buffer
      ensures Valid() && text == old(text) + Repeat(' ', n)
    {
      var i := 0;
      while i < n
        invariant Valid() && 0 <= i && (i <= n || i == 0)
        invariant text == old(text) + Repeat(' ', i)
      {
        PutChar(' ');
        i := i + 1;
      }
      assert Repeat(' ', i) == Repeat(' ', n);
    }

    /** `out_rev_` */
    method OutRev(buf: string, width: nat, flags: Flags)
      requires Valid()
      modifies `pos, `sink, `text, buffer
      ensures Valid() && text == old(text) + PaddedReverse(buf, width, flags)
    {
      hide Repeat, Reversed;
      var startPos := pos;
      if !flags.left && !flags.zeroPad {
        PutBlanks(width - |buf|);
      }
      PutReversed(buf);
      if flags.left {
        FillBlanks(startPos, width);
      }
    }

    method PutReversed(buf: string)
      requires Valid()
      modifies `pos, `sink, `text, buffer
      ensures Valid() && text == old(text) + Reversed(buf)
    {
      hide Valid;
      var len := |buf|;
      while len > 0
        invariant Valid() && 0 <= len <= |buf|
        invariant text == old(text) + Reversed(buf[len..])
      {
        len := len - 1;
        PutChar(buf[len]);
        assert buf[len..] == [buf[len]] + buf[len + 1..];
      }
      assert buf[len..] == buf;
    }

    /** Its last loop: blanks until `width` characters have come since `startPos` */
    method FillBlanks(startPos: nat, width: nat)
      requires Valid() && startPos <= pos
      modifies `pos, `sink, `text, buffer
      ensures Valid() && text == old(text) + Repeat(' ', width - (old(pos) - startPos))
    {
      ghost var n := 0;
      while pos - startPos < width
        invariant Valid() && pos == old(pos) + n
        invariant 0 <= n && (n == 0 || n <= width - (old(pos) - startPos))
        invariant text == old(text) + Repeat(' ', n)
        decreases width - (pos - startPos)
      {
        PutChar(' ');
        n := n + 1;
      }
      assert Repeat(' ', n) == Repeat(' ', width - (old(pos) - startPos));
    }

    /** `print_integer_finalization`: zeros, prefix and sign behind the reversed digits in `buf` */
    method FinishInteger(buf: array<char>, digits: nat, negative: bool, base: nat, precision: nat, width: nat, flags: Flags)
      requires Valid() && buf.Length == ROOM && digits <= ROOM && buf != buffer
      modifies `pos, `sink, `text, buffer, buf
      ensures Valid()
      ensures text == old(text) + Finalized(old(buf[..digits]), negative, base, precision, width, flags)
    {
      hide WithZeros, WithPrefix, WithSign, PaddedReverse, ZeroFilled;
      ghost var d := buf[..digits];
      var width', len := PutZeros(buf, digits, negative, precision, width, flags);
      ghost var zeros := buf[..len];
      NoPrefix(zeros, digits, base, precision, width', flags);
      if flags.pointer || (flags.hash && !(base == 8 && len > digits)) {
        len := PutPrefix(buf, len, digits, base, precision, width', flags);
      }
      assert buf[..len] == WithPrefix(zeros, digits, base, precision, width', flags);
      len := PutSign(buf, len, negative, flags);
      OutRev(buf[..len], width', flags);
    }

    /** Its leading zeros; the width that is left for them is smaller by the sign. */
    static method PutZeros(buf: array<char>, digits: nat, negative: bool, precision: nat, width: nat, flags: Flags)
      returns (width': nat, len: nat)
      requires buf.Length == ROOM && digits <= ROOM
      modifies buf
      ensures digits <= len <= ROOM && width' == ZeroWidth(negative, width, flags)
      ensures buf[..len] == WithZeros(old(buf[..digits]), negative, precision, width, flags)
    {
      len, width' := digits, width;
      if !flags.left {
        if width > 0 && flags.zeroPad && (negative || flags.plus || flags.space) {
          width' := width - 1;
        }
        if flags.zeroPad {
          len := FillZeros(buf, len, width');
        }
      }
      len := FillZeros(buf, len, precision);
    }

    /** Its sign, if there is room */
    static method PutSign(buf: array<char>, len: nat, negative: bool, flags: Flags) returns (len': nat)
      requires buf.Length == ROOM && len <= ROOM
      modifies buf
      ensures len' <= ROOM && buf[..len'] == WithSign(old(buf[..len]), negative, flags)
    {
      len' := len;
      if len < ROOM {
        if negative {
          buf[len] := '-';
          len' := len + 1;
        } else if flags.plus {
          buf[len] := '+';
          len' := len + 1;
        } else if flags.space {
          buf[len] := ' ';
          len' := len + 1;
        }
      }
    }

    /** A loop that pads with zeros up to a length or the end of the digit buffer */
    static method FillZeros(buf: array<char>, len: nat, upTo: nat) returns (len': nat)
      requires buf.Length == ROOM && len <= ROOM
      modifies buf
      ensures len' <= ROOM && buf[..len'] == ZeroFilled(old(buf[..len]), upTo)
    {
      ghost var d := buf[..len];
      len' := len;
      while len' < upTo && len' < ROOM
        invariant len <= len' <= ROOM && (len' == len || len' <= upTo)
        invariant buf[..len'] == d + Repeat('0', len' - len)
      {
        buf[len'] := '0';
        len' := len' + 1;
        assert buf[..len'] == d + Repeat('0', len' - len - 1) + ['0'];
      }
      assert Repeat('0', len' - len) == Repeat('0', Min(upTo, ROOM) - len);
    }

    /** The part of `print_integer_finalization` for `#` and `%p` */
    static method PutPrefix(buf: array<char>, len: nat, digits: nat, base: nat, precision: nat, width: nat, flags: Flags)
      returns (len': nat)
      requires buf.Length == ROOM && digits <= len <= ROOM
      requires flags.pointer || (flags.hash && !(base == 8 && len > digits))
      modifies buf
      ensures len' <= ROOM
      ensures buf[..len'] == WithPrefix(old(buf[..len]), digits, base, precision, width, flags)
    {
      hide TakenBack, BaseMark;
      ghost var r := buf[..len];
      len' := TakeBack(len, digits, base, precision, width, flags);
      ghost var n := len';
      assert buf[..n] == r[..n];
      len' := PutMark(buf, len', base, flags);
      if len' < ROOM {
        len' := Put(buf, len', '0');
      }
    }

    /** It takes back zeros that the padding has put where the prefix is to go, */
    static method TakeBack(len: nat, digits: nat, base: nat, precision: nat, width: nat, flags: Flags) returns (n: nat)
      requires digits <= len
      ensures n <= len && n == TakenBack(len, digits, base, precision, width, flags)
    {
      n := len;
      if !flags.precision && n > 0 && (n == precision || n == width) {
        if digits < n {
          n := n - 1;
        }
        if n > 0 && (base == 16 || base == 2) && digits < n {
          n := n - 1;
        }
      }
    }

    /** and puts the letter of the base. */
    static method PutMark(buf: array<char>, len: nat, base: nat, flags: Flags) returns (len': nat)
      requires buf.Length == ROOM && len <= ROOM
      modifies buf
      ensures len' <= ROOM && buf[..len'] == old(buf[..len]) + BaseMark(len, base, flags)
    {
      len' := len;
      if base == 16 && !flags.upper && len < ROOM {
        len' := Put(buf, len, 'x');
      } else if base == 16 && flags.upper && len < ROOM {
        len' := Put(buf, len, 'X');
      } else if base == 2 && len < ROOM {
        len' := Put(buf, len, 'b');
      }
    }

    /** `buf[len++] = c` */
    static method Put(buf: array<char>, len: nat, c: char) returns (len': nat)
      requires len < buf.Length
      modifies buf
      ensures len' == len + 1 && buf[..len'] == old(buf[..len]) + [c]
    {
      buf[len] := c;
      len' := len + 1;
    }

    /** `print_integer` */
    method PrintInteger(value: nat, negative: bool, base: nat, precision: nat, width: nat, flags: Flags)
      requires Valid() && 2 <= base <= 16
      modifies `pos, `sink, `text, buffer
      ensures Valid() && text == old(text) + IntegerText(value, negative, base, precision, width, flags)
    {
      var buf := new char[ROOM](_ => ' ');
      var len := 0;
      var flags' := flags;
      if value == 0 {
        if !flags.precision {
          buf[0] := '0';
          len := 1;
          assert buf[..len] == "0";
          flags' := flags.(hash := false);
        } else if base == 16 {
          flags' := flags.(hash := false);
        }
      } else {
        len := PutDigits(buf, value, base, flags.upper);
      }
      assert (buf[..len], flags') == StartDigits(value, base, flags);
      FinishInteger(buf, len, negative, base, precision, width, flags');
    }

    /** Its loop over the digits, the body of which comes first */
    static method PutDigits(buf: array<char>, value: nat, base: nat, upper: bool) returns (len: nat)
      requires buf.Length == ROOM && value > 0 && 2 <= base <= 16
      modifies buf
      ensures len <= ROOM && buf[..len] == ReversedDigits(value, base, upper, ROOM)
    {
      hide ReversedDigits, DigitChar;
      len := 0;
      var v: nat := value;
      var more := true;
      while more
        invariant 0 <= len <= ROOM && more == (v != 0 && len < ROOM)
        invariant buf[..len] + ReversedDigits(v, base, upper, ROOM - len) == ReversedDigits(value, base, upper, ROOM)
        decreases ROOM - len
      {
        ghost var before := buf[..len];
        DigitsStep(v, base, upper, ROOM - len);
        var digit, rest := Divided(v, base);
        len := Put(buf, len, DigitChar(digit, upper));
        v := rest;
        Joined(before, DigitChar(digit, upper), ReversedDigits(v, base, upper, ROOM - len));
        more := v != 0 && len < ROOM;
      }
      NoMoreDigits(v, base, upper, ROOM - len);
    }

    static method Divided(v: nat, base: nat) returns (digit: nat, rest: nat)
      requires 2 <= base <= 16
      ensures digit == v % base < base && rest == v / base
    {
      digit, rest := v % base, v / base;
    }

    /** The case for `%c` */
    method PutCharacter(c: char, width: nat, flags: Flags)
      requires Valid()
      modifies `pos, `sink, `text, buffer
      ensures Valid() && text == old(text) + CharText(c, width, flags)
    {
      hide Valid, Repeat;
      if !flags.left {
        PutBlanks(width - 1);
      }
      PutChar(c);
      if flags.left {
        PutBlanks(width - 1);
      }
    }

    /** The case for `%s` */
    method PutString(p: string, precision: nat, width: nat, flags: Flags)
      requires Valid()
      modifies `pos, `sink, `text, buffer
      ensures Valid() && text == old(text) + StringText(p, precision, width, flags)
    {
      hide Valid, Repeat;
      ghost var shown := if flags.precision && precision < |p| then p[..precision] else p;
      var l := if flags.precision && precision < |p| then precision else |p|;
      if !flags.left {
        PutBlanks(width - l);
      }
      ghost var padded := text;
      var k := 0;
      while k < |p| && (!flags.precision || k < precision)
        invariant Valid() && 0 <= k <= |shown|
        invariant text == padded + shown[..k]
      {
        PutChar(p[k]);
        assert shown[..k + 1] == shown[..k] + [p[k]];
        k := k + 1;
      }
      assert shown[..k] == shown;
      if flags.left {
        PutBlanks(width - l);
      }
    }

    /** What `print_floating_point` puts out, character by character */
    method PutText(t: string)
      requires Valid()
      modifies `pos, `sink, `text, buffer
      ensures Valid() && text == old(text) + t
    {
      for k := 0 to |t|
        invariant Valid() && text == old(text) + t[..k]
      {
        PutChar(t[k]);
        assert t[..k + 1] == t[..k] + [t[k]];
      }
      assert t[..|t|] == t;
    }

    /** The conversion `c` with its argument; the next argument is returned. */
    method Convert(float: FloatPrinter, c: char, s: Spec, args: seq<Arg>) returns (j: nat)
      requires Valid() && Converted(float, c, s, args).Some?
      modifies `pos, `sink, `text, `stores, buffer
      ensures Valid()
      ensures text == old(text) + Converted(float, c, s, args).value.0 && j == Converted(float, c, s, args).value.1
      ensures stores == old(stores) + StoredBy(c, s, old(pos))
    {
      hide Valid, IntegerText, CharText, StringText, PaddedReverse, IntegerFlags;
      j := s.j + 1;
      if c == 'c' {
        PutCharacter((WordAt(args, s.j).value % 256) as char, s.width, s.flags);
      } else if c == 's' {
        if args[s.j].s.None? {
          OutRev(")llun(", s.width, s.flags);
        } else {
          PutString(args[s.j].s.value, s.precision, s.width, s.flags);
        }
      } else if c == 'p' {
        var v := WordAt(args, s.j).value;
        var flags := s.flags.(zeroPad := true, pointer := true);
        if v == 0 {
          OutRev(")lin(", 10, flags);
        } else {
          PrintInteger(v, false, 16, s.precision, 10, flags);
        }
      } else if c in {'d', 'i', 'u', 'x', 'X', 'o', 'b'} {
        var v := IntegerArg(c == 'd' || c == 'i', s, args).value;
        PrintInteger(if v < 0 then -v else v, v < 0, BaseOf(c), s.precision, s.width, IntegerFlags(c, s.flags));
      } else if c in {'f', 'F', 'e', 'E', 'g', 'G'} {
        PutText(float(args[s.j].v, c, s.precision, s.width, s.flags));
      } else if c == 'n' {
        stores := stores + [Store(s.j, StoreBound(s.flags), pos % StoreBound(s.flags))];
      } else {
        PutChar(c);
        j := s.j;
      }
    }

    /** `_vsnprintf` */
    method Vsnprintf(float: FloatPrinter, format: string, args: seq<Arg>) returns (written: nat)
      requires Valid() && text == "" && stores == [] && Text(float, format, args, 0, 0).Some?
      modifies `pos, `sink, `text, `stores, buffer
      ensures text == Text(float, format, args, 0, 0).value && written == |text|
      ensures stores == Stores(float, format, args, 0, 0, 0)
      ensures toFunction ==> sink == text[..Min(|text|, maxChars)]
      ensures !toFunction && maxChars > 0 ==>
                maxChars <= |before| && buffer[..] == Terminated(text[..Min(|text|, maxChars - 1)], before)
      ensures !toFunction && maxChars == 0 ==> buffer[..] == before
    {
      hide Text, Converted, ParsedSpec, Stores, StoredBy;
      var i, j: nat := 0, 0;
      TextStep(float, format, args, i, j);
      while i < |format|
        invariant Valid() && 0 <= i <= |format|
        invariant Text(float, format, args, i, j).Some?
        invariant Text(float, format, args, 0, 0).value == text + Text(float, format, args, i, j).value
        invariant Stores(float, format, args, 0, 0, 0) == stores + Stores(float, format, args, i, j, pos)
      {
        TextStep(float, format, args, i, j);
        StoresStep(float, format, args, i, j, pos);
        ghost var was, stored := text, stores;
        if format[i] != '%' {
          PutChar(format[i]);
          Regroup(was, [format[i]], Text(float, format, args, i + 1, j).value);
          i := i + 1;
        } else {
          var s := ParseSpec(format, args, i + 1, j);
          ghost var here, done := Converted(float, format[s.i], s, args).value, StoredBy(format[s.i], s, pos);
          j := Convert(float, format[s.i], s, args);
          Regroup(was, here.0, Text(float, format, args, s.i + 1, j).value);
          Regroup(stored, done, Stores(float, format, args, s.i + 1, j, pos));
          i := s.i + 1;
        }
      }
      TextEnds(float, format, args, j, pos);
      AppendTermination();
      written := pos;
    }
  }

  /** `parse_flags` */
  method ParseFlags(format: string, i: nat) returns (flags: Flags, next: nat)
    requires i <= |format|
    ensures (flags, next) == ParsedFlags(format, i, NO_FLAGS)
  {
    flags, next := NO_FLAGS, i;
    var done := false;
    while !done
      invariant i <= next <= |format|
      invariant ParsedFlags(format, next, flags) == ParsedFlags(format, i, NO_FLAGS)
      invariant done ==> ParsedFlags(format, next, flags) == (flags, next)
      decreases |format| - next, !done
    {
      match At(format, next)
      case '0' => flags, next := flags.(zeroPad := true), next + 1;
      case '-' => flags, next := flags.(left := true), next + 1;
      case '+' => flags, next := flags.(plus := true), next + 1;
      case ' ' => flags, next := flags.(space := true), next + 1;
      case '#' => flags, next := flags.(hash := true), next + 1;
      case _ => done := true;
    }
  }

  /** `atou_`: reads a number and moves on behind it. */
  method Atou(format: string, i: nat) returns (n: nat, next: nat)
    requires i <= |format|
    ensures (n, next) == ParsedNumber(format, i, 0)
  {
    n, next := 0, i;
    while IsDigit(At(format, next))
      invariant i <= next <= |format|
      invariant ParsedNumber(format, next, n) == ParsedNumber(format, i, 0)
      decreases |format| - next
    {
      n := (n * 10 + DigitValue(format[next])) % TWO32;
      next := next + 1;
    }
  }

  /** The width field */
  method ParseWidth(format: string, args: seq<Arg>, s: Spec) returns (t: Spec)
    requires s.i <= |format| && ParsedWidth(format, args, s).Some?
    ensures t == ParsedWidth(format, args, s).value
  {
    hide ParsedNumber, IsDigit;
    t := s;
    if IsDigit(At(format, s.i)) {
      var n, after := Atou(format, s.i);
      t := t.(width := n, i := after);
    } else if At(format, s.i) == '*' {
      var w := Signed(WordAt(args, s.j).value, TWO32);
      if w < 0 {
        t := t.(flags := t.flags.(left := true), width := -w);
      } else {
        t := t.(width := w);
      }
      t := t.(i := s.i + 1, j := s.j + 1);
    }
  }

  /** The precision field */
  method ParsePrecision(format: string, args: seq<Arg>, s: Spec) returns (t: Spec)
    requires s.i <= |format| && ParsedPrecision(format, args, s).Some?
    ensures t == ParsedPrecision(format, args, s).value
  {
    hide ParsedNumber, IsDigit;
    t := s;
    if At(format, s.i) == '.' {
      t := t.(flags := t.flags.(precision := true), i := s.i + 1);
      if IsDigit(At(format, t.i)) {
        var n, after := Atou(format, t.i);
        t := t.(precision := n, i := after);
      } else if At(format, t.i) == '*' {
        var p := Signed(WordAt(args, t.j).value, TWO32);
        t := t.(precision := if p > 0 then p else 0, i := t.i + 1, j := t.j + 1);
      }
    }
  }

  /** The parsing part of the loop in `_vsnprintf` */
  method ParseSpec(format: string, args: seq<Arg>, i: nat, j: nat) returns (s: Spec)
    requires i <= |format| && ParsedSpec(format, args, i, j).Some?
    ensures s == ParsedSpec(format, args, i, j).value
  {
    hide ParsedFlags, ParsedWidth, ParsedPrecision, ParsedLength;
    var flags, next := ParseFlags(format, i);
    s := ParseWidth(format, args, Spec(flags, 0, 0, next, j));
    s := ParsePrecision(format, args, s);
    s := ParsedLength(format, s);
  }

  /** One step of the loop, in terms of what is still to be printed. */
  lemma TextStep(float: FloatPrinter, format: string, args: seq<Arg>, i: nat, j: nat)
    requires i <= |format| && Text(float, format, args, i, j).Some?
    ensures i < |format| && format[i] != '%' ==>
              && Text(float, format, args, i + 1, j).Some?
              && Text(float, format, args, i, j).value == [format[i]] + Text(float, format, args, i + 1, j).value
    ensures i < |format| && format[i] == '%' ==>
              && ParsedSpec(format, args, i + 1, j).Some?
              && var s := ParsedSpec(format, args, i + 1, j).value;
              && s.i < |format| && Converted(float, format[s.i], s, args).Some?
              && var (text, j') := Converted(float, format[s.i], s, args).value;
              && Text(float, format, args, s.i + 1, j').Some?
              && Text(float, format, args, i, j).value == text + Text(float, format, args, s.i + 1, j').value
  {
  }

  /** And in terms of what is still to be stored */
  lemma StoresStep(float: FloatPrinter, format: string, args: seq<Arg>, i: nat, j: nat, n: nat)
    requires i < |format| && Text(float, format, args, i, j).Some?
    ensures format[i] != '%' ==>
              && Text(float, format, args, i + 1, j).Some?
              && Stores(float, format, args, i, j, n) == Stores(float, format, args, i + 1, j, n + 1)
    ensures format[i] == '%' ==>
              && ParsedSpec(format, args, i + 1, j).Some?
              && var s := ParsedSpec(format, args, i + 1, j).value;
              && s.i < |format| && Converted(float, format[s.i], s, args).Some?
              && var (text, j') := Converted(float, format[s.i], s, args).value;
              && Text(float, format, args, s.i + 1, j').Some?
              && Stores(float, format, args, i, j, n)
                 == StoredBy(format[s.i], s, n) + Stores(float, format, args, s.i + 1, j', n + |text|)
  {
    hide StoredBy;
  }

  lemma TextEnds(float: FloatPrinter, format: string, args: seq<Arg>, j: nat, n: nat)
    ensures Text(float, format, args, |format|, j) == Some("") && Stores(float, format, args, |format|, j, n) == []
  {
  }

  lemma Regroup<T>(a: seq<T>, b: seq<T>, c: seq<T>)
    ensures a + (b + c) == a + b + c
  {
  }

  /** `vsnprintf_`; `stores` is what it has stored for `%n`. */
  method PrintToBuffer(float: FloatPrinter, buffer: array<char>, size: nat, format: string, args: seq<Arg>)
    returns (written: nat, stores: seq<Store>)
    requires size <= buffer.Length && Text(float, format, args, 0, 0).Some?
    modifies buffer
    ensures var text := Text(float, format, args, 0, 0).value; var room := Min(size, 0x7fff_ffff);
            && written == |text|
            && buffer[..] == if room == 0 then old(buffer[..])
                             else Terminated(text[..Min(|text|, room - 1)], old(buffer[..]))
    ensures stores == Stores(float, format, args, 0, 0, 0)
  {
    hide Text, Stores;
    var gadget := new Gadget.ForBuffer(buffer, size);
    written := gadget.Vsnprintf(float, format, args);
    stores := gadget.stores;
  }

  /** `vfctprintf` and `vprintf_`; `sink` is what the function is given. */
  method PrintToFunction(float: FloatPrinter, format: string, args: seq<Arg>)
    returns (written: nat, sink: string, stores: seq<Store>)
    requires Text(float, format, args, 0, 0).Some?
    ensures var text := Text(float, format, args, 0, 0).value;
            written == |text| && sink == text[..Min(|text|, 0x7fff_ffff)]
    ensures stores == Stores(float, format, args, 0, 0, 0)
  {
    hide Text, Stores;
    var gadget := new Gadget.ForFunction();
    written := gadget.Vsnprintf(float, format, args);
    sink, stores := gadget.sink, gadget.stores;
  }

  /** carbon_diag_push (common/src/diag.cpp): the first pass measures what the second pass emits. */
  method DiagPush(float: FloatPrinter, format: string, args: seq<Arg>) returns (measured: nat, emitted: string)
    requires Text(float, format, args, 0, 0).Some?
    ensures measured <= 0x7fff_ffff ==> |emitted| == measured && emitted == Text(float, format, args, 0, 0).value
  {
    hide Text, Stores;
    var nothing := new char[0];
    var first, second: seq<Store>;
    measured, first := PrintToBuffer(float, nothing, 0, format, args);
    var written: nat;
    written, emitted, second := PrintToFunction(float, format, args);
    assert emitted == Text(float, format, args, 0, 0).value[..Min(measured, MAX_BUFFER)];
  }

  lemma Joined(a: string, c: char, b: string)
    ensures a + ([c] + b) == a + [c] + b
  {
  }

  lemma NoMoreDigits(v: nat, base: nat, upper: bool, room: nat)
    requires 2 <= base <= 16 && (v == 0 || room == 0)
    ensures ReversedDigits(v, base, upper, room) == ""
  {
  }

  lemma NoPrefix(r: string, digits: nat, base: nat, precision: nat, width: nat, flags: Flags)
    requires digits <= |r|
    ensures !(flags.pointer || (flags.hash && !(base == 8 && |r| > digits))) ==>
              WithPrefix(r, digits, base, precision, width, flags) == r
  {
  }

  /** What terminating leaves in the buffer: the beginning of the text, a NUL, and the rest as it was. */
  function Terminated(start: string, before: string): string
    requires |start| < |before|
  {
    start + "\0" + before[|start| + 1..]
  }
}
