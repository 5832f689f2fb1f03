/**
 The printf engine as it runs: an output position that wraps, a bounded buffer, and a format pointer.
 */
module Printf {
  import opened Numbers
  import opened PrintfSpec
  import opened PrintfBuffer
  import opened PrintfFields

  /** The distance between two positions of the 32-bit counter. */
  function Sub32(a: nat, b: nat): nat
    requires b < UINT
  {
    if a >= b then a - b else a + UINT - b
  }

  lemma {:induction false} ReverseSnoc(s: string, c: char)
    ensures Reverse(s + [c]) == [c] + Reverse(s)
    decreases |s|
  {
    if s != [] {
      assert (s + [c])[1..] == s[1..] + [c];
      ReverseSnoc(s[1..], c);
    }
  }

  lemma WrapStep(n: nat)
    ensures (n + 1) % UINT == if n % UINT + 1 == UINT then 0 else n % UINT + 1
  {
  }

  lemma WrapDistance(n: nat, k: nat)
    requires k < UINT
    ensures Sub32((n + k) % UINT, n % UINT) == k
  {
  }

  method DivMod(value: nat, base: nat) returns (quotient: nat, digit: nat)
    requires base > 0
    ensures quotient == value / base && digit == value % base && digit < base
  {
    quotient, digit := value / base, value % base;
  }

  lemma DigitOut(done: string, value: nat, base: nat, uppercase: bool, room: nat, quotient: nat, digit: nat)
    requires 2 <= base <= 36 && value > 0 && room > 0 && quotient == value / base && digit == value % base < base
    ensures done + DigitsRev(value, base, uppercase, room) ==
            done + [DigitChar(digit, uppercase)] + DigitsRev(quotient, base, uppercase, room - 1)
  {
    assert DigitsRev(value, base, uppercase, room) == [DigitChar(digit, uppercase)] + DigitsRev(quotient, base, uppercase, room - 1);
  }

  /** `output_gadget_t` with a buffer; `sent` is all it was given. */
  class Gadget {
    const buffer: array<char>
    const max_chars: nat
    var pos: nat
    ghost var sent: string
    ghost const start: string

    /** The counter is the number of characters modulo 2^32, and the buffer holds what they left there. */
    ghost predicate Valid()
      reads this, buffer
    {
      && pos == |sent| % UINT && max_chars <= buffer.Length == |start| && max_chars <= INT_MAX
      && buffer[..] == Filled(sent, max_chars, start)
    }

    /** `buffer_gadget`: the size is narrowed to 32 bits and then limited. */
    constructor (buffer: array<char>, count: nat)
      requires SizeLimit(count) <= buffer.Length
      ensures Valid() && this.buffer == buffer && max_chars == SizeLimit(count)
      ensures sent == [] && start == buffer[..]
    {
      this.buffer, max_chars, pos := buffer, SizeLimit(count), 0;
      sent, start := [], buffer[..];
    }

    method Put(c: char)
      requires Valid()
      modifies this`pos, this`sent, buffer
      ensures Valid() && sent == old(sent) + [c]
    {
      var write_pos := pos;
      WrapStep(|sent|);
      FilledOneMore(sent, c, max_chars, start);
      pos := if pos + 1 == UINT then 0 else pos + 1;
      sent := sent + [c];
      if write_pos >= max_chars { return; }
      buffer[write_pos] := c;
    }

    /** `append_termination_with_gadget`. */
    method Terminate()
      requires Valid()
      modifies buffer
      ensures buffer[..] == Terminated(sent, max_chars, start)
    {
      if max_chars == 0 { return; }
      var null_char_pos := if pos < max_chars then pos else max_chars - 1;
      ghost var filled := buffer[..];
      buffer[null_char_pos] := '\0';
      assert buffer[..] == filled[null_char_pos := '\0'];
    }

    method Pad(n: nat, width: nat)
      requires Valid() && n <= width < UINT
      modifies this`pos, this`sent, buffer
      ensures Valid() && sent == old(sent) + Repeat(' ', width - n)
    {
      var i := n;
      while i < width
        invariant n <= i <= width && Valid() && sent == old(sent) + Repeat(' ', i - n)
      {
        Put(' ');
        i := i + 1;
      }
    }

    /** The characters of a buffer, the last one first. */
    method PutReversed(buf: seq<char>)
      requires Valid()
      modifies this`pos, this`sent, buffer
      ensures Valid() && sent == old(sent) + Reverse(buf)
    {
      var len := |buf|;
      assert buf[len..] == [];
      while len > 0
        invariant len <= |buf| && Valid() && sent == old(sent) + Reverse(buf[len..])
      {
        len := len - 1;
        Put(buf[len]);
        assert buf[len..] == [buf[len]] + buf[len + 1..];
      }
      assert buf[0..] == buf;
    }

    method OutRev(buf: seq<char>, width: nat, flags: Flags)
      requires Valid() && width < UINT && |buf| < UINT
      modifies this`pos, this`sent, buffer
      ensures Valid() && sent == old(sent) + OutRevText(buf, width, flags)
    {
      var start_pos := pos;
      ghost var first := sent;
      if !flags.left && !flags.zeropad && |buf| < width { Pad(|buf|, width); }
      PutReversed(buf);
      if flags.left { PadFrom(start_pos, first, width); }
    }

    /** The padding on the right: until `width` characters have gone out since `start_pos`. */
    method PadFrom(start_pos: nat, ghost first: string, width: nat)
      requires Valid() && width < UINT && start_pos == |first| % UINT && |first| <= |sent| < |first| + UINT
      modifies this`pos, this`sent, buffer
      ensures Valid() && sent == old(sent) + Repeat(' ', Less(|old(sent)| - |first|, width))
    {
      ghost var n := 0;
      WrapDistance(|first|, |sent| - |first|);
      while Sub32(pos, start_pos) < width
        invariant Valid() && sent == old(sent) + Repeat(' ', n) && |sent| - |first| < UINT
        invariant n == 0 || |sent| - |first| <= width
        invariant Sub32(pos, start_pos) == |sent| - |first|
        decreases width + |old(sent)| - |sent|
      {
        Put(' ');
        n := n + 1;
        WrapDistance(|first|, |sent| - |first|);
      }
    }

    // -------------------------------------------------------------------------------------------
    // Integers
    // -------------------------------------------------------------------------------------------

    /** `while (len < n && len < 32) buf[len++] = '0'`. */
    method FillZeros(buf: array<char>, len: nat, n: nat) returns (end: nat)
      requires buf.Length == BUFFER && len <= BUFFER
      modifies buf
      ensures end <= BUFFER && buf[..end] == PadZeros(old(buf[..len]), n)
    {
      end := len;
      while end < n && end < BUFFER
        invariant len <= end <= BUFFER && end <= if len < Min(n, BUFFER) then Min(n, BUFFER) else len
        invariant buf[..end] == old(buf[..len]) + Repeat('0', end - len)
      {
        buf[end] := '0';
        end := end + 1;
      }
    }

    /** `if (len < 32) buf[len++] = c`. */
    method Append(buf: array<char>, len: nat, c: char) returns (end: nat)
      requires buf.Length == BUFFER && len <= BUFFER
      modifies buf
      ensures end <= BUFFER && buf[..end] == Push(old(buf[..len]), c)
    {
      end := len;
      if len < BUFFER {
        buf[len] := c;
        end := len + 1;
      }
    }

    /** The base prefix, where the padding may give way to it. */
    method AddPrefix(buf: array<char>, len: nat, unpadded_len: nat, base: nat, precision: nat, width: nat, flags: Flags)
      returns (end: nat)
      requires buf.Length == BUFFER && len <= BUFFER
      modifies buf
      ensures end <= BUFFER && buf[..end] == Prefixed(old(buf[..len]), unpadded_len, width, precision, base, flags)
    {
      end := len;
      if !flags.precision && end > 0 && (end == precision || end == width) {
        if unpadded_len < end { end := end - 1; }
        if end > 0 && (base == 16 || base == 2) && unpadded_len < end { end := end - 1; }
      }
      assert buf[..end] == old(buf[..len])[..end];
      if base == 16 && !flags.uppercase {
        end := Append(buf, end, 'x');
      } else if base == 16 && flags.uppercase {
        end := Append(buf, end, 'X');
      } else if base == 2 {
        end := Append(buf, end, 'b');
      }
      end := Append(buf, end, '0');
    }

    /** Leading zeros, for a zero-padded width and for the precision. */
    method AddZeros(buf: array<char>, len0: nat, negative: bool, precision: nat, width0: nat, flags: Flags)
      returns (len: nat, width: nat)
      requires buf.Length == BUFFER && len0 <= BUFFER
      modifies buf
      ensures len <= BUFFER && buf[..len] == Padded(old(buf[..len0]), negative, precision, width0, flags)
      ensures width == if flags.left then width0 else PaddedWidth(negative, width0, flags)
    {
      len, width := len0, width0;
      if !flags.left {
        if width > 0 && flags.zeropad && (negative || flags.plus || flags.space) { width := width - 1; }
        if flags.zeropad { len := FillZeros(buf, len, width); }
      }
      len := FillZeros(buf, len, precision);
    }

    method AddSign(buf: array<char>, len: nat, negative: bool, flags: Flags) returns (end: nat)
      requires buf.Length == BUFFER && len <= BUFFER
      modifies buf
      ensures end <= BUFFER && buf[..end] == Signed(old(buf[..len]), negative, flags)
    {
      end := len;
      if negative {
        end := Append(buf, len, '-');
      } else if flags.plus {
        end := Append(buf, len, '+');
      } else if flags.space {
        end := Append(buf, len, ' ');
      }
    }

    method PrintIntegerFinalization(buf: array<char>, len0: nat, negative: bool, base: nat, precision: nat, width0: nat, flags: Flags)
      requires Valid() && buf.Length == BUFFER && len0 <= BUFFER && buf != buffer && width0 < UINT
      modifies this`pos, this`sent, buffer, buf
      ensures Valid() && sent == old(sent) + FinalText(old(buf[..len0]), negative, base, precision, width0, flags)
    {
      var len, width := AddZeros(buf, len0, negative, precision, width0, flags);
      var hash := flags.hash;
      if base == 8 && len > len0 { hash := false; }
      if hash || flags.pointer { len := AddPrefix(buf, len, len0, base, precision, width, flags); }
      len := AddSign(buf, len, negative, flags);
      OutRev(buf[..len], width, flags);
    }

    /** The digit loop: lowest digit first, as far as the buffer goes. */
    method FillDigits(buf: array<char>, value0: nat, base: nat, uppercase: bool) returns (len: nat)
      requires buf.Length == BUFFER && 2 <= base <= 36
      modifies buf
      ensures len <= BUFFER && buf[..len] == DigitsRev(value0, base, uppercase, BUFFER)
    {
      var value: nat := value0;
      len := 0;
      while value > 0 && len < BUFFER
        invariant len <= BUFFER
        invariant buf[..len] + DigitsRev(value, base, uppercase, BUFFER - len) == DigitsRev(value0, base, uppercase, BUFFER)
        decreases BUFFER - len
      {
        var quotient, digit := DivMod(value, base);
        DigitOut(buf[..len], value, base, uppercase, BUFFER - len, quotient, digit);
        len := Append(buf, len, DigitChar(digit, uppercase));
        value := quotient;
      }
    }

    method PrintInteger(value: nat, negative: bool, base: nat, precision: nat, width: nat, flags0: Flags)
      requires Valid() && 2 <= base <= 36 && width < UINT
      modifies this`pos, this`sent, buffer
      ensures Valid() && sent == old(sent) + IntegerText(value, negative, base, precision, width, flags0)
    {
      var buf := new char[BUFFER];
      var flags, len := flags0, 0;
      if value == 0 {
        if !flags.precision {
          buf[0] := '0';
          len := 1;
          flags := flags.(hash := false);
        } else if base == 16 {
          flags := flags.(hash := false);
        }
      } else {
        len := FillDigits(buf, value, base, flags.uppercase);
      }
      assert buf[..len] == StartDigits(value, base, flags0);
      PrintIntegerFinalization(buf, len, negative, base, precision, width, flags);
    }

    // -------------------------------------------------------------------------------------------
    // Characters and strings
    // -------------------------------------------------------------------------------------------

    method PadTo(l: nat, width: nat)
      requires Valid() && width < UINT
      modifies this`pos, this`sent, buffer
      ensures Valid() && sent == old(sent) + Repeat(' ', Less(l, width))
    {
      if l < width { Pad(l, width); }
    }

    method PrintChar(c: char, width: nat, flags: Flags)
      requires Valid() && width < UINT
      modifies this`pos, this`sent, buffer
      ensures Valid() && sent == old(sent) + CharText(c, width, flags)
    {
      if !flags.left { PadTo(1, width); }
      Put(c);
      if flags.left { PadTo(1, width); }
    }

    /** The characters of a string, as many as the precision allows. */
    method PutString(s: string, precision0: nat, limited: bool)
      requires Valid()
      modifies this`pos, this`sent, buffer
      ensures Valid() && sent == old(sent) + if limited then s[..Min(|s|, precision0)] else s
    {
      var p: nat, precision: nat := 0, precision0;
      while p < |s| && (!limited || precision > 0)
        invariant p <= |s| && Valid() && sent == old(sent) + s[..p]
        invariant limited ==> precision + p == precision0
        decreases |s| - p
      {
        Put(s[p]);
        assert s[..p + 1] == s[..p] + [s[p]];
        p := p + 1;
        if limited { precision := precision - 1; }
      }
      if limited { assert p == Min(|s|, precision0); } else { assert s[..p] == s; }
    }

    method PrintString(s: string, precision: nat, width: nat, flags: Flags)
      requires Valid() && width < UINT
      modifies this`pos, this`sent, buffer
      ensures Valid() && sent == old(sent) + StringText(s, precision, width, flags)
    {
      var l := Min(|s|, if precision > 0 then precision else INT_MAX);
      if flags.precision { l := Min(l, precision); }
      ghost var before, text := sent, if flags.precision then s[..Min(|s|, precision)] else s;
      if !flags.left { PadTo(l, width); }
      PutString(s, precision, flags.precision);
      if flags.left { PadTo(l, width); }
      StringParts(before, text, Repeat(' ', Less(l, width)));
    }

    // -------------------------------------------------------------------------------------------
    // One conversion
    // -------------------------------------------------------------------------------------------

    method PrintIntegerArg(c: char, v: nat, precision: nat, width: nat, flags0: Flags)
      requires Valid() && width < UINT && IsInteger(c)
      modifies this`pos, this`sent, buffer
      ensures Valid() && sent == old(sent) + ConvertInteger(c, v, precision, width, flags0)
    {
      var flags, base := IntegerFlags(c, flags0), BaseOf(c);
      SignedArgFits(v, flags);
      if flags.signed {
        var value := SignedArg(v, flags);
        PrintInteger(AbsForPrinting(value), value < 0, base, precision, width, flags);
      } else {
        PrintInteger(UnsignedArg(v, flags), false, base, precision, width, flags);
      }
    }

    method PrintPointer(v: nat, precision: nat, flags0: Flags)
      requires Valid()
      modifies this`pos, this`sent, buffer
      ensures Valid() && sent == old(sent) + ConvertPointer(v, precision, flags0)
    {
      var flags := flags0.(zeropad := true, pointer := true);
      if v == 0 {
        OutRev(")lin(", POINTER_WIDTH, flags);
      } else {
        PrintInteger(v, false, 16, precision, POINTER_WIDTH, flags);
      }
    }

    method PrintArg(c: char, precision: nat, width: nat, flags: Flags, args: seq<Arg>) returns (rest: seq<Arg>)
      requires Valid() && width < UINT && Convert(c, precision, width, flags, args).Emits?
      modifies this`pos, this`sent, buffer
      ensures Valid() && sent == old(sent) + Convert(c, precision, width, flags, args).text
      ensures rest == Convert(c, precision, width, flags, args).args
    {
      rest := args;
      if IsInteger(c) {
        PrintIntegerArg(c, args[0].value, precision, width, flags);
        rest := args[1..];
      } else if c == 'c' {
        PrintChar((args[0].value % 256) as char, width, flags);
        rest := args[1..];
      } else if c == 's' {
        match args[0].chars {
          case None => OutRev(")llun(", width, flags);
          case Some(s) => PrintString(s, precision, width, flags);
        }
        rest := args[1..];
      } else if c == 'p' {
        PrintPointer(args[0].value, precision, flags);
        rest := args[1..];
      } else {
        Put(c);
      }
    }

    // -------------------------------------------------------------------------------------------
    // The format
    // -------------------------------------------------------------------------------------------

    /** The conversion after the `%` at `i`; `at` is where the format goes on, unless it ended. */
    method PrintConversion(format: string, i: nat, args: seq<Arg>) returns (ended: bool, at: nat, rest: seq<Arg>)
      requires Valid() && i < |format| && !Conversions(format, i, args).Break?
      modifies this`pos, this`sent, buffer
      ensures Valid()
      ensures match Conversions(format, i, args)
              case Return => ended && sent == old(sent)
              case Printed(text, j, more) => !ended && at == j && rest == more && sent == old(sent) + text
              case Break => false
    {
      ended, at, rest := true, i + 1, args;
      if CharAt(format, at) == '\0' { return; }
      var flags;
      at, flags := ReadFlags(format, at);
      var width := ReadWidth(format, at, flags, rest);
      if width.End? { return; }
      var precision := ReadPrecision(format, width.at, width.flags, width.args);
      if precision.End? { return; }
      var length := ReadLength(format, precision.at, precision.flags, precision.args);
      if length.End? { return; }
      rest := PrintArg(CharAt(format, length.at), precision.value, width.value, length.flags, length.args);
      ended, at := false, length.at + 1;
    }

    /** One turn of the loop: a plain character, or a conversion, which may end the format. */
    method PrintNext(format: string, i: nat, args: seq<Arg>, ghost out: string)
      returns (ended: bool, at: nat, rest: seq<Arg>, ghost text: string)
      requires Valid() && i < |format| && format[i] != '\0' && Then(out, Render(format, i, args)).Text?
      modifies this`pos, this`sent, buffer
      ensures Valid() && sent == old(sent) + text && at > i
      ensures Then(out, Render(format, i, args)) == if ended then Text(out + text) else Then(out + text, Render(format, at, rest))
    {
      RenderStep(out, format, i, args);
      if format[i] != '%' {
        Put(format[i]);
        ended, at, rest, text := false, i + 1, args, [format[i]];
      } else {
        ghost var step := Conversions(format, i, args);
        ended, at, rest := PrintConversion(format, i, args);
        text := if ended then [] else step.text;
        if ended { at := i + 1; }
      }
    }

    method FormatStringLoop(format: string, args0: seq<Arg>)
      requires Valid() && Render(format, 0, args0).Text?
      modifies this`pos, this`sent, buffer
      ensures Valid() && sent == old(sent) + Render(format, 0, args0).chars
    {
      var i, args := 0, args0;
      ghost var out: string, whole := [], Render(format, 0, args0);
      while i < |format| && format[i] != '\0'
        invariant Valid() && sent == old(sent) + out
        invariant Then(out, Render(format, i, args)) == whole
        decreases |format| - i
      {
        var ended, at, rest, text := PrintNext(format, i, args, out);
        Regroup(old(sent), out, text);
        out := out + text;
        if ended { break; }
        i, args := at, rest;
      }
    }

    /** `vsnprintf_impl`. */
    method Print(format: string, args: seq<Arg>) returns (total: int)
      requires Valid() && sent == [] && Render(format, 0, args).Text?
      modifies this`pos, this`sent, buffer
      ensures var t := Render(format, 0, args).chars;
              && total == Narrow(|t|, UINT) && (|t| <= INT_MAX ==> total == |t|)
              && buffer[..] == Terminated(t, max_chars, start)
    {
      FormatStringLoop(format, args);
      assert sent == Render(format, 0, args).chars;
      NarrowTwice(|sent|);
      Terminate();
      total := Narrow(pos, UINT);
    }
  }

  lemma StringParts(out: string, text: string, pad: string)
    ensures out + text + pad == out + ([] + text + pad) && out + pad + text == out + (pad + text + [])
  {
  }

  lemma Regroup(a: string, b: string, c: string)
    ensures a + b + c == a + (b + c)
  {
  }

  /** What is already out and one more step of the format. */
  lemma RenderStep(out: string, s: string, i: nat, args: seq<Arg>)
    requires i < |s| && s[i] != '\0' && Then(out, Render(s, i, args)).Text?
    ensures s[i] != '%' ==> Then(out, Render(s, i, args)) == Then(out + [s[i]], Render(s, i + 1, args))
    ensures s[i] == '%' ==>
      match Conversions(s, i, args)
      case Return => Then(out, Render(s, i, args)) == Text(out)
      case Break => false
      case Printed(text, at, rest) => Then(out, Render(s, i, args)) == Then(out + text, Render(s, at, rest))
  {
    if s[i] != '%' {
      var o := Render(s, i + 1, args);
      assert Render(s, i, args) == Then([s[i]], o);
      assert out + ([s[i]] + o.chars) == out + [s[i]] + o.chars;
    } else {
      match Conversions(s, i, args)
      case Return => assert out + [] == out;
      case Break =>
      case Printed(text, at, rest) =>
        var o := Render(s, at, rest);
        assert out + (text + o.chars) == out + text + o.chars;
    }
  }

  method ReadFlags(s: string, i: nat) returns (j: nat, flags: Flags)
    ensures (j, flags) == ParseFlags(s, i, NO_FLAGS)
    ensures i <= j && (forall k :: i <= k < j ==> IsFlag(CharAt(s, k))) && !IsFlag(CharAt(s, j))
    ensures flags == WithFlags(NO_FLAGS, s, i, j)
  {
    ParseFlagsMeans(s, i, NO_FLAGS);
    j, flags := i, NO_FLAGS;
    while true
      invariant ParseFlags(s, j, flags) == ParseFlags(s, i, NO_FLAGS)
      decreases |s| - j
    {
      match CharAt(s, j) {
        case '0' => flags := flags.(zeropad := true);
        case '-' => flags := flags.(left := true);
        case '+' => flags := flags.(plus := true);
        case ' ' => flags := flags.(space := true);
        case '#' => flags := flags.(hash := true);
        case _ => return;
      }
      j := j + 1;
    }
  }

  method ReadNumber(s: string, i: nat) returns (j: nat, n: nat)
    ensures (j, n) == Atou(s, i, 0)
    ensures Digits(s, i, j) && !IsDigit(CharAt(s, j)) && n == DecimalValue(s, i, j) % UINT
  {
    AtouMeans(s, i);
    j, n := i, 0;
    while j < |s| && IsDigit(s[j])
      invariant Atou(s, j, n) == Atou(s, i, 0)
      decreases |s| - j
    {
      n := (n * 10 + (s[j] as int - '0' as int)) % UINT;
      j := j + 1;
    }
  }

  method ReadWidth(s: string, i: nat, flags: Flags, args: seq<Arg>) returns (f: Field)
    ensures f == WidthField(s, i, flags, args)
  {
    f := Field(i, flags, 0, args);
    if IsDigit(CharAt(s, i)) {
      var j, n := ReadNumber(s, i);
      f := Field(j, flags, n, args);
    } else if CharAt(s, i) == '*' {
      if args == [] || !args[0].Word? { return Wrong; }
      var w := Narrow(args[0].value, UINT);
      if w < 0 { f := Field(i, flags.(left := true), -w, args[1..]); } else { f := Field(i, flags, w, args[1..]); }
      f := Advance(s, f);
    }
  }

  method ReadPrecision(s: string, i: nat, flags0: Flags, args: seq<Arg>) returns (f: Field)
    ensures f == PrecisionField(s, i, flags0, args)
  {
    if CharAt(s, i) != '.' { return Field(i, flags0, 0, args); }
    var flags := flags0.(precision := true);
    if CharAt(s, i + 1) == '\0' { return End; }
    f := Field(i + 1, flags, 0, args);
    if IsDigit(CharAt(s, i + 1)) {
      var j, n := ReadNumber(s, i + 1);
      f := Field(j, flags, n, args);
    } else if CharAt(s, i + 1) == '*' {
      if args == [] || !args[0].Word? { return Wrong; }
      var p := Narrow(args[0].value, UINT);
      f := Advance(s, Field(i + 1, flags, if p > 0 then p else 0, args[1..]));
    }
  }

  method ReadLength(s: string, i: nat, flags: Flags, args: seq<Arg>) returns (f: Field)
    ensures f == LengthField(s, i, flags, args)
  {
    match CharAt(s, i) {
      case 'l' => f := ReadRepeated(s, i, 'l', flags.(long := true), flags.(long := true, long_long := true), args);
      case 'h' => f := ReadRepeated(s, i, 'h', flags.(half := true), flags.(half := true, half_half := true), args);
      case 't' => f := Advance(s, Field(i, flags.(long := true), 0, args));
      case 'j' => f := Advance(s, Field(i, flags.(long := true), 0, args));
      case 'z' => f := Advance(s, Field(i, flags.(long := true), 0, args));
      case _ => f := Field(i, flags, 0, args);
    }
  }

  /** A length letter that may be doubled. */
  method ReadRepeated(s: string, i: nat, c: char, once: Flags, twice: Flags, args: seq<Arg>) returns (f: Field)
    requires c != '\0'
    ensures f == if CharAt(s, i + 1) == c then Advance(s, Field(i + 1, twice, 0, args)) else Advance(s, Field(i, once, 0, args))
  {
    if CharAt(s, i + 1) == '\0' { return End; }
    if CharAt(s, i + 1) != c { return Field(i + 1, once, 0, args); }
    if CharAt(s, i + 2) == '\0' { return End; }
    f := Field(i + 2, twice, 0, args);
  }

  lemma NarrowTwice(n: nat)
    ensures Narrow(n % UINT, UINT) == Narrow(n, UINT) && (n <= INT_MAX ==> Narrow(n, UINT) == n && n % UINT == n)
  {
  }

  /** The size `vsnprintf` goes by: narrowed to 32 bits and then limited. */
  function SizeLimit(n: nat): nat { Min(n % UINT, INT_MAX) }

  /**
   `vsnprintf`: the return value depends only on the text, and the buffer holds what a 32-bit position
   leaves of it, which is as much as fits for every text shorter than 2^32.
   */
  method Vsnprintf(s: array<char>, n: nat, format: string, args: seq<Arg>) returns (total: int)
    requires SizeLimit(n) <= s.Length && Render(format, 0, args).Text?
    modifies s
    ensures var t, max := Render(format, 0, args).chars, SizeLimit(n);
            && total == Narrow(|t|, UINT) && (|t| <= INT_MAX ==> total == |t|)
            && s[..] == Terminated(t, max, old(s[..]))
            && (|t| < UINT || max <= 1 ==> Stored(t, max, old(s[..]), s[..]))
  {
    ghost var t, max, before := Render(format, 0, args).chars, SizeLimit(n), s[..];
    var gadget := new Gadget(s, n);
    total := gadget.Print(format, args);
    if |t| < UINT { ShortIsStored(t, max, before); } else if max <= 1 { OnlyNul(t, max, before); }
  }
}
