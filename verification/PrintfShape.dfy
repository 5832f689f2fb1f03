/**
 The shape of a printed integer: padding, sign and prefix, and the reader that undoes `%ld`.
 */
module PrintfShape {
  import opened Numbers
  import opened PrintfSpec
  import opened PrintfProps

  lemma {:induction false} ReverseAppend(a: string, b: string)
    ensures Reverse(a + b) == Reverse(b) + Reverse(a)
    decreases |a|
  {
    if a == [] {
      assert [] + b == b;
    } else {
      assert (a + b)[1..] == a[1..] + b;
      ReverseAppend(a[1..], b);
    }
  }

  lemma {:induction false} ReverseRepeat(c: char, n: nat)
    ensures Reverse(Repeat(c, n)) == Repeat(c, n)
    decreases n
  {
    if n > 0 {
      assert Repeat(c, n)[1..] == Repeat(c, n - 1);
      ReverseRepeat(c, n - 1);
      assert Repeat(c, n - 1) + [c] == Repeat(c, n);
    }
  }

  lemma ReverseOne(c: char)
    ensures Reverse([c]) == [c]
  {
    assert Reverse([]) == [];
  }

  // ---------------------------------------------------------------------------------------------
  // Width and precision
  // ---------------------------------------------------------------------------------------------

  function SignText(negative: bool, flags: Flags): string {
    if negative then "-" else if flags.plus then "+" else if flags.space then " " else ""
  }

  /** The width that zeros fill up to. */
  function ZeroWidth(negative: bool, width: nat, flags: Flags): nat {
    if flags.left || !flags.zeropad then 0 else PaddedWidth(negative, width, flags)
  }

  /** Sign, leading zeros, digits. */
  function Body(digits: string, negative: bool, precision: nat, width: nat, flags: Flags): string {
    SignText(negative, flags)
    + Repeat('0', Less(|digits|, Max(precision, ZeroWidth(negative, width, flags))))
    + Reverse(digits)
  }

  /** Blanks on the side that the flags ask for. */
  function Placed(body: string, width: nat, flags: Flags): string {
    if flags.left then body + Repeat(' ', Less(|body|, width))
    else if flags.zeropad then body
    else Repeat(' ', Less(|body|, width)) + body
  }

  /** The conversion fits the 32-byte buffer. */
  predicate Fits(digits: string, negative: bool, precision: nat, width: nat, flags: Flags) {
    && !flags.hash && !flags.pointer && precision <= 31 && (width <= 32 || !flags.zeropad)
    && |digits| + |SignText(negative, flags)| <= 32
  }

  lemma PadTwice(digits: string, a: nat, b: nat)
    requires |digits| <= 32 && a <= 32 && b <= 32
    ensures PadZeros(PadZeros(digits, a), b) == digits + Repeat('0', Less(|digits|, Max(a, b)))
  {
    assert PadZeros(digits, a) == digits + Repeat('0', Less(|digits|, a));
    assert Repeat('0', Less(|digits|, a)) + Repeat('0', Less(Max(|digits|, a), b)) == Repeat('0', Less(|digits|, Max(a, b)));
  }

  lemma PaddedIs(digits: string, negative: bool, precision: nat, width: nat, flags: Flags)
    requires Fits(digits, negative, precision, width, flags)
    ensures var zeros := Less(|digits|, Max(precision, ZeroWidth(negative, width, flags)));
            Padded(digits, negative, precision, width, flags) == digits + Repeat('0', zeros)
    ensures |Padded(digits, negative, precision, width, flags)| + |SignText(negative, flags)| <= 32
  {
    var zw := ZeroWidth(negative, width, flags);
    PadTwice(digits, zw, precision);
    if flags.left || !flags.zeropad {
      assert Repeat('0', 0) == [] && digits + [] == digits;
    }
  }

  /** Without `#`, the text is exactly the body, with blanks on the side the flags ask for. */
  lemma IntegerShape(digits: string, negative: bool, base: nat, precision: nat, width: nat, flags: Flags)
    requires Fits(digits, negative, precision, width, flags)
    ensures FinalText(digits, negative, base, precision, width, flags) ==
            Placed(Body(digits, negative, precision, width, flags), width, flags)
  {
    var zeros := Less(|digits|, Max(precision, ZeroWidth(negative, width, flags)));
    PaddedIs(digits, negative, precision, width, flags);
    var padded := digits + Repeat('0', zeros);
    var sign := SignText(negative, flags);
    var buf := Finalized(digits, negative, base, precision, width, flags);
    assert buf == padded + sign;
    ReverseAppend(padded, sign);
    ReverseAppend(digits, Repeat('0', zeros));
    ReverseRepeat('0', zeros);
    ReverseSign(negative, flags);
    assert Reverse(buf) == Body(digits, negative, precision, width, flags);
    BlanksAround(buf, if flags.left then width else PaddedWidth(negative, width, flags), flags);
  }

  lemma ReverseSign(negative: bool, flags: Flags)
    ensures Reverse(SignText(negative, flags)) == SignText(negative, flags)
  {
    ReverseOne('-');
    ReverseOne('+');
    ReverseOne(' ');
  }

  lemma BlanksAround(buf: string, width: nat, flags: Flags)
    ensures OutRevText(buf, width, flags) == Placed(Reverse(buf), width, flags)
  {
    var blanks := Repeat(' ', Less(|buf|, width));
    assert [] + Reverse(buf) == Reverse(buf) && blanks + Reverse(buf) + [] == blanks + Reverse(buf);
  }

  /** It is exactly as long as width, sign, precision and digits ask for. */
  lemma IntegerLength(digits: string, negative: bool, base: nat, precision: nat, width: nat, flags: Flags)
    requires Fits(digits, negative, precision, width, flags)
    ensures var sign := if Signs(negative, flags) then 1 else 0;
            |FinalText(digits, negative, base, precision, width, flags)| == Max(width, sign + Max(|digits|, precision))
  {
    IntegerShape(digits, negative, base, precision, width, flags);
  }

  /** The number an integer conversion prints: the narrowed argument. */
  function Narrowed(v: nat, f: Flags): int { if f.signed then SignedArg(v, f) else UnsignedArg(v, f) }

  function Magnitude(x: int): nat { if x < 0 then -x else x }

  /** How much of a value the 32 digits of the buffer hold: less than a 64-bit word in base 2 alone. */
  function Kept(base: nat): nat { if base == 2 then UINT else WORD }

  /**
   Every integer conversion prints sign, zeros and digits with blanks around them, exactly as long as
   width, sign, precision and digits ask for, and the digits denote what the buffer has room for.
   */
  lemma ConversionShape(c: char, v: nat, precision: nat, width: nat, flags: Flags)
    requires IsInteger(c) && v < WORD && !flags.signed && !flags.pointer && !IntegerFlags(c, flags).hash
    requires precision <= 31 && (width <= 32 || !IntegerFlags(c, flags).zeropad)
    ensures var f := IntegerFlags(c, flags);
            var x := Narrowed(v, f);
            var digits, text := StartDigits(Magnitude(x), BaseOf(c), f), ConvertInteger(c, v, precision, width, flags);
            && text == Placed(Body(digits, x < 0, precision, width, f), width, f)
            && |text| == Max(width, (if Signs(x < 0, f) then 1 else 0) + Max(|digits|, precision))
            && ValueRev(digits, BaseOf(c)) == Magnitude(x) % Kept(BaseOf(c))
  {
    var f := IntegerFlags(c, flags);
    var x, base := Narrowed(v, f), BaseOf(c);
    var digits := StartDigits(Magnitude(x), base, f);
    IntegerFlagsKeep(c, flags);
    PrintedText(c, v, precision, width, flags);
    DigitsFit(Magnitude(x), base, f);
    SignFits(x < 0, f, base);
    assert StartFlags(Magnitude(x), base, f) == f;
    IntegerShape(digits, x < 0, base, precision, width, f);
    IntegerLength(digits, x < 0, base, precision, width, f);
  }

  lemma IntegerFlagsKeep(c: char, flags: Flags)
    requires IsInteger(c) && !flags.signed && !flags.pointer
    ensures var f := IntegerFlags(c, flags);
            !f.pointer && (f.signed <==> c == 'd' || c == 'i') && (BaseOf(c) == 2 ==> !f.plus && !f.space)
  {
  }

  lemma NarrowedRange(v: nat, f: Flags)
    requires v < WORD
    ensures -0x8000_0000_0000_0000 <= Narrowed(v, f) < WORD && (f.signed ==> Narrowed(v, f) < 0x8000_0000_0000_0000)
    ensures !f.signed ==> Narrowed(v, f) >= 0
  {
    SignedArgFits(v, f);
  }

  lemma ConvertedText(c: char, v: nat, precision: nat, width: nat, flags: Flags, f: Flags, n: nat)
    requires f == IntegerFlags(c, flags) && -0x8000_0000_0000_0000 <= SignedArg(v, f) < 0x8000_0000_0000_0000
    requires n == if f.signed then AbsForPrinting(SignedArg(v, f)) else UnsignedArg(v, f)
    ensures ConvertInteger(c, v, precision, width, flags) ==
            IntegerText(n, f.signed && SignedArg(v, f) < 0, BaseOf(c), precision, width, f)
  {
  }

  lemma PrintedText(c: char, v: nat, precision: nat, width: nat, flags: Flags)
    requires IsInteger(c) && v < WORD && !flags.signed
    ensures var f := IntegerFlags(c, flags);
            var x := Narrowed(v, f);
            && Magnitude(x) < WORD && (!f.signed ==> x >= 0)
            && ConvertInteger(c, v, precision, width, flags) == IntegerText(Magnitude(x), x < 0, BaseOf(c), precision, width, f)
  {
    var f := IntegerFlags(c, flags);
    var x := Narrowed(v, f);
    SignedArgFits(v, f);
    NarrowedRange(v, f);
    if f.signed { AbsIsMagnitude(x); }
    ConvertedText(c, v, precision, width, flags, f, Magnitude(x));
  }

  lemma SignFits(negative: bool, f: Flags, base: nat)
    requires base == 2 ==> !negative && !f.plus && !f.space
    ensures base == 2 ==> SignText(negative, f) == ""
    ensures |SignText(negative, f)| <= 1
  {
  }

  lemma {:induction false} DigitsBound(v: nat, base: nat, uppercase: bool, room: nat)
    requires 2 <= base <= 36
    ensures |DigitsRev(v, base, uppercase, room)| <= room
    decreases room
  {
    if v > 0 && room > 0 { DigitsBound(v / base, base, uppercase, room - 1); }
  }

  lemma BinaryRoom()
    ensures Power(2, 32) == UINT
  {
    assert Power(2, 8) == 0x100;
    assert Power(2, 16) == 0x100 * Power(2, 8);
    assert Power(2, 24) == 0x100 * Power(2, 16);
    assert Power(2, 32) == 0x100 * Power(2, 24);
  }

  lemma DigitsFit(value: nat, base: nat, flags: Flags)
    requires value < WORD && (base == 2 || base == 8 || base == 10 || base == 16)
    ensures var digits := StartDigits(value, base, flags);
            |digits| <= (if base == 2 then 32 else 22) && ValueRev(digits, base) == value % Kept(base)
  {
    if value == 0 {
      ZeroDigits(base, flags);
    } else if base == 2 {
      DigitsBound(value, 2, flags.uppercase, BUFFER);
      BinaryRoom();
      DigitsDenote(value, 2, flags.uppercase, BUFFER, UINT);
    } else {
      DigitsExact(value, base, flags.uppercase);
      SmallMod(value, WORD);
    }
  }

  /** `%b` prints a value in full exactly when it fits 32 bits. */
  lemma BinaryInFullIff(value: nat, flags: Flags)
    requires value < WORD
    ensures ValueRev(StartDigits(value, 2, flags), 2) == value <==> value < UINT
  {
    DigitsFit(value, 2, flags);
    Division(value, UINT);
    if value < UINT { SmallMod(value, UINT); }
  }

  lemma ZeroDigits(base: nat, flags: Flags)
    requires 2 <= base <= 36
    ensures ValueRev(StartDigits(0, base, flags), base) == 0 && |StartDigits(0, base, flags)| <= 1
  {
    assert ['0'][1..] == [];
    assert ValueRev([], base) == 0;
  }

  // ---------------------------------------------------------------------------------------------
  // Conversions of arguments
  // ---------------------------------------------------------------------------------------------

  /** Narrowing keeps the value modulo the width, in the signed range. */
  lemma NarrowIs(v: nat, modulus: nat)
    requires modulus > 0 && modulus % 2 == 0
    ensures 0 <= 2 * Narrow(v, modulus) + modulus && 2 * Narrow(v, modulus) < modulus
    ensures Narrow(v, modulus) == v % modulus || Narrow(v, modulus) == v % modulus - modulus
  {
  }

  /** A signed conversion prints the magnitude of its narrowed argument, and a minus sign exactly when that is negative. */
  lemma SignedPrints(c: char, v: nat, precision: nat, width: nat, flags: Flags, f: Flags, x: int)
    requires (c == 'd' || c == 'i') && f == IntegerFlags(c, flags) && x == SignedArg(v, f)
    ensures ConvertInteger(c, v, precision, width, flags) ==
            IntegerText(if x < 0 then -x else x, x < 0, 10, precision, width, f)
  {
    SignedArgFits(v, f);
    AbsIsMagnitude(x);
    ConvertedText(c, v, precision, width, flags, f, Magnitude(x));
  }

  /** An unsigned one prints its narrowed argument without a sign, whatever the flags. */
  lemma UnsignedPrints(c: char, v: nat, precision: nat, width: nat, flags: Flags, n: nat)
    requires IsInteger(c) && c != 'd' && c != 'i' && !flags.signed && n == UnsignedArg(v, IntegerFlags(c, flags))
    ensures ConvertInteger(c, v, precision, width, flags) ==
            IntegerText(n, false, BaseOf(c), precision, width, IntegerFlags(c, flags))
    ensures !Signs(false, IntegerFlags(c, flags))
  {
    UnsignedFlags(c, flags);
  }

  lemma UnsignedFlags(c: char, flags: Flags)
    requires c != 'd' && c != 'i' && !flags.signed
    ensures !IntegerFlags(c, flags).signed && !Signs(false, IntegerFlags(c, flags))
  {
  }

  /** `%s` is as long as its width, or the string as far as the precision lets it. */
  lemma StringTextLength(s: string, precision: nat, width: nat, flags: Flags)
    requires |s| <= INT_MAX && (!flags.precision ==> precision == 0)
    ensures |StringText(s, precision, width, flags)| == Max(width, if flags.precision then Min(|s|, precision) else |s|)
  {
  }

  lemma CharTextLength(c: char, width: nat, flags: Flags)
    ensures |CharText(c, width, flags)| == Max(width, 1)
  {
  }

  // ---------------------------------------------------------------------------------------------
  // %p
  // ---------------------------------------------------------------------------------------------

  lemma PointerCut(digits: string, flags: Flags)
    requires 0 < |digits| <= 16 && flags == NO_FLAGS.(zeropad := true, pointer := true)
    ensures var padded := digits + Repeat('0', 18 - |digits|);
            Prefixed(padded, |digits|, 18, 0, 16, flags) == digits + Repeat('0', 16 - |digits|) + ['x', '0']
  {
    var padded := digits + Repeat('0', 18 - |digits|);
    assert padded[..16] == digits + Repeat('0', 16 - |digits|);
  }

  lemma PointerBuffer(digits: string, f: Flags)
    requires 0 < |digits| <= 16 && f == NO_FLAGS.(zeropad := true, pointer := true)
    ensures Finalized(digits, false, 16, 0, 18, f) == digits + Repeat('0', 16 - |digits|) + ['x', '0']
  {
    PadTwice(digits, 18, 0);
    assert Padded(digits, false, 0, 18, f) == digits + Repeat('0', 18 - |digits|);
    PointerCut(digits, f);
  }

  lemma PointerReversed(digits: string, zeros: nat)
    ensures Reverse(digits + Repeat('0', zeros) + ['x', '0']) == "0x" + Repeat('0', zeros) + Reverse(digits)
  {
    ReverseAppend(digits + Repeat('0', zeros), ['x', '0']);
    ReverseAppend(digits, Repeat('0', zeros));
    ReverseRepeat('0', zeros);
    ReversePair();
    assert "0x" + (Repeat('0', zeros) + Reverse(digits)) == "0x" + Repeat('0', zeros) + Reverse(digits);
  }

  lemma PointerText(v: nat, f: Flags, digits: string, room: nat)
    requires v > 0 && f == NO_FLAGS.(zeropad := true, pointer := true) && room == BUFFER
    requires digits == DigitsRev(v, 16, false, room)
    ensures ConvertPointer(v, 0, NO_FLAGS) == OutRevText(Finalized(digits, false, 16, 0, 18, f), 18, f)
  {
  }

  /** `%p` prints any pointer but null as `0x` and sixteen hexadecimal digits that denote it. */
  lemma PointerShape(v: nat, room: nat)
    requires 0 < v < WORD && room == BUFFER
    ensures var digits := Numeral(v, 16, false);
            && |digits| <= 16
            && ConvertPointer(v, 0, NO_FLAGS) == "0x" + Repeat('0', 16 - |digits|) + digits
            && ValueRev(DigitsRev(v, 16, false, room), 16) == v
  {
    var f, digits := NO_FLAGS.(zeropad := true, pointer := true), DigitsRev(v, 16, false, room);
    DigitsExact(v, 16, false);
    PointerText(v, f, digits, room);
    PointerBuffer(digits, f);
    PointerReversed(digits, 16 - |digits|);
    BlanksAround(digits + Repeat('0', 16 - |digits|) + ['x', '0'], 18, f);
  }

  lemma ReversePair()
    ensures Reverse(['x', '0']) == "0x"
  {
    assert ['x', '0'][1..] == ['0'];
    ReverseOne('0');
  }

  // ---------------------------------------------------------------------------------------------
  // %ld and atoi
  // ---------------------------------------------------------------------------------------------

  /** `ABS_FOR_PRINTING` is the magnitude, for the most negative number too. */
  lemma AbsIsMagnitude(x: int)
    requires -0x8000_0000_0000_0000 <= x < 0x8000_0000_0000_0000
    ensures AbsForPrinting(x) == if x < 0 then -x else x
  {
  }

  function Decimal(x: int): string { if x < 0 then "-" + Numeral(-x, 10, false) else Numeral(x, 10, false) }

  lemma PlainDigits(value: nat, f: Flags)
    requires value < WORD && f == NO_FLAGS.(long := true, signed := true)
    ensures |StartDigits(value, 10, f)| <= 20 && Reverse(StartDigits(value, 10, f)) == Numeral(value, 10, false)
  {
    if value > 0 { DigitsExact(value, 10, false); } else { ReverseOne('0'); }
  }

  lemma PlainText(x: int, f: Flags)
    requires -0x8000_0000_0000_0000 <= x < 0x8000_0000_0000_0000 && f == NO_FLAGS.(long := true, signed := true)
    ensures IntegerText(AbsForPrinting(x), x < 0, 10, 0, 0, f) == Decimal(x)
  {
    var digits := StartDigits(AbsForPrinting(x), 10, f);
    AbsIsMagnitude(x);
    PlainDigits(AbsForPrinting(x), f);
    IntegerShape(digits, x < 0, 10, 0, 0, f);
    PlainBody(digits, x < 0, f);
  }

  lemma PlainBody(digits: string, negative: bool, f: Flags)
    requires f == NO_FLAGS.(long := true, signed := true)
    ensures Placed(Body(digits, negative, 0, 0, f), 0, f) == (if negative then "-" else "") + Reverse(digits)
  {
    assert Repeat('0', 0) == [] && Repeat(' ', 0) == [];
  }

  /** `%ld` prints any 64-bit number as its decimal numeral. */
  lemma LongText(v: nat)
    requires v < WORD
    ensures Render("%ld", 0, [Word(v)]) == Text(Decimal(Narrow(v, WORD)))
  {
    LongConversion(v);
    LongFormat(v, Decimal(Narrow(v, WORD)));
  }

  lemma LongConversion(v: nat)
    requires v < WORD
    ensures ConvertInteger('d', v, 0, 0, NO_FLAGS.(long := true)) == Decimal(Narrow(v, WORD))
  {
    PlainText(Narrow(v, WORD), NO_FLAGS.(long := true, signed := true));
  }

  lemma LongFormat(v: nat, text: string)
    requires ConvertInteger('d', v, 0, 0, NO_FLAGS.(long := true)) == text
    ensures Render("%ld", 0, [Word(v)]) == Text(text)
  {
    var s, args := "%ld", [Word(v)];
    assert ParseFlags(s, 1, NO_FLAGS) == (1, NO_FLAGS);
    assert WidthField(s, 1, NO_FLAGS, args) == Field(1, NO_FLAGS, 0, args);
    assert PrecisionField(s, 1, NO_FLAGS, args) == Field(1, NO_FLAGS, 0, args);
    assert LengthField(s, 1, NO_FLAGS, args) == Field(2, NO_FLAGS.(long := true), 0, args);
    assert Conversions(s, 0, args) == Printed(text, 3, []);
    assert Render(s, 3, []) == Text([]);
    assert text + [] == text;
  }

  /** Where the digits that stand from `i` on end. */
  function DigitsEnd(s: string, i: nat): (j: nat)
    ensures Digits(s, i, j) && !IsDigit(CharAt(s, j))
    decreases |s| - i
  {
    if i < |s| && IsDigit(s[i]) then DigitsEnd(s, i + 1) else i
  }

  lemma {:induction false} EndOfDigits(s: string, i: nat, j: nat)
    requires Digits(s, i, j) && !IsDigit(CharAt(s, j))
    ensures DigitsEnd(s, i) == j
    decreases j - i
  {
    if i < j { EndOfDigits(s, i + 1, j); }
  }

  /** `atoi`: the value of the digits that the string begins with, which must fit a long for the source to define it. */
  method Atoi(s: string) returns (num: int)
    requires DecimalValue(s, 0, DigitsEnd(s, 0)) < 0x8000_0000_0000_0000
    ensures num == DecimalValue(s, 0, DigitsEnd(s, 0))
  {
    var i := 0;
    num := 0;
    while i < |s| && s[i] != '\0' && s[i] >= '0' && s[i] <= '9'
      invariant Digits(s, 0, i) && i <= |s| && num == DecimalValue(s, 0, i)
    {
      num := num * 10 + (s[i] as int - '0' as int);
      i := i + 1;
    }
    EndOfDigits(s, 0, i);
  }

  /** The string `t` stands in `s` at position `i`. */
  predicate Stands(t: string, s: string, i: nat) { i + |t| <= |s| && forall k :: 0 <= k < |t| ==> s[i + k] == t[k] }

  /** The value of a numeral that stands at position `i`. */
  lemma {:induction false} NumeralValue(n: nat, t: string, s: string, i: nat)
    requires t == Numeral(n, 10, false) && Stands(t, s, i)
    ensures Digits(s, i, i + |t|) && DecimalValue(s, i, i + |t|) == n
    decreases n
  {
    var q, d, u := n / 10, n % 10, t[..|t| - 1];
    NumeralStep(n, 10, false, q, d);
    assert s[i + |u|] == t[|u|] == DigitChar(d, false);
    if q > 0 {
      assert u == Numeral(q, 10, false);
      NumeralValue(q, u, s, i);
    }
  }

  lemma DecimalReads(v: nat)
    ensures var t := Decimal(v); DigitsEnd(t, 0) == |t| && DecimalValue(t, 0, DigitsEnd(t, 0)) == v
  {
    var t := Numeral(v, 10, false);
    NumeralValue(v, t, t, 0);
    EndOfDigits(t, 0, |t|);
  }

  /** `atoi` reads back what `%ld` printed, for every non-negative long. */
  lemma AtoiReadsLong(v: nat, o: Output)
    requires v < 0x8000_0000_0000_0000 && o == Render("%ld", 0, [Word(v)])
    ensures o.Text? && DecimalValue(o.chars, 0, DigitsEnd(o.chars, 0)) == v
  {
    LongText(v);
    NarrowSmall(v);
    DecimalReads(v);
  }

  lemma NarrowSmall(v: nat)
    requires v < 0x8000_0000_0000_0000
    ensures Narrow(v, WORD) == v
  {
  }

  /** The value that `vsnprintf` returns is the length of the text exactly up to INT_MAX. */
  lemma TotalIsLength(n: nat)
    ensures Narrow(n, UINT) == n <==> n <= INT_MAX
  {
  }
}
