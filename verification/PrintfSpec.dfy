/**
 What the integer and string conversions of `printf` send to their sink, as a function of the format
 and the arguments.
 */
module PrintfSpec {
  import opened Options
  import opened Numbers

  const UINT: nat := 0x1_0000_0000
  const INT_MAX: nat := 0x7FFF_FFFF
  const BUFFER: nat := 32

  /** The flag bits. */
  datatype Flags = Flags(
    zeropad: bool, left: bool, plus: bool, space: bool, hash: bool, uppercase: bool, half_half: bool, half: bool,
    long: bool, long_long: bool, precision: bool, pointer: bool, signed: bool)

  const NO_FLAGS: Flags := Flags(false, false, false, false, false, false, false, false, false, false, false, false, false)

  /** One argument: a 64-bit register or stack slot, or a string up to its NUL, where None is the null pointer. */
  datatype Arg = Word(value: nat) | Str(chars: Option<string>)

  function Reverse(s: string): (r: string)
    ensures |r| == |s|
  {
    if s == [] then [] else Reverse(s[1..]) + [s[0]]
  }

  /** The character at a position of a string that ends in NUL. */
  function CharAt(s: string, i: nat): char { if i < |s| then s[i] else '\0' }

  // ---------------------------------------------------------------------------------------------
  // Output of one conversion
  // ---------------------------------------------------------------------------------------------

  /** `out_rev`. */
  function OutRevText(buf: string, width: nat, flags: Flags): string {
    (if !flags.left && !flags.zeropad then Repeat(' ', Less(|buf|, width)) else [])
    + Reverse(buf)
    + (if flags.left then Repeat(' ', Less(|buf|, width)) else [])
  }

  function DigitChar(d: nat, uppercase: bool): char
    requires d < 36
  {
    if d < 10 then ('0' as int + d) as char else ((if uppercase then 'A' else 'a') as int + (d - 10)) as char
  }

  /** The digits of a value, lowest first, as many as there is room for. */
  function DigitsRev(value: nat, base: nat, uppercase: bool, room: nat): string
    requires 2 <= base <= 36
    decreases room
  {
    if value == 0 || room == 0 then []
    else [DigitChar(value % base, uppercase)] + DigitsRev(value / base, base, uppercase, room - 1)
  }

  /** Zeros up to `n`, as far as the buffer goes. */
  function PadZeros(buf: string, n: nat): string { buf + Repeat('0', Less(|buf|, Min(n, BUFFER))) }

  function Signs(negative: bool, flags: Flags): bool { negative || flags.plus || flags.space }

  function PaddedWidth(negative: bool, width: nat, flags: Flags): nat {
    if width > 0 && flags.zeropad && Signs(negative, flags) then width - 1 else width
  }

  /** The zero padding of `print_integer_finalization`. */
  function Padded(buf: string, negative: bool, precision: nat, width: nat, flags: Flags): string {
    PadZeros(if !flags.left && flags.zeropad then PadZeros(buf, PaddedWidth(negative, width, flags)) else buf, precision)
  }

  function Push(buf: string, c: char): string { if |buf| < BUFFER then buf + [c] else buf }

  /** The base prefix. */
  function Prefixed(buf: string, unpadded: nat, width: nat, precision: nat, base: nat, flags: Flags): string {
    var cut :=
      if !flags.precision && |buf| > 0 && (|buf| == precision || |buf| == width) then
        var one := if unpadded < |buf| then |buf| - 1 else |buf|;
        if one > 0 && (base == 16 || base == 2) && unpadded < one then one - 1 else one
      else |buf|;
    var letter :=
      if base == 16 then Push(buf[..cut], if flags.uppercase then 'X' else 'x')
      else if base == 2 then Push(buf[..cut], 'b')
      else buf[..cut];
    Push(letter, '0')
  }

  function Signed(buf: string, negative: bool, flags: Flags): string {
    if negative then Push(buf, '-')
    else if flags.plus then Push(buf, '+')
    else if flags.space then Push(buf, ' ')
    else buf
  }

  /** `print_integer_finalization`, up to `out_rev`. */
  function Finalized(buf: string, negative: bool, base: nat, precision: nat, width: nat, flags: Flags): string {
    var w := if flags.left then width else PaddedWidth(negative, width, flags);
    var padded := Padded(buf, negative, precision, width, flags);
    var hash := flags.hash && !(base == 8 && |padded| > |buf|);
    var prefixed := if hash || flags.pointer then Prefixed(padded, |buf|, w, precision, base, flags) else padded;
    Signed(prefixed, negative, flags)
  }

  function FinalText(buf: string, negative: bool, base: nat, precision: nat, width: nat, flags: Flags): string {
    OutRevText(Finalized(buf, negative, base, precision, width, flags),
               if flags.left then width else PaddedWidth(negative, width, flags), flags)
  }

  /** The digits `print_integer` starts from, and the flags it goes on with. */
  function StartDigits(value: nat, base: nat, flags: Flags): string
    requires 2 <= base <= 36
  {
    if value == 0 then (if flags.precision then [] else ['0']) else DigitsRev(value, base, flags.uppercase, BUFFER)
  }

  function StartFlags(value: nat, base: nat, flags: Flags): Flags {
    if value == 0 && (!flags.precision || base == 16) then flags.(hash := false) else flags
  }

  function IntegerText(value: nat, negative: bool, base: nat, precision: nat, width: nat, flags: Flags): string
    requires 2 <= base <= 36
  {
    FinalText(StartDigits(value, base, flags), negative, base, precision, width, StartFlags(value, base, flags))
  }

  function CharText(c: char, width: nat, flags: Flags): string {
    if flags.left then [c] + Repeat(' ', Less(1, width)) else Repeat(' ', Less(1, width)) + [c]
  }

  /** The length `%s` pads for. */
  function StringLength(s: string, precision: nat, flags: Flags): nat {
    var l := Min(|s|, if precision > 0 then precision else INT_MAX);
    if flags.precision then Min(l, precision) else l
  }

  function StringText(s: string, precision: nat, width: nat, flags: Flags): string {
    var l := StringLength(s, precision, flags);
    (if flags.left then [] else Repeat(' ', Less(l, width)))
    + (if flags.precision then s[..Min(|s|, precision)] else s)
    + (if flags.left then Repeat(' ', Less(l, width)) else [])
  }

  // ---------------------------------------------------------------------------------------------
  // Integer arguments
  // ---------------------------------------------------------------------------------------------

  /** A word narrowed to `modulus` values and read as a signed number. */
  function Narrow(v: nat, modulus: nat): int
    requires modulus > 0
  {
    var low := v % modulus;
    if low < modulus - low then low else low - modulus
  }

  /** The sign extension of a number to 64 unsigned bits. */
  function Unsigned64(x: int): nat
    requires -0x1_0000_0000_0000_0000 <= x
  {
    if x < 0 then x + 0x1_0000_0000_0000_0000 else x
  }

  /** `ABS_FOR_PRINTING`: negation happens on unsigned 64-bit numbers. */
  function AbsForPrinting(x: int): nat
    requires -0x8000_0000_0000_0000 <= x < 0x8000_0000_0000_0000
  {
    if x > 0 then x else (0x1_0000_0000_0000_0000 - Unsigned64(x)) % 0x1_0000_0000_0000_0000
  }

  function SignedArg(v: nat, flags: Flags): int {
    if flags.long_long || flags.long then Narrow(v, 0x1_0000_0000_0000_0000)
    else if flags.half_half then Narrow(v, 0x100)
    else if flags.half then Narrow(v, 0x1_0000)
    else Narrow(v, 0x1_0000_0000)
  }

  function UnsignedArg(v: nat, flags: Flags): nat {
    if flags.long_long || flags.long then v
    else if flags.half_half then v % 0x100
    else if flags.half then v % 0x1_0000
    else v % 0x1_0000_0000
  }

  lemma SignedArgFits(v: nat, flags: Flags)
    ensures -0x8000_0000_0000_0000 <= SignedArg(v, flags) < 0x8000_0000_0000_0000
  {
  }

  // ---------------------------------------------------------------------------------------------
  // The format
  // ---------------------------------------------------------------------------------------------

  predicate IsDigit(c: char) { '0' <= c <= '9' }

  /** Only digits stand from `i` up to `j`. */
  predicate Digits(s: string, i: nat, j: nat) { i <= j && (j <= |s| || j == i) && forall k :: i <= k < j ==> IsDigit(s[k]) }

  /** The number that the decimal digits from `i` up to `j` denote. */
  function DecimalValue(s: string, i: nat, j: nat): nat
    requires Digits(s, i, j)
    decreases j
  {
    if i == j then 0 else 10 * DecimalValue(s, i, j - 1) + (s[j - 1] as int - '0' as int)
  }

  /** `atou`: a decimal number, modulo 2^32, and where it ends. */
  function Atou(s: string, i: nat, acc: nat): (r: (nat, nat))
    ensures r.0 >= i && (acc < UINT ==> r.1 < UINT)
    decreases |s| - i
  {
    if i < |s| && IsDigit(s[i]) then Atou(s, i + 1, (acc * 10 + (s[i] as int - '0' as int)) % UINT) else (i, acc)
  }

  predicate IsFlag(c: char) { c == '0' || c == '-' || c == '+' || c == ' ' || c == '#' }

  function SetFlag(flags: Flags, c: char): Flags {
    match c
    case '0' => flags.(zeropad := true)
    case '-' => flags.(left := true)
    case '+' => flags.(plus := true)
    case ' ' => flags.(space := true)
    case '#' => flags.(hash := true)
    case _ => flags
  }

  function ParseFlags(s: string, i: nat, flags: Flags): (r: (nat, Flags))
    ensures r.0 >= i
    decreases |s| - i
  {
    if IsFlag(CharAt(s, i)) then ParseFlags(s, i + 1, SetFlag(flags, CharAt(s, i))) else (i, flags)
  }

  /** A field of a conversion: where it ends and what it says; or the format ends, or an argument is missing. */
  datatype Field = Field(at: nat, flags: Flags, value: nat, args: seq<Arg>) | End | Wrong

  /** Stepping over a character: the format may end. */
  function Advance(s: string, f: Field): Field {
    match f
    case Field(at, flags, value, args) => if CharAt(s, at + 1) == '\0' then End else Field(at + 1, flags, value, args)
    case _ => f
  }

  function WidthField(s: string, i: nat, flags: Flags, args: seq<Arg>): (f: Field)
    ensures f.Field? ==> f.at >= i && f.value < UINT
  {
    if IsDigit(CharAt(s, i)) then Field(Atou(s, i, 0).0, flags, Atou(s, i, 0).1, args)
    else if CharAt(s, i) == '*' then
      if args == [] || !args[0].Word? then Wrong
      else
        var w := Narrow(args[0].value, UINT);
        Advance(s, if w < 0 then Field(i, flags.(left := true), -w, args[1..]) else Field(i, flags, w, args[1..]))
    else Field(i, flags, 0, args)
  }

  function PrecisionField(s: string, i: nat, flags: Flags, args: seq<Arg>): (f: Field)
    ensures f.Field? ==> f.at >= i && f.value < UINT
  {
    if CharAt(s, i) != '.' then Field(i, flags, 0, args)
    else
      var given := flags.(precision := true);
      if CharAt(s, i + 1) == '\0' then End
      else if IsDigit(CharAt(s, i + 1)) then Field(Atou(s, i + 1, 0).0, given, Atou(s, i + 1, 0).1, args)
      else if CharAt(s, i + 1) == '*' then
        if args == [] || !args[0].Word? then Wrong
        else
          var p := Narrow(args[0].value, UINT);
          Advance(s, Field(i + 1, given, if p > 0 then p else 0, args[1..]))
      else Field(i + 1, given, 0, args)
  }

  function LengthField(s: string, i: nat, flags: Flags, args: seq<Arg>): (f: Field)
    ensures f.Field? ==> f.at >= i
  {
    match CharAt(s, i)
    case 'l' =>
      if CharAt(s, i + 1) == 'l' then Advance(s, Field(i + 1, flags.(long := true, long_long := true), 0, args))
      else Advance(s, Field(i, flags.(long := true), 0, args))
    case 'h' =>
      if CharAt(s, i + 1) == 'h' then Advance(s, Field(i + 1, flags.(half := true, half_half := true), 0, args))
      else Advance(s, Field(i, flags.(half := true), 0, args))
    case 't' => Advance(s, Field(i, flags.(long := true), 0, args))
    case 'j' => Advance(s, Field(i, flags.(long := true), 0, args))
    case 'z' => Advance(s, Field(i, flags.(long := true), 0, args))
    case _ => Field(i, flags, 0, args)
  }

  predicate IsInteger(c: char) {
    c == 'd' || c == 'i' || c == 'u' || c == 'x' || c == 'X' || c == 'o' || c == 'b'
  }

  function BaseOf(c: char): (base: nat)
    ensures 2 <= base <= 16
  {
    if c == 'x' || c == 'X' then 16 else if c == 'o' then 8 else if c == 'b' then 2 else 10
  }

  /** The flags an integer conversion prints with. */
  function IntegerFlags(c: char, flags: Flags): Flags {
    var signed := flags.signed || c == 'd' || c == 'i';
    flags.(signed := signed, hash := flags.hash && BaseOf(c) != 10, uppercase := flags.uppercase || c == 'X',
           zeropad := flags.zeropad && !flags.precision, plus := flags.plus && signed, space := flags.space && signed)
  }

  function ConvertInteger(c: char, v: nat, precision: nat, width: nat, flags: Flags): string {
    var f := IntegerFlags(c, flags);
    SignedArgFits(v, f);
    if f.signed then IntegerText(AbsForPrinting(SignedArg(v, f)), SignedArg(v, f) < 0, BaseOf(c), precision, width, f)
    else IntegerText(UnsignedArg(v, f), false, BaseOf(c), precision, width, f)
  }

  const POINTER_WIDTH: nat := 18

  function ConvertPointer(v: nat, precision: nat, flags: Flags): string {
    var f := flags.(zeropad := true, pointer := true);
    if v == 0 then OutRevText(")lin(", POINTER_WIDTH, f) else IntegerText(v, false, 16, precision, POINTER_WIDTH, f)
  }

  datatype Conversion = Emits(text: string, args: seq<Arg>) | Fails

  predicate IsFloating(c: char) { c == 'f' || c == 'F' || c == 'e' || c == 'E' || c == 'g' || c == 'G' }

  /** The conversion with specifier `c`; the floating-point ones and `%n` are not part of this model. */
  function Convert(c: char, precision: nat, width: nat, flags: Flags, args: seq<Arg>): Conversion {
    if IsInteger(c) then
      if args == [] || !args[0].Word? then Fails
      else Emits(ConvertInteger(c, args[0].value, precision, width, flags), args[1..])
    else if c == 'c' then
      if args == [] || !args[0].Word? then Fails
      else Emits(CharText((args[0].value % 256) as char, width, flags), args[1..])
    else if c == 's' then
      if args == [] || !args[0].Str? then Fails
      else Emits(match args[0].chars
                 case None => OutRevText(")llun(", width, flags)
                 case Some(s) => StringText(s, precision, width, flags), args[1..])
    else if c == 'p' then
      if args == [] || !args[0].Word? then Fails
      else Emits(ConvertPointer(args[0].value, precision, flags), args[1..])
    else if c == '\0' || c == 'n' || IsFloating(c) then Fails
    else Emits([c], args)
  }

  /** All that the sink receives, or Stuck: a conversion without specifier, a missing argument, or one left out here. */
  datatype Output = Text(chars: string) | Stuck

  function Then(t: string, o: Output): Output { if o.Stuck? then Stuck else Text(t + o.chars) }

  /** The conversion that starts after the `%` at `i`: what it prints and where it ends. */
  datatype Step = Printed(text: string, at: nat, args: seq<Arg>) | Return | Break

  function Conversions(s: string, i: nat, args: seq<Arg>): (r: Step)
    requires i < |s|
    ensures r.Printed? ==> r.at > i
  {
    if CharAt(s, i + 1) == '\0' then Return
    else
      var (j, flags) := ParseFlags(s, i + 1, NO_FLAGS);
      match WidthField(s, j, flags, args)
      case End => Return
      case Wrong => Break
      case Field(k, flags1, width, args1) =>
        match PrecisionField(s, k, flags1, args1)
        case End => Return
        case Wrong => Break
        case Field(l, flags2, precision, args2) =>
          match LengthField(s, l, flags2, args2)
          case End => Return
          case Wrong => Break
          case Field(m, flags3, _, args3) =>
            match Convert(CharAt(s, m), precision, width, flags3, args3)
            case Fails => Break
            case Emits(text, args4) => Printed(text, m + 1, args4)
  }

  /** `format_string_loop` from position `i` on. */
  function Render(s: string, i: nat, args: seq<Arg>): Output
    decreases |s| - i
  {
    if i >= |s| || s[i] == '\0' then Text([])
    else if s[i] != '%' then Then([s[i]], Render(s, i + 1, args))
    else
      match Conversions(s, i, args)
      case Return => Text([])
      case Break => Stuck
      case Printed(text, at, rest) => Then(text, Render(s, at, rest))
  }
}
