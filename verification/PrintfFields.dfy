/** What the readers of flags and numbers in a format mean, and a format whose text outgrows the position counter. */
module PrintfFields {
  import opened Numbers
  import opened PrintfSpec
  import opened PrintfBuffer
  import opened PrintfShape

  // ---------------------------------------------------------------------------------------------
  // Numbers
  // ---------------------------------------------------------------------------------------------

  lemma NextDigit(value: nat, digit: nat)
    ensures (value % UINT * 10 + digit) % UINT == (10 * value + digit) % UINT
  {
    var q, r := value / UINT, value % UINT;
    Division(value, UINT);
    Division(r * 10 + digit, UINT);
    ModUnique(10 * value + digit, UINT, 10 * q + (r * 10 + digit) / UINT, (r * 10 + digit) % UINT);
  }

  lemma {:induction false} AtouFrom(s: string, i: nat, m: nat)
    requires Digits(s, i, m)
    ensures var (j, n) := Atou(s, m, DecimalValue(s, i, m) % UINT);
            && Digits(s, i, j) && !IsDigit(CharAt(s, j)) && n == DecimalValue(s, i, j) % UINT
    decreases |s| - m
  {
    if m < |s| && IsDigit(s[m]) {
      NextDigit(DecimalValue(s, i, m), s[m] as int - '0' as int);
      AtouFrom(s, i, m + 1);
    }
  }

  /** `atou` ends at the first character that is no digit, with the value of the digits before it modulo 2^32. */
  lemma AtouMeans(s: string, i: nat)
    ensures var (j, n) := Atou(s, i, 0);
            && Digits(s, i, j) && !IsDigit(CharAt(s, j)) && n == DecimalValue(s, i, j) % UINT
  {
    AtouFrom(s, i, i);
  }

  // ---------------------------------------------------------------------------------------------
  // Flags
  // ---------------------------------------------------------------------------------------------

  predicate Occurs(s: string, i: nat, j: nat, c: char) { exists k :: i <= k < j && CharAt(s, k) == c }

  /** The given flags and some more. */
  function Flagged(flags: Flags, zeropad: bool, left: bool, plus: bool, space: bool, hash: bool): Flags {
    flags.(zeropad := flags.zeropad || zeropad, left := flags.left || left, plus := flags.plus || plus,
           space := flags.space || space, hash := flags.hash || hash)
  }

  /** The given flags and those whose characters occur from `i` up to `j`. */
  function WithFlags(flags: Flags, s: string, i: nat, j: nat): Flags {
    Flagged(flags, Occurs(s, i, j, '0'), Occurs(s, i, j, '-'), Occurs(s, i, j, '+'), Occurs(s, i, j, ' '), Occurs(s, i, j, '#'))
  }

  lemma SetFlagIs(flags: Flags, c: char)
    ensures SetFlag(flags, c) == Flagged(flags, c == '0', c == '-', c == '+', c == ' ', c == '#')
  {
  }

  lemma FlaggedTwice(flags: Flags, a0: bool, a1: bool, a2: bool, a3: bool, a4: bool, b0: bool, b1: bool, b2: bool, b3: bool, b4: bool)
    ensures Flagged(Flagged(flags, a0, a1, a2, a3, a4), b0, b1, b2, b3, b4) ==
            Flagged(flags, a0 || b0, a1 || b1, a2 || b2, a3 || b3, a4 || b4)
  {
  }

  lemma OccursFirst(s: string, i: nat, j: nat, c: char)
    requires i < j
    ensures Occurs(s, i, j, c) == (CharAt(s, i) == c || Occurs(s, i + 1, j, c))
  {
    if Occurs(s, i, j, c) {
      var k :| i <= k < j && CharAt(s, k) == c;
      assert k == i || i + 1 <= k;
    }
  }

  lemma WithFlagsFirst(flags: Flags, s: string, i: nat, j: nat)
    requires i < j
    ensures WithFlags(flags, s, i, j) == WithFlags(SetFlag(flags, CharAt(s, i)), s, i + 1, j)
  {
    var c := CharAt(s, i);
    OccursFirst(s, i, j, '0');
    OccursFirst(s, i, j, '-');
    OccursFirst(s, i, j, '+');
    OccursFirst(s, i, j, ' ');
    OccursFirst(s, i, j, '#');
    SetFlagIs(flags, c);
    FlaggedTwice(flags, c == '0', c == '-', c == '+', c == ' ', c == '#', Occurs(s, i + 1, j, '0'), Occurs(s, i + 1, j, '-'),
                 Occurs(s, i + 1, j, '+'), Occurs(s, i + 1, j, ' '), Occurs(s, i + 1, j, '#'));
  }

  lemma NoneOccur(flags: Flags, s: string, i: nat)
    ensures WithFlags(flags, s, i, i) == flags
  {
  }

  /** `parse_flags` ends at the first character that is no flag, and sets each flag exactly when its character comes before. */
  lemma {:induction false} ParseFlagsMeans(s: string, i: nat, flags: Flags)
    ensures var (j, f) := ParseFlags(s, i, flags);
            && i <= j && (forall k :: i <= k < j ==> IsFlag(CharAt(s, k))) && !IsFlag(CharAt(s, j))
            && f == WithFlags(flags, s, i, j)
    decreases |s| - i
  {
    if IsFlag(CharAt(s, i)) {
      ParseFlagsMeans(s, i + 1, SetFlag(flags, CharAt(s, i)));
      WithFlagsFirst(flags, s, i, ParseFlags(s, i, flags).0);
    } else {
      NoneOccur(flags, s, i);
    }
  }

  // ---------------------------------------------------------------------------------------------
  // A text of 2^32 characters
  // ---------------------------------------------------------------------------------------------

  /** A zero of the largest width that an argument can ask for. */
  function WideZero(): (t: string)
    ensures |t| == INT_MAX && t[0] == ' '
  {
    Repeat(' ', INT_MAX - 1) + ['0']
  }

  lemma WideText()
    ensures ConvertInteger('d', 0, 0, INT_MAX, NO_FLAGS) == WideZero()
  {
    var f := IntegerFlags('d', NO_FLAGS);
    ConversionShape('d', 0, 0, INT_MAX, NO_FLAGS);
    assert Narrowed(0, f) == 0 && StartDigits(0, 10, f) == ['0'];
    ReverseOne('0');
    assert Body(['0'], false, 0, INT_MAX, f) == [] + [] + ['0'];
  }

  /** `%*d` takes the width from the arguments. */
  lemma WideConversion(s: string, i: nat, rest: seq<Arg>)
    requires i + 3 <= |s| && s[i..i + 3] == "%*d"
    ensures Conversions(s, i, [Word(INT_MAX), Word(0)] + rest) == Step.Printed(WideZero(), i + 3, rest)
  {
    var args := [Word(INT_MAX), Word(0)] + rest;
    assert s[i + 1] == s[i..i + 3][1] == '*' && s[i + 2] == s[i..i + 3][2] == 'd';
    assert args[1..] == [Word(0)] + rest && args[1..][1..] == rest;
    assert ParseFlags(s, i + 1, NO_FLAGS) == (i + 1, NO_FLAGS);
    assert WidthField(s, i + 1, NO_FLAGS, args) == Field(i + 2, NO_FLAGS, INT_MAX, args[1..]);
    assert PrecisionField(s, i + 2, NO_FLAGS, args[1..]) == Field(i + 2, NO_FLAGS, 0, args[1..]);
    assert LengthField(s, i + 2, NO_FLAGS, args[1..]) == Field(i + 2, NO_FLAGS, 0, args[1..]);
    WideText();
  }

  lemma WideRest(s: string)
    requires s == "%*d%*d!!"
    ensures Render(s, 6, []) == Text("!!")
  {
    assert Render(s, 8, []) == Text([]);
    assert Render(s, 7, []) == Then(['!'], Text([]));
    assert Render(s, 6, []) == Then(['!'], Render(s, 7, []));
  }

  lemma WideRender(s: string, args: seq<Arg>)
    requires s == "%*d%*d!!" && args == [Word(INT_MAX), Word(0), Word(INT_MAX), Word(0)]
    ensures Render(s, 0, args) == Text(WideZero() + (WideZero() + "!!"))
  {
    var half := [Word(INT_MAX), Word(0)];
    assert s[0..3] == "%*d" && s[3..6] == "%*d" && args == half + half && half == half + [];
    WideConversion(s, 3, []);
    WideConversion(s, 0, half);
    WideRest(s);
  }

  /** Two zeros of that width and two more characters are 2^32, and the first of them is lost to the NUL. */
  lemma WideIsLost(s: string, args: seq<Arg>, max: nat, before: string)
    requires s == "%*d%*d!!" && args == [Word(INT_MAX), Word(0), Word(INT_MAX), Word(0)]
    requires 2 <= max <= |before| && max <= INT_MAX
    ensures var o := Render(s, 0, args);
            && o.Text? && |o.chars| == UINT && o.chars[0] == ' '
            && Terminated(o.chars, max, before)[0] == '\0' && !Stored(o.chars, max, before, Terminated(o.chars, max, before))
  {
    WideRender(s, args);
    FirstIsLost(WideZero() + (WideZero() + "!!"), max, before);
  }
}
