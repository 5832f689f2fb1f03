/**
 Numbers and 64-bit words: the word of a number, and what its bits say about the number.
 */
module Words {
  import opened Numbers
  import opened PageEntry

  type Word = n: nat | n < 0x1_0000_0000_0000_0000

  /** One more binary digit. */
  function Push(x: bv64, odd: bool): bv64 { (x << 1) | (if odd then 1 else 0) }

  /** The 64-bit word with the binary digits of `n`. */
  function Bits(n: Word): bv64 { if n == 0 then 0 else Push(Bits(n / 2), n % 2 == 1) }

  /** The lowest `k` bits, all set. */
  function Mask(k: nat): bv64 { if k == 0 then 0 else Push(Mask(k - 1), true) }

  /** All bits of `x` are bits of `m`. */
  predicate Inside(x: bv64, m: bv64) { x & !m == 0 }

  lemma PushOneInside(x: bv64, m: bv64)
    requires Inside(x, m)
    ensures Inside(Push(x, true), Push(m, true))
  {
  }

  lemma PushZeroInside(x: bv64, m: bv64)
    requires Inside(x, m)
    ensures Inside(Push(x, false), Push(m, true))
  {
  }

  lemma PushInside(x: bv64, m: bv64, odd: bool)
    requires Inside(x, m)
    ensures Inside(Push(x, odd), Push(m, true))
  {
    if odd { PushOneInside(x, m); } else { PushZeroInside(x, m); }
  }

  lemma ZeroInside(m: bv64)
    ensures Inside(0, m)
  {
  }

  /** A number below 2^k has only the lowest k bits. */
  lemma {:induction false} BitsInside(n: Word, k: nat, x: bv64, m: bv64)
    requires n < Power(2, k) && x == Bits(n) && m == Mask(k)
    ensures Inside(x, m)
    decreases k
  {
    if n == 0 {
      ZeroInside(m);
    } else {
      var y, w := Bits(n / 2), Mask(k - 1);
      BitsInside(n / 2, k - 1, y, w);
      PushInside(y, w, n % 2 == 1);
    }
  }

  lemma Masks()
    ensures Mask(12) == 0xFFF && Power(2, 12) == 0x1000 && Mask(30) == 0x3FFF_FFFF && Power(2, 30) == 0x4000_0000
    ensures Mask(47) == 0x7FFF_FFFF_FFFF && Power(2, 47) == 0x8000_0000_0000
    ensures Mask(52) == 0xF_FFFF_FFFF_FFFF && Power(2, 52) == 0x10_0000_0000_0000
  {
    assert Mask(12) == 0xFFF && Power(2, 12) == 0x1000;
    assert Mask(21) == 0x1F_FFFF && Power(2, 21) == 0x20_0000;
    assert Mask(30) == 0x3FFF_FFFF && Power(2, 30) == 0x4000_0000;
    assert Mask(39) == 0x7F_FFFF_FFFF && Power(2, 39) == 0x80_0000_0000;
    assert Mask(47) == 0x7FFF_FFFF_FFFF && Power(2, 47) == 0x8000_0000_0000;
  }

  lemma TopMasks()
    ensures Mask(63) == 0x7FFF_FFFF_FFFF_FFFF && Power(2, 63) == 0x8000_0000_0000_0000
    ensures Mask(64) == 0xFFFF_FFFF_FFFF_FFFF && Power(2, 64) == 0x1_0000_0000_0000_0000
  {
    Masks();
    assert Mask(57) == 0x1FF_FFFF_FFFF_FFFF && Power(2, 57) == 0x200_0000_0000_0000;
  }

  // ---------------------------------------------------------------------------------------------
  // High parts
  // ---------------------------------------------------------------------------------------------

  function Outside(x: bv64, m: bv64): bv64 { x & !m }

  /** The words agree outside the mask. */
  predicate SameOutside(x: bv64, y: bv64, m: bv64) { Outside(x, m) == Outside(y, m) }

  lemma OutsidePush(x: bv64, m: bv64, odd: bool)
    ensures Outside(Push(x, odd), Push(m, true)) == Push(Outside(x, m), false)
  {
  }

  lemma OutsideInside(x: bv64, m: bv64, n: bv64)
    requires Inside(x, n)
    ensures Inside(Outside(x, m), n)
  {
  }

  lemma PushOutside(x: bv64, y: bv64, m: bv64, odd: bool, even: bool)
    requires Inside(x, 0x7FFF_FFFF_FFFF_FFFF) && Inside(y, 0x7FFF_FFFF_FFFF_FFFF)
    ensures SameOutside(Push(x, odd), Push(y, even), Push(m, true)) <==> SameOutside(x, y, m)
  {
    OutsidePush(x, m, odd);
    OutsidePush(y, m, even);
    OutsideInside(x, m, 0x7FFF_FFFF_FFFF_FFFF);
    OutsideInside(y, m, 0x7FFF_FFFF_FFFF_FFFF);
    if SameOutside(Push(x, odd), Push(y, even), Push(m, true)) { PushEqual(Outside(x, m), Outside(y, m), false, false); }
  }

  lemma PushEqual(x: bv64, y: bv64, odd: bool, even: bool)
    requires Inside(x, 0x7FFF_FFFF_FFFF_FFFF) && Inside(y, 0x7FFF_FFFF_FFFF_FFFF) && Push(x, odd) == Push(y, even)
    ensures x == y && (odd <==> even)
  {
  }

  lemma ZeroIsPushed()
    ensures Push(0, false) == 0
  {
  }

  lemma BitsPush(n: Word)
    ensures Bits(n) == Push(Bits(n / 2), n % 2 == 1) && Inside(Bits(n / 2), 0x7FFF_FFFF_FFFF_FFFF)
  {
    TopMasks();
    BitsInside(n / 2, 63, Bits(n / 2), Mask(63));
    ZeroIsPushed();
  }

  lemma SameParity(a: nat, b: nat)
    requires a / 2 == b / 2 && (a % 2 == 1 <==> b % 2 == 1)
    ensures a == b
  {
  }

  lemma InjectiveStep(a: Word, b: Word)
    requires Bits(a) == Bits(b)
    ensures Bits(a / 2) == Bits(b / 2) && (a % 2 == 1 <==> b % 2 == 1)
  {
    BitsPush(a);
    BitsPush(b);
    PushEqual(Bits(a / 2), Bits(b / 2), a % 2 == 1, b % 2 == 1);
  }

  /** Different numbers have different words. */
  lemma {:induction false} BitsInjective(a: Word, b: Word)
    requires Bits(a) == Bits(b)
    ensures a == b
    decreases a + b
  {
    if a > 0 || b > 0 {
      InjectiveStep(a, b);
      BitsInjective(a / 2, b / 2);
      SameParity(a, b);
    }
  }

  lemma Doubling(m: nat, q: nat) returns (p: nat)
    ensures p == m * q && 2 * m * q == 2 * p
  {
    Scale(0, q, m);
    p := m * q;
  }

  lemma QuotientOf(n: nat, d: nat) returns (q: nat, r: nat)
    requires d > 0
    ensures q == n / d && n == d * q + r && r < d
  {
    Division(n, d);
    q, r := n / d, n % d;
  }

  lemma DivTwiceBy(n: nat, m: nat, q: nat, r: nat, p: nat)
    requires m > 0 && p == m * q && n == 2 * p + r && r < 2 * m
    ensures n / 2 / m == q
  {
    HalfOf(n, p, r);
    ModUnique(n / 2, m, q, r / 2);
  }

  lemma DivTwice(n: nat, m: nat)
    requires m > 0
    ensures n / 2 / m == n / (2 * m)
  {
    var q, r := QuotientOf(n, 2 * m);
    var p := Doubling(m, q);
    DivTwiceBy(n, m, q, r, p);
  }

  lemma HalfOf(n: nat, p: nat, r: nat)
    requires n == 2 * p + r
    ensures n / 2 == p + r / 2
  {
  }

  /** `n` without its lowest k digits. */
  function Over(n: nat, k: nat): nat
    decreases k
  {
    if k == 0 then n else Over(n / 2, k - 1)
  }

  lemma {:induction false} OverIs(n: nat, k: nat)
    ensures Power(2, k) > 0 && Over(n, k) == n / Power(2, k)
    decreases k
  {
    PowerPositive(2, k);
    if k > 0 {
      OverIs(n / 2, k - 1);
      DivTwice(n, Power(2, k - 1));
    }
  }

  lemma NoneOutside(x: bv64, y: bv64)
    ensures SameOutside(x, y, 0) <==> x == y
  {
  }

  lemma HighPartsNone(a: Word, b: Word)
    ensures SameOutside(Bits(a), Bits(b), Mask(0)) <==> Over(a, 0) == Over(b, 0)
  {
    NoneOutside(Bits(a), Bits(b));
    if Bits(a) == Bits(b) { BitsInjective(a, b); }
  }

  lemma HighPartsStep(a: Word, b: Word, m: bv64)
    ensures SameOutside(Bits(a), Bits(b), Push(m, true)) <==> SameOutside(Bits(a / 2), Bits(b / 2), m)
  {
    BitsPush(a);
    BitsPush(b);
    PushOutside(Bits(a / 2), Bits(b / 2), m, a % 2 == 1, b % 2 == 1);
  }

  /** The words agree above the lowest k bits exactly when the numbers agree after division by 2^k. */
  lemma {:induction false} HighParts(a: Word, b: Word, k: nat)
    ensures SameOutside(Bits(a), Bits(b), Mask(k)) <==> Over(a, k) == Over(b, k)
    decreases k
  {
    if k == 0 {
      HighPartsNone(a, b);
    } else {
      HighParts(a / 2, b / 2, k - 1);
      HighPartsStep(a, b, Mask(k - 1));
    }
  }

  // ---------------------------------------------------------------------------------------------
  // What the bits of an address say
  // ---------------------------------------------------------------------------------------------

  function Low(x: bv64, m: bv64): bv64 { x & m }

  lemma LowPush(x: bv64, m: bv64, odd: bool)
    ensures Low(Push(x, odd), Push(m, true)) == Push(Low(x, m), odd)
  {
    if odd { LowPushOne(x, m); } else { LowPushZero(x, m); }
  }

  lemma LowPushOne(x: bv64, m: bv64)
    ensures Low(Push(x, true), Push(m, true)) == Push(Low(x, m), true)
  {
  }

  lemma LowPushZero(x: bv64, m: bv64)
    ensures Low(Push(x, false), Push(m, true)) == Push(Low(x, m), false)
  {
  }

  lemma LowNone(x: bv64)
    ensures Low(x, 0) == 0
  {
  }

  lemma EvenHalf(n: nat, m: nat)
    requires m > 0 && n % (2 * m) == 0
    ensures n % 2 == 0 && n / 2 % m == 0
  {
    var q := n / (2 * m);
    assert n == 2 * (m * q);
    assert n / 2 == m * q + 0;
    ModUnique(n / 2, m, q, 0);
    assert n / 2 == m * (n / 2 / m) + n / 2 % m;
  }

  lemma {:induction false} AlignedBits(n: Word, k: nat)
    requires Power(2, k) > 0 && n % Power(2, k) == 0
    ensures Low(Bits(n), Mask(k)) == 0
    decreases k
  {
    if k == 0 {
      LowNone(Bits(n));
    } else {
      PowerPositive(2, k - 1);
      EvenHalf(n, Power(2, k - 1));
      AlignedBits(n / 2, k - 1);
      BitsPush(n);
      LowPush(Bits(n / 2), Mask(k - 1), false);
      ZeroIsPushed();
    }
  }

  lemma HalfRemainder(n: nat, m: nat)
    requires m > 0
    ensures n % (2 * m) == 2 * (n / 2 % m) + n % 2
  {
    var q, r := n / 2 / m, n / 2 % m;
    assert n / 2 == m * q + r;
    assert n == 2 * m * q + (2 * r + n % 2);
    ModUnique(n, 2 * m, q, 2 * r + n % 2);
  }

  lemma SameHalves(a: nat, b: nat, m: nat)
    requires m > 0 && a % (2 * m) == b % (2 * m)
    ensures a / 2 % m == b / 2 % m && a % 2 == b % 2
  {
    HalfRemainder(a, m);
    HalfRemainder(b, m);
  }

  /** Numbers with the same remainder have the same lowest bits. */
  lemma {:induction false} LowParts(a: Word, b: Word, k: nat)
    requires Power(2, k) > 0 && a % Power(2, k) == b % Power(2, k)
    ensures Low(Bits(a), Mask(k)) == Low(Bits(b), Mask(k))
    decreases k
  {
    if k == 0 {
      LowNone(Bits(a));
      LowNone(Bits(b));
    } else {
      PowerPositive(2, k - 1);
      SameHalves(a, b, Power(2, k - 1));
      LowParts(a / 2, b / 2, k - 1);
      BitsPush(a);
      BitsPush(b);
      LowPush(Bits(a / 2), Mask(k - 1), a % 2 == 1);
      LowPush(Bits(b / 2), Mask(k - 1), b % 2 == 1);
    }
  }

  lemma Assemble(t: bv64, x: bv64, m: bv64)
    requires SameOutside(t, x, m) && Low(t, m) == 0
    ensures t | Low(x, m) == x
  {
  }

  /** The start of a block of 2^k numbers, with the lowest bits of another number of the same remainder. */
  lemma Rejoined(t: Word, n: Word, w: Word, k: nat)
    requires Power(2, k) > 0 && t % Power(2, k) == 0 && Over(t, k) == Over(n, k) && w % Power(2, k) == n % Power(2, k)
    ensures Bits(t) | Low(Bits(w), Mask(k)) == Bits(n)
  {
    HighParts(t, n, k);
    AlignedBits(t, k);
    LowParts(w, n, k);
    Assemble(Bits(t), Bits(n), Mask(k));
  }

  lemma PowerBounds(k: nat)
    requires k <= 64
    ensures 0 < Power(2, k) <= WORD
  {
    TopMasks();
    PowersClimb(k, 64);
  }

  lemma {:induction false} OnesBits(k: nat, n: nat)
    requires k <= 64 && n == Power(2, k) - 1
    ensures n < WORD && Bits(n) == Mask(k)
  {
    PowerBounds(k);
    if k > 0 {
      PowerBounds(k - 1);
      HalfOfOnes(Power(2, k - 1));
      OnesBits(k - 1, n / 2);
      BitsPush(n);
    }
  }

  lemma HalfOfOnes(p: nat)
    requires p > 0
    ensures (2 * p - 1) / 2 == p - 1 && (2 * p - 1) % 2 == 1
  {
  }

  lemma {:induction false} PowersClimb(j: nat, k: nat)
    requires j <= k
    ensures 0 < Power(2, j) <= Power(2, k)
  {
    PowerPositive(2, j);
    if j < k { PowersClimb(j, k - 1); }
  }

  /** Two addresses lie in one page, or one gigabyte, exactly when their numbers do. */
  lemma PageNumbers(a: Word, b: Word)
    ensures SameOutside(Bits(a), Bits(b), 0xFFF) <==> a / 0x1000 == b / 0x1000
  {
    Masks();
    HighParts(a, b, 12);
    OverIs(a, 12);
    OverIs(b, 12);
  }

  lemma GigNumbers(a: Word, b: Word)
    ensures SameOutside(Bits(a), Bits(b), 0x3FFF_FFFF) <==> a / 0x4000_0000 == b / 0x4000_0000
  {
    Masks();
    HighParts(a, b, 30);
    OverIs(a, 30);
    OverIs(b, 30);
  }

  lemma PageAlignedBits(a: Word)
    requires a % 0x1000 == 0
    ensures Bits(a) & 0xFFF == 0
  {
    Masks();
    AlignedBits(a, 12);
    assert Low(Bits(a), 0xFFF) == 0;
  }

  lemma GigAlignedBits(a: Word)
    requires a % 0x4000_0000 == 0
    ensures Bits(a) & 0x3FFF_FFFF == 0
  {
    Masks();
    AlignedBits(a, 30);
    assert Low(Bits(a), 0x3FFF_FFFF) == 0;
  }

  lemma FrameBits(a: Word)
    requires a % 0x1000 == 0 && a < 0x10_0000_0000_0000
    ensures IsFrame(Bits(a))
  {
    Masks();
    BitsInside(a, 52, Bits(a), Mask(52));
    PageAlignedBits(a);
    FrameShape(Bits(a));
  }

  lemma FrameShape(x: bv64)
    requires Inside(x, 0xF_FFFF_FFFF_FFFF) && x & 0xFFF == 0
    ensures IsFrame(x)
  {
  }

  predicate CanonicalNumber(a: Word) { a < 0x8000_0000_0000 || a >= 0xFFFF_8000_0000_0000 }

  lemma CanonicalBits(a: Word)
    requires CanonicalNumber(a)
    ensures Canonical(Bits(a))
  {
    Masks();
    if a < 0x8000_0000_0000 {
      BitsInside(a, 47, Bits(a), Mask(47));
      LowCanonical(Bits(a));
    } else {
      TopMasks();
      OnesBits(64, WORD - 1);
      var ones := 0xFFFF_FFFF_FFFF_FFFF;
      assert Bits(ones) == 0xFFFF_FFFF_FFFF_FFFF;
      OverIs(a, 47);
      OverIs(ones, 47);
      assert Over(a, 47) == a / 0x8000_0000_0000 == 0x1_FFFF && Over(ones, 47) == ones / 0x8000_0000_0000 == 0x1_FFFF;
      HighParts(a, ones, 47);
      HighCanonical(Bits(a));
    }
  }

  lemma LowCanonical(x: bv64)
    requires Inside(x, 0x7FFF_FFFF_FFFF)
    ensures Canonical(x)
  {
  }

  lemma HighCanonical(x: bv64)
    requires SameOutside(x, 0xFFFF_FFFF_FFFF_FFFF, 0x7FFF_FFFF_FFFF)
    ensures Canonical(x)
  {
  }

  lemma Doubled(n: Word)
    requires 2 * n < WORD
    ensures Bits(2 * n) == Push(Bits(n), false)
  {
    ZeroIsPushed();
  }

  /** Five zero digits more. */
  function Shift5(x: bv64): bv64 { x << 5 }

  lemma PushFive(x: bv64)
    ensures Push(Push(Push(Push(Push(x, false), false), false), false), false) == Shift5(x)
  {
  }

  lemma Times4(n: Word, m: Word)
    requires m == 4 * n
    ensures Bits(m) == Push(Push(Bits(n), false), false)
  {
    Doubled(n);
    Doubled(2 * n);
  }

  lemma Times32(n: Word)
    requires 32 * n < WORD
    ensures Bits(32 * n) == Shift5(Bits(n))
  {
    Times4(n, 4 * n);
    Times4(4 * n, 16 * n);
    Doubled(16 * n);
    PushFive(Bits(n));
  }

  lemma Gigabyte(n: Word, x: bv64)
    requires n < 4 && Bits(n) == x
    ensures Bits(0x4000_0000 * n) == Shift5(Shift5(Shift5(Shift5(Shift5(Shift5(x))))))
  {
    Times32(n);
    Times32(0x20 * n);
    Times32(0x400 * n);
    Times32(0x8000 * n);
    Times32(0x10_0000 * n);
    Times32(0x200_0000 * n);
  }

  lemma SmallBits()
    ensures Bits(0) == 0 && Bits(1) == 1 && Bits(2) == 2 && Bits(3) == 3
  {
  }

  /** The words of the first four gigabytes. */
  lemma GigBits()
    ensures Bits(0) == 0 && Bits(0x4000_0000) == 0x4000_0000 && Bits(0x8000_0000) == 0x8000_0000 && Bits(0xC000_0000) == 0xC000_0000
  {
    SmallBits();
    Gigabyte(1, 1);
    Gigabyte(2, 2);
    Gigabyte(3, 3);
  }
}
