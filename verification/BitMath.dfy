/**
 The alignment helpers of the kernel on unsigned integers, with `&` and `~` spelled out bit by bit.
 */
module BitMath {
  import opened Numbers

  const PAGE: nat := 0x1000

  /** `a & ~b` on unsigned integers. */
  function AndNot(a: nat, b: nat): nat {
    if a == 0 then 0 else (if a % 2 == 1 && b % 2 == 0 then 1 else 0) + 2 * AndNot(a / 2, b / 2)
  }

  function AlignDown(n: nat, a: nat): nat
    requires a > 0
  {
    AndNot(n, a - 1)
  }

  /** The sum of two 64-bit operands. */
  function Add64(a: nat, b: nat): nat { if a + b < WORD then a + b else a + b - WORD }

  /** `align_up`: the sum wraps at 64 bits. */
  function AlignUp(n: nat, a: nat): nat
    requires a > 0
  {
    AlignDown(Add64(n, a - 1), a)
  }

  /** `div_roundup`, wrapping like `align_up`. */
  function DivRoundup(n: nat, a: nat): nat
    requires a > 0
  {
    AlignUp(n, a) / a
  }

  /** The largest power of two that divides `n`. */
  function LowBit(n: nat): nat
    requires n > 0
  {
    if n % 2 == 1 then 1 else 2 * LowBit(n / 2)
  }

  lemma {:induction false} AndNotSelf(n: nat)
    ensures AndNot(n, n) == 0
  {
    if n > 0 { AndNotSelf(n / 2); }
  }

  lemma {:induction false} AndNotZero(n: nat)
    ensures AndNot(n, 0) == n
  {
    if n > 0 { AndNotZero(n / 2); }
  }

  lemma MaskBit(n: nat, m: nat)
    requires m % 2 == 1
    ensures AndNot(n, m) == 2 * AndNot(n / 2, m / 2)
  {
  }

  lemma MaskPair(n: nat, m: nat)
    requires m % 4 == 3
    ensures AndNot(n, m) == 4 * AndNot(n / 4, m / 4)
  {
    MaskBit(n, m);
    MaskBit(n / 2, m / 2);
    assert n / 2 / 2 == n / 4 && m / 2 / 2 == m / 4;
  }

  /** A mask whose low four bits are set clears the low four bits. */
  lemma MaskNibble(n: nat, m: nat)
    requires m % 16 == 15
    ensures AndNot(n, m) == 16 * AndNot(n / 16, m / 16)
  {
    MaskPair(n, m);
    MaskPair(n / 4, m / 4);
    assert n / 4 / 4 == n / 16 && m / 4 / 4 == m / 16;
  }

  /** `ptr & ~0xFFF` is the start of the page. */
  lemma PageMask(n: nat)
    ensures AlignDown(n, PAGE) == n - n % PAGE
  {
    MaskNibble(n, 0xFFF);
    MaskNibble(n / 16, 0xFF);
    MaskNibble(n / 256, 0xF);
    AndNotZero(n / PAGE);
    assert n / 16 / 16 == n / 256 && n / 256 / 16 == n / PAGE;
  }

  /** As long as the sum does not wrap, the number of pages is the exact ceiling. */
  lemma DivRoundupCeiling(n: nat)
    requires n + PAGE - 1 < WORD
    ensures DivRoundup(n, PAGE) == (n + PAGE - 1) / PAGE
    ensures DivRoundup(n, PAGE) * PAGE >= n
    ensures n > 0 ==> (DivRoundup(n, PAGE) - 1) * PAGE < n
  {
    PageMask(n + PAGE - 1);
  }

  /** So many pages hold `n` bytes exactly when the sum does not wrap. */
  lemma DivRoundupCovers(n: nat)
    requires n < WORD
    ensures DivRoundup(n, PAGE) * PAGE >= n <==> n + PAGE - 1 < WORD
  {
    if n + PAGE - 1 < WORD {
      DivRoundupCeiling(n);
    } else {
      var w := n + PAGE - 1 - WORD;
      PageMask(w);
    }
  }

  // ---------------------------------------------------------------------------------------------
  // align_up with an alignment that need not be a power of two
  // ---------------------------------------------------------------------------------------------

  lemma {:induction false} MaskBelowIsLowBit(n: nat)
    requires n > 0
    ensures AndNot(n, n - 1) == LowBit(n)
  {
    if n % 2 == 1 {
      AndNotSelf(n / 2);
      assert (n - 1) / 2 == n / 2;
    } else {
      MaskBelowIsLowBit(n / 2);
      assert (n - 1) / 2 == n / 2 - 1;
    }
  }

  lemma LowBitOfMultiple(n: nat)
    requires n > 0
    ensures LowBit(16 * n) == 16 * LowBit(n)
  {
    assert LowBit(16 * n) == 2 * LowBit(8 * n);
    assert LowBit(8 * n) == 2 * LowBit(4 * n);
    assert LowBit(4 * n) == 2 * LowBit(2 * n);
  }

  /** For any multiple of sixteen, `align_up(8, size)` is the lowest set bit of the size. */
  lemma HeaderSpanIsLowBit(size: nat)
    requires size > 0 && size % 16 == 0 && size + 7 < WORD
    ensures AlignUp(8, size) == LowBit(size)
  {
    var e := size / 16;
    MaskNibble(size + 7, size - 1);
    assert (size + 7) / 16 == e && (size - 1) / 16 == e - 1;
    MaskBelowIsLowBit(e);
    LowBitOfMultiple(e);
  }

  /** The lowest set bit is a power of two with an odd cofactor. */
  lemma {:induction false} LowBitDivides(n: nat) returns (k: nat, q: nat)
    requires n > 0
    ensures LowBit(n) == Power(2, k) && n == Power(2, k) * q && q % 2 == 1
  {
    if n % 2 == 1 {
      k, q := 0, n;
    } else {
      var j;
      j, q := LowBitDivides(n / 2);
      k := j + 1;
      assert n == 2 * (Power(2, j) * q) == Power(2, k) * q;
    }
  }

  /** No larger power of two divides it. */
  lemma {:induction false} LowBitIsLargest(n: nat, k: nat, q: nat)
    requires n > 0 && n == Power(2, k) * q
    ensures Power(2, k) <= LowBit(n)
  {
    if k > 0 {
      assert n == 2 * (Power(2, k - 1) * q);
      LowBitIsLargest(n / 2, k - 1, q);
    } else {
      LowBitPositive(n);
    }
  }

  lemma {:induction false} LowBitPositive(n: nat)
    requires n > 0
    ensures LowBit(n) >= 1
  {
    if n % 2 == 0 { LowBitPositive(n / 2); }
  }
}
