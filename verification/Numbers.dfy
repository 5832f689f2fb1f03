/** Small facts about natural numbers that several parts of the model share. */
module Numbers {
  const WORD: nat := 0x1_0000_0000_0000_0000

  function Min(a: nat, b: nat): nat { if a < b then a else b }

  function Max(a: nat, b: nat): nat { if a < b then b else a }

  /** How much `a` falls short of `b`. */
  function Less(a: nat, b: nat): nat { if a < b then b - a else 0 }

  function Power(base: nat, n: nat): nat { if n == 0 then 1 else base * Power(base, n - 1) }

  lemma {:induction false} PowerPositive(base: nat, n: nat)
    requires base > 0
    ensures Power(base, n) > 0
  {
    if n > 0 {
      PowerPositive(base, n - 1);
      assert base * Power(base, n - 1) > 0;
    }
  }

  lemma Scale(a: nat, b: nat, m: nat)
    requires a <= b
    ensures m * a <= m * b
  {
  }

  lemma Division(v: nat, m: nat)
    requires m > 0
    ensures v == m * (v / m) + v % m && v % m < m
  {
  }

  /** Quotient and remainder are unique. */
  lemma UniqueQuotient(m: nat, k: nat, r: nat, q: nat, s: nat)
    requires m * k + r == m * q + s && r < m && s < m
    ensures k == q && r == s
  {
    if k < q { Scale(k + 1, q, m); }
    if q < k { Scale(q + 1, k, m); }
  }

  lemma ModUnique(v: nat, m: nat, k: nat, r: nat)
    requires v == m * k + r && r < m
    ensures v % m == r && v / m == k
  {
    Division(v, m);
    UniqueQuotient(m, k, r, v / m, v % m);
  }

  lemma SmallMod(v: nat, m: nat)
    requires v < m
    ensures v % m == v
  {
    ModUnique(v, m, 0, v);
  }

  /** `x`, `n` times. */
  function Repeat<T>(x: T, n: nat): (s: seq<T>)
    ensures |s| == n && forall k :: 0 <= k < n ==> s[k] == x
  {
    seq(n, _ => x)
  }

  lemma NextPageAligned(a: nat)
    requires a % 0x1000 == 0
    ensures (a + 0x1000) % 0x1000 == 0
  {
  }

  lemma RemainderGone(n: nat, m: nat)
    requires m > 0
    ensures n - n % m >= 0 && (n - n % m) % m == 0
  {
    Division(n, m);
    ModUnique(n - n % m, m, n / m, 0);
  }
}
