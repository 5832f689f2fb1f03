/**
 Memory as bytes, with 64-bit little-endian words.
 */
module ByteMemory {
  import opened Numbers

  type Byte = n: nat | n < 256
  type Memory = nat -> Byte

  /** The bytes from `a` to `end` as one number, lowest byte first. */
  function ReadBytes(m: Memory, a: nat, end: nat): nat
    decreases end - a
  {
    if a >= end then 0 else m(a) + 256 * ReadBytes(m, a + 1, end)
  }

  function WriteBytes(m: Memory, a: nat, end: nat, v: nat): Memory
    decreases end - a
  {
    if a >= end then m else WriteBytes(Put(m, a, v % 256), a + 1, end, v / 256)
  }

  function Put(m: Memory, a: nat, v: Byte): Memory { (x: nat) => if x == a then v else m(x) }

  function ReadWord(m: Memory, a: nat): nat { ReadBytes(m, a, a + 8) }

  function WriteWord(m: Memory, a: nat, v: nat): Memory { WriteBytes(m, a, a + 8, v) }

  /** `memset`. */
  function Fill(m: Memory, a: nat, n: nat, v: Byte): Memory { (x: nat) => if a <= x < a + n then v else m(x) }

  /** `memcpy`. */
  function Copy(m: Memory, to: nat, from: nat, n: nat): Memory {
    (x: nat) => if to <= x < to + n then m(from + (x - to)) else m(x)
  }

  /** Two memories agree on a range. */
  ghost predicate Agree(m: Memory, k: Memory, a: nat, n: nat) { forall x: nat :: a <= x < a + n ==> k(x) == m(x) }

  lemma {:induction false} ReadAgree(m: Memory, k: Memory, a: nat, end: nat)
    requires forall x: nat :: a <= x < end ==> k(x) == m(x)
    ensures ReadBytes(k, a, end) == ReadBytes(m, a, end)
    decreases end - a
  {
    if a < end { ReadAgree(m, k, a + 1, end); }
  }

  lemma ReadWordAgree(m: Memory, k: Memory, a: nat)
    requires Agree(m, k, a, 8)
    ensures ReadWord(k, a) == ReadWord(m, a)
  {
    ReadAgree(m, k, a, a + 8);
  }

  lemma {:induction false} WriteElsewhere(m: Memory, a: nat, end: nat, v: nat, x: nat)
    requires x < a || x >= end
    ensures WriteBytes(m, a, end, v)(x) == m(x)
    decreases end - a
  {
    if a < end { WriteElsewhere(Put(m, a, v % 256), a + 1, end, v / 256, x); }
  }

  lemma {:induction false} ReadBack(m: Memory, a: nat, end: nat, v: nat)
    requires a <= end && v < Power(256, end - a)
    ensures ReadBytes(WriteBytes(m, a, end, v), a, end) == v
    decreases end - a
  {
    if a < end {
      var k := Put(m, a, v % 256);
      ReadBack(k, a + 1, end, v / 256);
      WriteElsewhere(k, a + 1, end, v / 256, a);
    }
  }

  lemma ReadWordBack(m: Memory, a: nat, v: nat)
    requires v < WORD
    ensures ReadWord(WriteWord(m, a, v), a) == v
  {
    assert Power(256, 2) == 0x1_0000 && Power(256, 4) == 0x1_0000_0000 && Power(256, 6) == 0x1_0000_0000_0000;
    assert Power(256, 8) == WORD;
    ReadBack(m, a, a + 8, v);
  }

  lemma WriteWordElsewhere(m: Memory, a: nat, v: nat)
    ensures forall x: nat :: x < a || x >= a + 8 ==> WriteWord(m, a, v)(x) == m(x)
  {
    forall x: nat | x < a || x >= a + 8 ensures WriteWord(m, a, v)(x) == m(x) {
      WriteElsewhere(m, a, a + 8, v, x);
    }
  }
}
