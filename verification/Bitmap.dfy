/**
 The packed bitmap.  `get` narrows the byte index to eight bits and `set` to sixteen, so the two
 agree only on a prefix of the indices.
 */
module PackedBits {
  import opened Numbers

  /** `1 << k` in a byte. */
  function DigitMask(k: nat): bv8
    requires k < 8
  {
    match k
    case 0 => 1
    case 1 => 2
    case 2 => 4
    case 3 => 8
    case 4 => 16
    case 5 => 32
    case 6 => 64
    case _ => 128
  }

  /** Bit `i` of a byte string, the least significant bit of each byte first. */
  predicate BitOf(bytes: seq<bv8>, i: nat) {
    i / 8 < |bytes| && Test(bytes[i / 8], i % 8)
  }

  /** How many bytes an index variable of some width tells apart. */
  type Width = w: nat | w > 0 witness 1

  /** The widths of the byte indices in `get` and in `set`. */
  datatype Narrowing = Narrowing(getter: Width, setter: Width)

  /** The byte index is an eight-bit variable in `get` and a sixteen-bit one in `set`. */
  const AS_WRITTEN: Narrowing := Narrowing(0x100, 0x1_0000)

  /** Where the bit of an index ends up: what exceeds the width wraps around. */
  function BitIndex(w: Width, i: nat): nat
    decreases i
  {
    if i < 8 * w then i else BitIndex(w, i - 8 * w)
  }

  lemma {:induction false} BitIndexWithin(w: Width, i: nat)
    ensures BitIndex(w, i) < 8 * w && BitIndex(w, i) <= i && (i < 8 * w ==> BitIndex(w, i) == i)
    decreases i
  {
    if i >= 8 * w { BitIndexWithin(w, i - 8 * w); }
  }

  lemma {:induction false} BitIndexIs(w: Width, i: nat)
    ensures BitIndex(w, i) == 8 * (i / 8 % w) + i % 8
    decreases i
  {
    if i < 8 * w {
      assert i / 8 < w;
      ModUnique(i / 8, w, 0, i / 8);
    } else {
      BitIndexIs(w, i - 8 * w);
      assert (i - 8 * w) / 8 == i / 8 - w && (i - 8 * w) % 8 == i % 8;
      Wraps(i / 8 - w, w);
    }
  }

  lemma Wraps(b: nat, w: Width)
    ensures (b + w) % w == b % w
  {
    Division(b, w);
    Division(b + w, w);
    UniqueQuotient(w, b / w + 1, b % w, (b + w) / w, (b + w) % w);
  }

  lemma MaskSet(b: bv8, j: nat, k: nat)
    requires j < 8 && k < 8
    ensures (b | DigitMask(j)) & DigitMask(k) != 0 <==> j == k || b & DigitMask(k) != 0
    ensures (b & !DigitMask(j)) & DigitMask(k) != 0 <==> j != k && b & DigitMask(k) != 0
  {
    if j != k { MasksDisjoint(b, j, k); }
  }

  lemma MasksDisjoint(b: bv8, j: nat, k: nat)
    requires j < 8 && k < 8 && j != k
    ensures (b | DigitMask(j)) & DigitMask(k) == b & DigitMask(k)
    ensures (b & !DigitMask(j)) & DigitMask(k) == b & DigitMask(k)
  {
    var x, y := DigitMask(j), DigitMask(k);
    assert x & y == 0;
    OrthogonalMasks(b, x, y);
  }

  lemma OrthogonalMasks(b: bv8, x: bv8, y: bv8)
    requires x & y == 0
    ensures (b | x) & y == b & y
    ensures (b & !x) & y == b & y
  {
  }

  predicate Test(b: bv8, k: nat)
    requires k < 8
  {
    b & DigitMask(k) != 0
  }

  function Write(b: bv8, k: nat, value: bool): bv8
    requires k < 8
  {
    if value then b | DigitMask(k) else b & !DigitMask(k)
  }

  lemma TestWrite(b: bv8, j: nat, k: nat, value: bool)
    requires j < 8 && k < 8
    ensures Test(Write(b, j, value), k) == (if j == k then value else Test(b, k))
  {
    MaskSet(b, j, k);
  }

  function WriteBit(bytes: seq<bv8>, byte: nat, bit: nat, value: bool): seq<bv8>
    requires byte < |bytes| && bit < 8
  {
    bytes[byte := Write(bytes[byte], bit, value)]
  }

  lemma WrittenBit(bytes: seq<bv8>, byte: nat, bit: nat, value: bool, i: nat)
    requires byte < |bytes| && bit < 8
    ensures BitOf(WriteBit(bytes, byte, bit, value), i) == (if i == 8 * byte + bit then value else BitOf(bytes, i))
  {
    var k := i % 8;
    assert i == 8 * (i / 8) + k;
    if i / 8 == byte {
      TestWrite(bytes[byte], bit, k, value);
    }
  }

  lemma WrittenBits(bytes: seq<bv8>, byte: nat, bit: nat, value: bool)
    requires byte < |bytes| && bit < 8
    ensures forall i: nat :: BitOf(WriteBit(bytes, byte, bit, value), i) ==
              (if i == 8 * byte + bit then value else BitOf(bytes, i))
  {
    forall i: nat
      ensures BitOf(WriteBit(bytes, byte, bit, value), i) == (if i == 8 * byte + bit then value else BitOf(bytes, i))
    {
      WrittenBit(bytes, byte, bit, value, i);
    }
  }

  /** The first `n` bits of a byte string in order. */
  function FirstBits(bytes: seq<bv8>, n: nat): (row: seq<bool>)
    ensures |row| == n
  {
    if n == 0 then [] else FirstBits(bytes, n - 1) + [BitOf(bytes, n - 1)]
  }

  lemma {:induction false} FirstBitsAt(bytes: seq<bv8>, n: nat, i: nat)
    requires i < n
    ensures FirstBits(bytes, n)[i] == BitOf(bytes, i)
  {
    if i < n - 1 { FirstBitsAt(bytes, n - 1, i); }
  }

  /** All bits of a byte string in order. */
  function RowOf(bytes: seq<bv8>): (row: seq<bool>)
    ensures |row| == 8 * |bytes|
  {
    FirstBits(bytes, 8 * |bytes|)
  }

  lemma RowIsBits(bytes: seq<bv8>, i: nat)
    requires i < 8 * |bytes|
    ensures RowOf(bytes)[i] == BitOf(bytes, i)
  {
    FirstBitsAt(bytes, 8 * |bytes|, i);
  }

  lemma RowAt(bytes: seq<bv8>, byte: nat, bit: nat)
    requires byte < |bytes| && bit < 8
    ensures RowOf(bytes)[8 * byte + bit] == Test(bytes[byte], bit)
  {
    RowIsBits(bytes, 8 * byte + bit);
  }

  lemma RowWritten(bytes: seq<bv8>, byte: nat, bit: nat, value: bool)
    requires byte < |bytes| && bit < 8
    ensures RowOf(WriteBit(bytes, byte, bit, value)) == RowOf(bytes)[8 * byte + bit := value]
  {
    WrittenBits(bytes, byte, bit, value);
    var after := WriteBit(bytes, byte, bit, value);
    var row, want := RowOf(after), RowOf(bytes)[8 * byte + bit := value];
    forall i | 0 <= i < |want| ensures row[i] == want[i] {
      RowIsBits(after, i);
      RowIsBits(bytes, i);
    }
    SameRows(row, want);
  }

  lemma SameRows(a: seq<bool>, b: seq<bool>)
    requires |a| == |b| && forall i :: 0 <= i < |b| ==> a[i] == b[i]
    ensures a == b
  {
  }

  class Bitmap {
    var buffer: array<bv8>
    const narrowing: Narrowing

    constructor (bytes: array<bv8>, narrowing: Narrowing)
      ensures buffer == bytes && this.narrowing == narrowing
    {
      this.buffer, this.narrowing := bytes, narrowing;
    }

    method Get(index: nat) returns (r: bool)
      requires BitIndex(narrowing.getter, index) < 8 * buffer.Length
      ensures r == RowOf(buffer[..])[BitIndex(narrowing.getter, index)]
    {
      BitIndexIs(narrowing.getter, index);
      var bit := index % 8;
      var byte := index / 8 % narrowing.getter;
      RowAt(buffer[..], byte, bit);
      r := buffer[byte] & DigitMask(bit) != 0;
    }

    method Set(index: nat, value: bool)
      requires BitIndex(narrowing.setter, index) < 8 * buffer.Length
      modifies buffer
      ensures RowOf(buffer[..]) == RowOf(old(buffer[..]))[BitIndex(narrowing.setter, index) := value]
    {
      BitIndexIs(narrowing.setter, index);
      var bit := index % 8;
      var byte := index / 8 % narrowing.setter;
      ghost var was := buffer[..];
      buffer[byte] := Write(buffer[byte], bit, value);
      assert buffer[..] == WriteBit(was, byte, bit, value);
      RowWritten(was, byte, bit, value);
    }
  }

  /** Below the limit, reading and writing both reach the bit of the index. */
  predicate Coherent(limit: nat, n: Narrowing) {
    forall i: nat {:trigger BitIndex(n.getter, i)} :: i < limit ==> BitIndex(n.getter, i) == BitIndex(n.setter, i) == i
  }

  /** They do exactly when both widths reach the limit. */
  lemma CoherentIff(limit: nat, n: Narrowing)
    ensures Coherent(limit, n) <==> limit <= 8 * n.getter && limit <= 8 * n.setter
  {
    forall i: nat | i < limit && limit <= 8 * n.getter && limit <= 8 * n.setter
      ensures BitIndex(n.getter, i) == BitIndex(n.setter, i) == i
    {
      BitIndexWithin(n.getter, i);
      BitIndexWithin(n.setter, i);
    }
    if Coherent(limit, n) {
      if limit > 8 * n.getter { TooNarrow(limit, n, 8 * n.getter); }
      if limit > 8 * n.setter { TooNarrow(limit, n, 8 * n.setter); }
    }
  }

  lemma TooNarrow(limit: nat, n: Narrowing, i: nat)
    requires i == 8 * n.getter || i == 8 * n.setter
    ensures BitIndex(n.getter, i) != i || BitIndex(n.setter, i) != i
  {
    BitIndexWithin(n.getter, i);
    BitIndexWithin(n.setter, i);
  }

  /** With the widths as written that is a limit of at most 2048. */
  lemma CoherentExactly(limit: nat)
    ensures Coherent(limit, AS_WRITTEN) <==> limit <= 2048
  {
    CoherentIff(limit, AS_WRITTEN);
  }

  /** As written, a bit that was just set is read back exactly when its byte index fits eight bits after narrowing. */
  lemma ReadsBackIff(i: nat)
    ensures BitIndex(AS_WRITTEN.getter, i) == BitIndex(AS_WRITTEN.setter, i) <==> i % 0x8_0000 < 0x800
  {
    BitIndexIs(0x100, i);
    BitIndexIs(0x1_0000, i);
    ByteParts(i);
    SmallByte(i % 0x8_0000);
  }

  lemma ByteParts(i: nat)
    ensures i / 8 % 0x1_0000 == i % 0x8_0000 / 8 && i / 8 % 0x100 == i % 0x8_0000 / 8 % 0x100
  {
    var q, r := i / 0x8_0000, i % 0x8_0000;
    assert i == 0x8_0000 * q + r;
    assert i / 8 == 0x1_0000 * q + r / 8;
    Remainders(0x100 * q, r / 8);
  }

  lemma Remainders(q: nat, b: nat)
    ensures (0x100 * q + b) % 0x100 == b % 0x100
  {
  }

  lemma SmallByte(r: nat)
    requires r < 0x8_0000
    ensures r / 8 % 0x100 == r / 8 <==> r < 0x800
  {
  }

  /** As written, reading page 2048 looks at the bit of page 0, and writing it does not. */
  lemma ReadsAliasedPage()
    ensures BitIndex(AS_WRITTEN.getter, 2048) == 0 && BitIndex(AS_WRITTEN.setter, 2048) == 2048
  {
    BitIndexIs(AS_WRITTEN.getter, 2048);
    BitIndexWithin(AS_WRITTEN.setter, 2048);
  }
}
