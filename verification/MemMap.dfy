/** The boot loader's memory map as the physical allocator reads it. */
module MemMap {
  datatype MemEntry = MemEntry(base: nat, length: nat, usable: bool)

  predicate Holds(e: MemEntry, p: nat) { e.usable && e.base <= p * 0x1000 < e.base + e.length }

  /** Page `p` lies in a usable entry. */
  predicate InUsable(s: seq<MemEntry>, p: nat) { exists k :: 0 <= k < |s| && Holds(s[k], p) }

  predicate Aligned(s: seq<MemEntry>) {
    forall k :: 0 <= k < |s| ==> s[k].base % 0x1000 == 0 && s[k].length % 0x1000 == 0
  }

  predicate Apart(d: MemEntry, e: MemEntry) {
    d.base + d.length <= e.base || e.base + e.length <= d.base
  }

  /** Usable entries do not overlap. */
  predicate Disjoint(s: seq<MemEntry>) {
    forall j, k :: 0 <= j < k < |s| && s[j].usable && s[k].usable ==> Apart(s[j], s[k])
  }

  function SumUsable(s: seq<MemEntry>): nat {
    if s == [] then 0
    else SumUsable(s[..|s| - 1]) + (if s[|s| - 1].usable then s[|s| - 1].length else 0)
  }

  /** The end of the highest usable entry. */
  function Top(s: seq<MemEntry>): nat {
    if s == [] then 0
    else
      var rest, e := Top(s[..|s| - 1]), s[|s| - 1];
      if e.usable && e.base + e.length > rest then e.base + e.length else rest
  }

  predicate Fits(e: MemEntry, size: nat) { e.usable && e.length >= size }

  function Shrink(e: MemEntry, size: nat): MemEntry
    requires e.length >= size
  {
    MemEntry(e.base + size, e.length - size, e.usable)
  }

  predicate AnyFits(s: seq<MemEntry>, size: nat) { exists k :: 0 <= k < |s| && Fits(s[k], size) }

  predicate NoneUsable(s: seq<MemEntry>) { forall k :: 0 <= k < |s| ==> !s[k].usable }

  /** The map after the first usable entry that is large enough has given its front away. */
  function Placed(s: seq<MemEntry>, size: nat): (t: seq<MemEntry>)
    ensures |t| == |s|
  {
    if s == [] then []
    else if Fits(s[0], size) then [Shrink(s[0], size)] + s[1..]
    else [s[0]] + Placed(s[1..], size)
  }

  lemma {:induction false} PlacedAt(s: seq<MemEntry>, size: nat, k: nat)
    requires k <= |s| && (forall j :: 0 <= j < k ==> !Fits(s[j], size)) && (k < |s| ==> Fits(s[k], size))
    ensures Placed(s, size) == if k < |s| then s[k := Shrink(s[k], size)] else s
    decreases k
  {
    if k > 0 {
      PlacedAt(s[1..], size, k - 1);
      assert s == [s[0]] + s[1..];
    }
  }

  lemma {:induction false} FirstFit(s: seq<MemEntry>, size: nat) returns (k: nat)
    requires AnyFits(s, size)
    ensures k < |s| && Fits(s[k], size) && forall j :: 0 <= j < k ==> !Fits(s[j], size)
    decreases |s|
  {
    if Fits(s[0], size) {
      k := 0;
    } else {
      var i :| 0 <= i < |s| && Fits(s[i], size);
      assert Fits(s[1..][i - 1], size);
      k := FirstFit(s[1..], size);
      k := k + 1;
      assert forall j :: 1 <= j < k ==> s[j] == s[1..][j - 1];
    }
  }

  lemma PlacedWhere(s: seq<MemEntry>, size: nat) returns (k: nat)
    requires AnyFits(s, size)
    ensures k < |s| && Fits(s[k], size) && Placed(s, size) == s[k := Shrink(s[k], size)]
  {
    k := FirstFit(s, size);
    PlacedAt(s, size, k);
  }

  lemma {:induction false} TopBounds(s: seq<MemEntry>, k: nat)
    requires k < |s| && s[k].usable
    ensures s[k].base + s[k].length <= Top(s)
  {
    if k < |s| - 1 { TopBounds(s[..|s| - 1], k); }
  }

  /** Taking `size` bytes from one usable entry takes them from the sum. */
  lemma {:induction false} SumShrink(s: seq<MemEntry>, k: nat, size: nat)
    requires k < |s| && Fits(s[k], size)
    ensures SumUsable(s[k := Shrink(s[k], size)]) + size == SumUsable(s)
  {
    var n := |s| - 1;
    var t := s[k := Shrink(s[k], size)];
    if k < n {
      SumShrink(s[..n], k, size);
      assert t[..n] == s[..n][k := Shrink(s[k], size)];
    } else {
      assert t[..n] == s[..n];
    }
  }
}
