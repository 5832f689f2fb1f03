/**
 With one page more than is safe, and with any number beyond it, there is a memory map and a run of
 legal calls that hands a page out twice.
 */
module PhysicalDoubleUse {
  import opened Options
  import opened Numbers
  import opened BitMath
  import opened PackedBits
  import opened PhysicalSpec
  import opened MemMap
  import opened Physical
  import opened PhysicalAliasing

  // ---------------------------------------------------------------------------------------------
  // The run
  // ---------------------------------------------------------------------------------------------

  /** Of the bits that are looked at, that of page `a` is clear, and maybe those of `a + 2` and `a + 3`. */
  predicate OnlyFree(row: seq<bool>, a: nat, two: bool) {
    && 1 <= a && a + 3 < 2048 < |row|
    && forall i :: 0 <= i < 2048 ==> (!row[i] <==> i == a || (two && (i == a + 2 || i == a + 3)))
  }

  lemma IndexBelow(i: nat)
    ensures BitIndex(GET, i) < 2048 && (i < 4096 ==> BitIndex(GET, i) == if i < 2048 then i else i - 2048)
  {
    BitIndexWithin(GET, i);
    if i < 4096 { TwiceIndex(i); }
  }

  lemma SeenFree(row: seq<bool>, limit: nat, a: nat, two: bool, i: nat)
    requires OnlyFree(row, a, two) && i < limit && i < 4096
    ensures var at := if i < 2048 then i else i - 2048;
            !Seen(row, limit, GET)[i] <==> at == a || (two && (at == a + 2 || at == a + 3))
  {
    SeenAt(row, limit, GET, i);
    IndexBelow(i);
  }

  /** A run of two pages is the pair behind page `a`. */
  lemma PicksPair(row: seq<bool>, limit: nat, a: nat, hint: nat)
    requires OnlyFree(row, a, true) && a + 2048 < limit && (hint == 0 || hint == a + 2)
    ensures Pick(Seen(row, limit, GET), hint, 2) == Some(a + 2)
  {
    var bits := Seen(row, limit, GET);
    SeenFree(row, limit, a, true, a + 2);
    SeenFree(row, limit, a, true, a + 3);
    assert RunFree(bits, a + 2, 2);
    forall q: nat | hint <= q < a + 2 ensures !RunFree(bits, q, 2) {
      SeenFree(row, limit, a, true, q);
      SeenFree(row, limit, a, true, q + 1);
    }
    FirstRunIsLowest(bits, hint, limit, 2);
  }

  /** A single page behind the pair is the one that is seen in place of page `a`. */
  lemma PicksAlias(row: seq<bool>, limit: nat, a: nat)
    requires OnlyFree(row, a, false) && a + 2048 < limit
    ensures Pick(Seen(row, limit, GET), a + 4, 1) == Some(a + 2048)
  {
    var bits := Seen(row, limit, GET);
    SeenFree(row, limit, a, false, a + 2048);
    assert RunFree(bits, a + 2048, 1);
    forall q: nat | a + 4 <= q < a + 2048 ensures !RunFree(bits, q, 1) {
      SeenFree(row, limit, a, false, q);
      assert bits[q];
    }
    FirstRunIsLowest(bits, a + 4, limit, 1);
  }

  lemma PairMarked(row: seq<bool>, a: nat, value: bool)
    requires OnlyFree(row, a, value)
    ensures OnlyFree(MarkRow(row, a + 2, 2, value, SET), a, !value)
  {
    var r, n := MarkRow(row, a + 2, 2, value, SET), 2;
    forall i: nat | i < 2048 ensures r[i] == (if i == a + 2 || i == a + 3 then value else row[i]) {
      SmallMark(row, a + 2, n, value, i);
    }
  }

  lemma AliasMarked(row: seq<bool>, a: nat)
    requires OnlyFree(row, a, false)
    ensures OnlyFree(MarkRow(row, a + 2048, 1, true, SET), a, false)
  {
    var r, n := MarkRow(row, a + 2048, 1, true, SET), 1;
    forall i: nat | i < 2048 ensures r[i] == row[i] {
      SmallMark(row, a + 2048, n, true, i);
    }
  }

  /** Two pages, one page, and after the two were given back both requests once more. */
  function Calls(a: nat): seq<RawCall> { [Take(2), Take(1), Give(Grant(a + 2, 2)), Take(2), Take(1)] }

  /** The state before the pair is taken, from the hint `hint`. */
  predicate BeforePair(s: Raw, a: nat) {
    OnlyFree(s.row, a, true) && a + 2048 < s.limit && (s.hint == 0 || s.hint == a + 2)
  }

  predicate BeforeAlias(s: Raw, a: nat) { OnlyFree(s.row, a, false) && a + 2048 < s.limit && s.hint == a + 4 }

  lemma TakesPair(s: Raw, a: nat) returns (t: Raw)
    requires BeforePair(s, a)
    ensures RawAllowed(s, Take(2)) && t == RawNext(s, Take(2)) && BeforeAlias(t, a)
    ensures t.limit == s.limit && t.out == s.out + multiset{Grant(a + 2, 2)}
  {
    PicksPair(s.row, s.limit, a, s.hint);
    PairMarked(s.row, a, true);
    t := RawNext(s, Take(2));
  }

  lemma TakesAlias(s: Raw, a: nat) returns (t: Raw)
    requires BeforeAlias(s, a)
    ensures RawAllowed(s, Take(1)) && t == RawNext(s, Take(1))
    ensures OnlyFree(t.row, a, false) && t.limit == s.limit && t.hint == a + 2049 && t.out == s.out + multiset{Grant(a + 2048, 1)}
  {
    PicksAlias(s.row, s.limit, a);
    AliasMarked(s.row, a);
    t := RawNext(s, Take(1));
  }

  lemma GivesPair(s: Raw, a: nat) returns (t: Raw)
    requires OnlyFree(s.row, a, false) && a + 2048 < s.limit && s.hint == a + 2049 && Grant(a + 2, 2) in s.out
    ensures RawAllowed(s, Give(Grant(a + 2, 2))) && t == RawNext(s, Give(Grant(a + 2, 2))) && BeforePair(t, a)
    ensures t.limit == s.limit && t.out == s.out - multiset{Grant(a + 2, 2)}
  {
    PairMarked(s.row, a, false);
    t := RawNext(s, Give(Grant(a + 2, 2)));
  }

  /** After these calls one page is out twice. */
  lemma RunsTwice(first: Raw, a: nat) returns (states: seq<Raw>)
    requires BeforePair(first, a) && first.out == multiset{}
    ensures RawRun(states, Calls(a), first) && states[5].out[Grant(a + 2048, 1)] == 2
  {
    var s1 := TakesPair(first, a);
    var s2 := TakesAlias(s1, a);
    var s3 := GivesPair(s2, a);
    var s4 := TakesPair(s3, a);
    var s5 := TakesAlias(s4, a);
    states := [first, s1, s2, s3, s4, s5];
    forall i: nat | i < 5 ensures RawFollows(states, Calls(a), i) {}
  }

  /** A map that leaves only page `a` and the pair free below page 2048 is not safe. */
  lemma MapIsUnsafe(s: seq<MemEntry>, now: seq<MemEntry>, limit: nat, a: nat, sorted: bool)
    requires Boots(s) && limit == Top(s) / 0x1000 && a + 2048 < limit && (sorted ==> Sorted(s))
    requires now == Placed(s, BitmapSize(s)) && Aligned(now) && SmallMap(now) && 1 <= a && a + 3 < 2048
    requires forall i :: 0 <= i < 2048 ==> (InUsable(now, i) <==> i == a || i == a + 2 || i == a + 3)
    ensures !AlwaysSafe(limit, sorted)
  {
    forall i | 0 <= i < 2048 ensures BootRow(s, SET)[i] <==> !InUsable(now, i) { BootRowAt(s, now, i); }
    var states := RunsTwice(BootState(s), a);
    OutTwice(now, states[|Calls(a)|].out, Grant(a + 2048, 1));
  }

  lemma OutTwice(now: seq<MemEntry>, out: multiset<Grant>, g: Grant)
    requires out[g] == 2
    ensures !Safe(now, out)
  {
  }

  // ---------------------------------------------------------------------------------------------
  // Memory maps
  // ---------------------------------------------------------------------------------------------

  function PageEntryAt(p: nat): MemEntry { MemEntry(p * 0x1000, 0x1000, true) }

  /** An entry for each of some pages. */
  function Singles(ps: seq<nat>): (s: seq<MemEntry>)
    ensures |s| == |ps| && forall k :: 0 <= k < |ps| ==> s[k] == PageEntryAt(ps[k])
  {
    if ps == [] then [] else [PageEntryAt(ps[0])] + Singles(ps[1..])
  }

  lemma OnePage(q: nat, p: nat)
    ensures Holds(PageEntryAt(q), p) <==> p == q
  {
  }

  lemma SinglesHold(ps: seq<nat>, p: nat)
    ensures InUsable(Singles(ps), p) <==> p in ps
  {
    forall k | 0 <= k < |ps| ensures Holds(Singles(ps)[k], p) <==> p == ps[k] { OnePage(ps[k], p); }
  }

  lemma InEither(s: seq<MemEntry>, t: seq<MemEntry>, p: nat)
    ensures InUsable(s + t, p) <==> InUsable(s, p) || InUsable(t, p)
  {
    var u := s + t;
    if InUsable(s, p) {
      var k :| 0 <= k < |s| && Holds(s[k], p);
      assert Holds(u[k], p);
    }
    if InUsable(t, p) {
      var k :| 0 <= k < |t| && Holds(t[k], p);
      assert Holds(u[|s| + k], p);
    }
    if InUsable(u, p) {
      var k :| 0 <= k < |u| && Holds(u[k], p);
      if k < |s| { assert Holds(s[k], p); } else { assert Holds(t[k - |s|], p); }
    }
  }

  lemma {:induction false} TopAtMost(s: seq<MemEntry>, t: nat)
    requires forall k :: 0 <= k < |s| && s[k].usable ==> s[k].base + s[k].length <= t
    ensures Top(s) <= t
    decreases |s|
  {
    if s != [] { TopAtMost(s[..|s| - 1], t); }
  }

  lemma TopIs(s: seq<MemEntry>, k: nat)
    requires k < |s| && s[k].usable
    requires forall j :: 0 <= j < |s| && s[j].usable ==> s[j].base + s[j].length <= s[k].base + s[k].length
    ensures Top(s) == s[k].base + s[k].length
  {
    TopAtMost(s, s[k].base + s[k].length);
    TopBounds(s, k);
  }

  predicate Distinct(ps: seq<nat>) { forall i, j :: 0 <= i < j < |ps| ==> ps[i] != ps[j] }

  predicate Ascending(ps: seq<nat>) { forall i, j :: 0 <= i < j < |ps| ==> ps[i] < ps[j] }

  /** Pages below the limit, among them the last one; behind the first, only `a` and the pair behind it below page 2048. */
  ghost predicate Chosen(ps: seq<nat>, limit: nat, last: nat, a: nat) {
    && Distinct(ps) && 0 !in ps && last < |ps| && ps[last] == limit - 1 && (forall k :: 0 <= k < |ps| ==> ps[k] < limit)
    && 1 <= a && a + 3 < 2048
    && (forall i: nat {:trigger i in ps[1..]} :: i < 2048 ==> (i in ps[1..] <==> i == a || i == a + 2 || i == a + 3))
  }

  lemma SinglesApart(ps: seq<nat>)
    requires Distinct(ps)
    ensures Aligned(Singles(ps)) && Disjoint(Singles(ps))
  {
  }

  lemma SinglesTop(ps: seq<nat>, limit: nat, last: nat)
    requires last < |ps| && ps[last] == limit - 1 && forall k :: 0 <= k < |ps| ==> ps[k] < limit
    ensures Top(Singles(ps)) == limit * 0x1000 && Top(Singles(ps)) / 0x1000 == limit
  {
    TopIs(Singles(ps), last);
  }

  lemma FirstHolds(ps: seq<nat>)
    requires ps != []
    ensures var s := Singles(ps);
            AnyFits(s, 0x1000) && Placed(s, 0x1000) == [Shrink(PageEntryAt(ps[0]), 0x1000)] + Singles(ps[1..])
  {
    assert Fits(Singles(ps)[0], 0x1000);
  }

  lemma SinglesBoot(ps: seq<nat>, limit: nat, last: nat)
    requires Distinct(ps) && 0 !in ps && last < |ps| && ps[last] == limit - 1 && forall k :: 0 <= k < |ps| ==> ps[k] < limit
    requires limit <= 8 * AlignUp(limit / 8, 0x1000) && AlignUp(limit / 8, 0x1000) == 0x1000
    ensures var s := Singles(ps);
            && Boots(s) && Top(s) / 0x1000 == limit && BitmapSize(s) == 0x1000
            && Placed(s, 0x1000) == [Shrink(PageEntryAt(ps[0]), 0x1000)] + Singles(ps[1..])
  {
    SinglesApart(ps);
    SinglesHold(ps, 0);
    SinglesTop(ps, limit, last);
    FirstHolds(ps);
  }

  /** What is left of the first page when it holds the bitmap is nothing. */
  lemma RestHolds(ps: seq<nat>, now: seq<MemEntry>, p: nat)
    requires ps != [] && now == [Shrink(PageEntryAt(ps[0]), 0x1000)] + Singles(ps[1..])
    ensures InUsable(now, p) <==> p in ps[1..]
  {
    SinglesHold(ps[1..], p);
    InEither([Shrink(PageEntryAt(ps[0]), 0x1000)], Singles(ps[1..]), p);
  }

  lemma SmallEntry(p: nat)
    requires p < 0x8_0000
    ensures var e := PageEntryAt(p); e.base % 0x1000 == 0 && e.base + e.length <= 0x1000 * 0x8_0000
    ensures var e := Shrink(PageEntryAt(p), 0x1000); e.base % 0x1000 == 0 && e.length == 0
  {
  }

  lemma SmallSingles(ps: seq<nat>, now: seq<MemEntry>)
    requires ps != [] && now == [Shrink(PageEntryAt(ps[0]), 0x1000)] + Singles(ps[1..])
    requires forall k :: 0 <= k < |ps| ==> ps[k] < 0x8_0000
    ensures Aligned(now) && SmallMap(now)
  {
    forall k | 0 <= k < |now|
      ensures now[k].base % 0x1000 == 0 && now[k].length % 0x1000 == 0
      ensures now[k].length > 0 ==> now[k].base + now[k].length <= 0x1000 * 0x8_0000
    {
      SmallEntry(ps[k]);
      assert k > 0 ==> now[k] == PageEntryAt(ps[k]);
    }
  }

  /** Maps of single pages, the first of which holds the bitmap. */
  lemma SinglesUnsafe(ps: seq<nat>, limit: nat, last: nat, a: nat, sorted: bool)
    requires Chosen(ps, limit, last, a) && (sorted ==> Ascending(ps)) && a + 2048 < limit
    requires limit <= 8 * AlignUp(limit / 8, 0x1000) && AlignUp(limit / 8, 0x1000) == 0x1000
    ensures !AlwaysSafe(limit, sorted)
  {
    var s, now := Singles(ps), [Shrink(PageEntryAt(ps[0]), 0x1000)] + Singles(ps[1..]);
    SinglesBoot(ps, limit, last);
    SmallSingles(ps, now);
    forall i: nat | i < 2048 ensures InUsable(now, i) <==> i == a || i == a + 2 || i == a + 3 { RestHolds(ps, now, i); }
    MapIsUnsafe(s, now, limit, a, sorted);
  }

  /** Page 100 for the bitmap comes before page 1. */
  lemma HundredFirst(ps: seq<nat>, limit: nat)
    requires ps == [100, 1, 3, 4, 2049] && limit == 2050
    ensures Chosen(ps, limit, 4, 1)
  {
    assert ps[1..] == [1, 3, 4, 2049];
  }

  lemma UnsafeAt2050(limit: nat, ps: seq<nat>)
    requires limit == 2050 && ps == [100, 1, 3, 4, 2049]
    requires limit <= 8 * AlignUp(limit / 8, 0x1000) && AlignUp(limit / 8, 0x1000) == 0x1000
    ensures !AlwaysSafe(limit, false)
  {
    HundredFirst(ps, limit);
    SinglesUnsafe(ps, limit, 4, 1, false);
  }

  /** Five single pages in order: the bitmap takes page 1, and pages 2, 4, 5 and 2050 are free. */
  lemma FivePages(ps: seq<nat>, limit: nat)
    requires ps == [1, 2, 4, 5, 2050] && limit == 2051
    ensures Chosen(ps, limit, 4, 2) && Ascending(ps)
  {
    assert ps[1..] == [2, 4, 5, 2050];
  }

  lemma SixPages(ps: seq<nat>, limit: nat)
    requires ps == [1, 2, 4, 5, 2050, limit - 1] && limit > 2051
    ensures Chosen(ps, limit, 5, 2) && Ascending(ps)
  {
    assert ps[1..] == [2, 4, 5, 2050, limit - 1];
  }

  lemma UnsafeSmall(limit: nat, five: seq<nat>, six: seq<nat>)
    requires 2051 <= limit && limit <= 8 * AlignUp(limit / 8, 0x1000) && AlignUp(limit / 8, 0x1000) == 0x1000
    requires five == [1, 2, 4, 5, 2050] && six == five + [limit - 1]
    ensures !AlwaysSafe(limit, true)
  {
    if limit == 2051 {
      FivePages(five, limit);
      SinglesUnsafe(five, limit, 4, 2, true);
    } else {
      SixPages(six, limit);
      SinglesUnsafe(six, limit, 5, 2, true);
    }
  }

  // ---------------------------------------------------------------------------------------------
  // Large bitmaps
  // ---------------------------------------------------------------------------------------------

  /** Four single pages, and at the end an entry just for the bitmap. */
  function WithTail(limit: nat, m: nat): seq<MemEntry>
    requires m <= limit
  {
    Singles([2, 4, 5, 2050]) + [MemEntry((limit - m) * 0x1000, m * 0x1000, true)]
  }

  lemma TailEntries(limit: nat, m: nat, k: nat)
    requires m <= limit && k < 5
    ensures var s := WithTail(limit, m);
            && |s| == 5
            && s[k] == if k == 4 then MemEntry((limit - m) * 0x1000, m * 0x1000, true) else PageEntryAt([2, 4, 5, 2050][k])
  {
  }

  lemma AppendApart(s: seq<MemEntry>, e: MemEntry)
    requires Aligned(s) && Disjoint(s) && Sorted(s) && e.base % 0x1000 == 0 && e.length % 0x1000 == 0
    requires forall k :: 0 <= k < |s| ==> s[k].base + s[k].length <= e.base
    ensures Aligned(s + [e]) && Disjoint(s + [e]) && Sorted(s + [e])
  {
    var t := s + [e];
    forall k | 0 <= k < |t| ensures t[k] == if k < |s| then s[k] else e {}
  }

  lemma SinglesSorted(ps: seq<nat>)
    requires forall i, j :: 0 <= i < j < |ps| ==> ps[i] < ps[j]
    ensures Sorted(Singles(ps))
  {
  }

  lemma TailApart(limit: nat, m: nat, s: seq<MemEntry>)
    requires 2 <= m && 2051 + m <= limit && s == WithTail(limit, m)
    ensures Aligned(s) && Disjoint(s) && Sorted(s) && |s| == 5
  {
    SinglesApart([2, 4, 5, 2050]);
    SinglesSorted([2, 4, 5, 2050]);
    AppendApart(Singles([2, 4, 5, 2050]), MemEntry((limit - m) * 0x1000, m * 0x1000, true));
  }

  lemma TailTop(limit: nat, m: nat, s: seq<MemEntry>)
    requires 2 <= m && 2051 + m <= limit && s == WithTail(limit, m)
    ensures Top(s) == limit * 0x1000
  {
    forall k | 0 <= k < 5 ensures s[k].usable && s[k].base + s[k].length <= limit * 0x1000 { TailEntries(limit, m, k); }
    TailEntries(limit, m, 4);
    TopIs(s, 4);
  }

  lemma TailPlaced(limit: nat, m: nat, s: seq<MemEntry>)
    requires 2 <= m <= limit && s == WithTail(limit, m)
    ensures AnyFits(s, m * 0x1000)
    ensures Placed(s, m * 0x1000) == Singles([2, 4, 5, 2050]) + [MemEntry(limit * 0x1000, 0, true)]
  {
    forall k | 0 <= k < 4 ensures !Fits(s[k], m * 0x1000) { TailEntries(limit, m, k); }
    TailEntries(limit, m, 4);
    assert Fits(s[4], m * 0x1000);
    PlacedAt(s, m * 0x1000, 4);
  }

  lemma NothingHolds(at: nat, p: nat)
    ensures !InUsable([MemEntry(at, 0, true)], p)
  {
  }

  /** The pages that are left, and the page behind the last, of which nothing is left. */
  lemma TailHolds(limit: nat, now: seq<MemEntry>, p: nat)
    requires now == Singles([2, 4, 5, 2050]) + [MemEntry(limit * 0x1000, 0, true)]
    ensures InUsable(now, p) <==> p == 2 || p == 4 || p == 5 || p == 2050
  {
    SinglesHold([2, 4, 5, 2050], p);
    NothingHolds(limit * 0x1000, p);
    InEither(Singles([2, 4, 5, 2050]), [MemEntry(limit * 0x1000, 0, true)], p);
  }

  lemma TailSmall(limit: nat, now: seq<MemEntry>)
    requires now == Singles([2, 4, 5, 2050]) + [MemEntry(limit * 0x1000, 0, true)]
    ensures Aligned(now) && SmallMap(now)
  {
  }

  lemma TailBoots(limit: nat, m: nat, size: nat, s: seq<MemEntry>)
    requires size == AlignUp(limit / 8, 0x1000) == m * 0x1000 && limit <= 8 * size && 2 <= m && 2051 + m <= limit
    requires s == WithTail(limit, m)
    ensures Boots(s) && Sorted(s) && Top(s) / 0x1000 == limit && BitmapSize(s) == size
    ensures Placed(s, size) == Singles([2, 4, 5, 2050]) + [MemEntry(limit * 0x1000, 0, true)]
  {
    TailApart(limit, m, s);
    TailTop(limit, m, s);
    TailPlaced(limit, m, s);
    TailMapHasNoPageZero(limit, m, s);
  }

  lemma UnsafeLarge(limit: nat, m: nat, size: nat)
    requires size == AlignUp(limit / 8, 0x1000) == m * 0x1000 && limit <= 8 * size && 2 <= m && 2051 + m <= limit
    ensures !AlwaysSafe(limit, true)
  {
    var s, now := WithTail(limit, m), Singles([2, 4, 5, 2050]) + [MemEntry(limit * 0x1000, 0, true)];
    TailBoots(limit, m, size, s);
    forall i: nat | i < 2048 ensures InUsable(now, i) <==> i == 2 || i == 4 || i == 5 { TailHolds(limit, now, i); }
    TailSmall(limit, now);
    MapIsUnsafe(s, now, limit, 2, true);
  }

  lemma TailMapHasNoPageZero(limit: nat, m: nat, s: seq<MemEntry>)
    requires m < limit && s == WithTail(limit, m)
    ensures !InUsable(s, 0)
  {
    SinglesHold([2, 4, 5, 2050], 0);
    InEither(Singles([2, 4, 5, 2050]), [MemEntry((limit - m) * 0x1000, m * 0x1000, true)], 0);
  }

  /** A bitmap takes few pages of the memory it describes. */
  lemma BitmapIsSmall(limit: nat) returns (m: nat)
    requires 2051 <= limit && 0x1000 * limit <= WORD
    ensures AlignUp(limit / 8, 0x1000) == m * 0x1000 && m >= 1 && (m >= 2 ==> 2051 + m <= limit)
  {
    AlignUpToPage(limit / 8);
    m := (limit / 8 + 0xFFF) / 0x1000;
    Division(limit / 8 + 0xFFF, 0x1000);
  }

  lemma SortedIsAMap(limit: nat)
    ensures !AlwaysSafe(limit, true) ==> !AlwaysSafe(limit, false)
  {
  }

  /**
   With the widths as written, every run of legal calls from boot is safe, whatever the memory map, exactly
   for limits up to 2049 pages, and for limits up to 2050 if memory maps are sorted.
   */
  lemma SafeIff(limit: nat, sorted: bool)
    requires 0x1000 * limit <= WORD && limit <= 8 * AlignUp(limit / 8, 0x1000)
    ensures AlwaysSafe(limit, sorted) <==> limit <= if sorted then 2050 else 2049
  {
    if limit <= (if sorted then 2050 else 2049) {
      SafeUpTo(limit, sorted);
    } else if limit == 2050 {
      OnePageOfBits(limit);
      UnsafeAt2050(limit, [100, 1, 3, 4, 2049]);
    } else {
      var m := BitmapIsSmall(limit);
      if m == 1 { UnsafeSmall(limit, [1, 2, 4, 5, 2050], [1, 2, 4, 5, 2050, limit - 1]); } else { UnsafeLarge(limit, m, m * 0x1000); }
      SortedIsAMap(limit);
    }
  }

  // ---------------------------------------------------------------------------------------------
  // The object itself
  // ---------------------------------------------------------------------------------------------

  /** `memory` is about to take the pair. */
  ghost predicate Ready(memory: PhysicalMemory, a: nat)
    reads memory, memory.bitmap, memory.bitmap.buffer
  {
    && memory.InBounds() && memory.narrowing == AS_WRITTEN && OnlyFree(memory.Row(), a, true) && a + 2048 < memory.Limit()
    && (memory.lastIndex == 0 || memory.lastIndex == a + 2)
  }

  lemma PageZeroSeen(row: seq<bool>, limit: nat, a: nat, two: bool)
    requires OnlyFree(row, a, two) && limit > 0
    ensures Seen(row, limit, GET)[0]
  {
    SeenFree(row, limit, a, two, 0);
  }

  /** The pair, and the page that is seen in place of page `a`. */
  method TakeBoth(memory: PhysicalMemory, a: nat) returns (pair: Outcome, page: Outcome)
    requires Ready(memory, a)
    modifies memory`lastIndex, memory`usedMemory, memory.bitmap.buffer
    ensures pair == At((a + 2) * 0x1000) && page == At((a + 2048) * 0x1000)
    ensures OnlyFree(memory.Row(), a, false) && memory.lastIndex == a + 2049 <= memory.Limit()
    ensures memory.usedMemory == old(memory.usedMemory) + 0x3000
  {
    PageZeroSeen(memory.Row(), memory.Limit(), a, true);
    PicksPair(memory.Row(), memory.Limit(), a, memory.lastIndex);
    PairMarked(memory.Row(), a, true);
    pair := memory.Alloc(2);
    PageZeroSeen(memory.Row(), memory.Limit(), a, false);
    PicksAlias(memory.Row(), memory.Limit(), a);
    AliasMarked(memory.Row(), a);
    page := memory.Alloc(1);
  }

  /** The pair goes back, and then both are handed out again: the page without having been given back. */
  method TakeTwice(memory: PhysicalMemory, a: nat) returns (first: Outcome, second: Outcome)
    requires Ready(memory, a)
    modifies memory`lastIndex, memory`usedMemory, memory.bitmap.buffer
    ensures first == second == At((a + 2048) * 0x1000)
  {
    var pair;
    pair, first := TakeBoth(memory, a);
    PairMarked(memory.Row(), a, false);
    memory.Free(pair.address, 2);
    pair, second := TakeBoth(memory, a);
  }

  lemma ReadyBits(s: seq<MemEntry>, now: seq<MemEntry>, ps: seq<nat>, a: nat)
    requires Boots(s) && BitmapSize(s) == 0x1000 && now == Placed(s, 0x1000) && Aligned(now) && SmallMap(now)
    requires ps != [] && now == [Shrink(PageEntryAt(ps[0]), 0x1000)] + Singles(ps[1..]) && 1 <= a && a + 3 < 2048
    requires forall i: nat :: i < 2048 ==> (i in ps[1..] <==> i == a || i == a + 2 || i == a + 3)
    ensures OnlyFree(BootRow(s, SET), a, true)
  {
    forall i | 0 <= i < 2048 ensures !BootRow(s, SET)[i] <==> i == a || i == a + 2 || i == a + 3 {
      BootRowAt(s, now, i);
      RestHolds(ps, now, i);
    }
  }

  /** A map of so many pages that leaves page `a` and the pair behind it free. */
  predicate Leaves(s: seq<MemEntry>, limit: nat, a: nat) {
    Boots(s) && Sorted(s) && Top(s) / 0x1000 == limit && OnlyFree(BootRow(s, SET), a, true)
  }

  lemma SinglesLeave(ps: seq<nat>, limit: nat, last: nat, a: nat)
    requires Chosen(ps, limit, last, a) && Ascending(ps)
    requires limit <= 8 * AlignUp(limit / 8, 0x1000) && AlignUp(limit / 8, 0x1000) == 0x1000
    ensures Leaves(Singles(ps), limit, a)
  {
    var s, now := Singles(ps), [Shrink(PageEntryAt(ps[0]), 0x1000)] + Singles(ps[1..]);
    SinglesSorted(ps);
    SinglesBoot(ps, limit, last);
    SmallSingles(ps, now);
    ReadyBits(s, now, ps, a);
  }

  lemma FiveBoot(ps: seq<nat>, limit: nat)
    requires ps == [1, 2, 4, 5, 2050] && limit == 2051
    requires limit <= 8 * AlignUp(limit / 8, 0x1000) && AlignUp(limit / 8, 0x1000) == 0x1000
    ensures Leaves(Singles(ps), limit, 2)
  {
    FivePages(ps, limit);
    SinglesLeave(ps, limit, 4, 2);
  }

  lemma FiveBitmap(limit: nat)
    requires limit == 2051
    ensures limit <= 8 * AlignUp(limit / 8, 0x1000) && AlignUp(limit / 8, 0x1000) == 0x1000
  {
    OnePageOfBits(limit);
  }

  lemma FiveLeaves(ps: seq<nat>, limit: nat)
    requires ps == [1, 2, 4, 5, 2050] && limit == 2051
    ensures Leaves(Singles(ps), limit, 2)
  {
    FiveBitmap(limit);
    FiveBoot(ps, limit);
  }

  method FiveMap(ghost ps: seq<nat>) returns (memmap: array<MemEntry>)
    requires ps == [1, 2, 4, 5, 2050]
    ensures fresh(memmap) && memmap[..] == Singles(ps)
  {
    memmap := new MemEntry[5][PageEntryAt(1), PageEntryAt(2), PageEntryAt(4), PageEntryAt(5), PageEntryAt(2050)];
  }

  /** From boot on a map that leaves those pages free, by calls that every caller may make. */
  method BootAndTakeTwice(memmap: array<MemEntry>, ghost limit: nat, a: nat) returns (first: Outcome, second: Outcome)
    requires Leaves(memmap[..], limit, a) && a + 2048 < limit
    modifies memmap
    ensures first == second == At((a + 2048) * 0x1000)
  {
    var memory := new PhysicalMemory(AS_WRITTEN);
    memory.Init(memmap);
    first, second := TakeTwice(memory, a);
  }

  /** With a sorted map of 2051 pages, page 2050 is handed out twice. */
  method HandsOutTwice() returns (first: Outcome, second: Outcome)
    ensures first == second == At(2050 * 0x1000)
  {
    ghost var ps, limit := [1, 2, 4, 5, 2050], 2051;
    FiveLeaves(ps, limit);
    var memmap := FiveMap(ps);
    first, second := BootAndTakeTwice(memmap, limit, 2);
  }
}
