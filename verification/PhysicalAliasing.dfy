/**
 What the two index widths as written do to an allocator with more than 2048 pages: `get` sees page
 2048 + i where page i is, so that marking a page from 2048 on goes unseen.
 */
module PhysicalAliasing {
  import opened Options
  import opened Numbers
  import opened BitMath
  import opened PackedBits
  import opened PhysicalSpec
  import opened MemMap
  import opened Physical

  const GET: Width := AS_WRITTEN.getter
  const SET: Width := AS_WRITTEN.setter

  /** Marking pages from 2048 on writes bits that are never looked at. */
  lemma {:induction false} MarkUnseen(row: seq<bool>, limit: nat, page: nat, count: nat, value: bool)
    requires 2048 <= page && page + count <= 0x8_0000
    ensures Seen(MarkRow(row, page, count, value, SET), limit, GET) == Seen(row, limit, GET)
    decreases count
  {
    if count > 0 {
      MarkUnseen(row, limit, page, count - 1, value);
      BitIndexWithin(SET, page + count - 1);
      var most := MarkRow(row, page, count - 1, value, SET);
      if page + count - 1 < |row| { WriteUnseen(most, limit, page + count - 1, value); }
    }
  }

  lemma WriteUnseen(row: seq<bool>, limit: nat, at: nat, value: bool)
    requires 2048 <= at < |row|
    ensures Seen(row[at := value], limit, GET) == Seen(row, limit, GET)
  {
    var now, want := Seen(row[at := value], limit, GET), Seen(row, limit, GET);
    forall j: nat | j < limit ensures now[j] == want[j] {
      SeenAt(row[at := value], limit, GET, j);
      SeenAt(row, limit, GET, j);
      BitIndexWithin(GET, j);
    }
    SameRows(now, want);
  }

  /** Whatever run from page 2048 on was handed out, the same request with the same hint gets it once more. */
  lemma HandedOutAgain(row: seq<bool>, limit: nat, hint: nat, count: nat)
    requires hint <= limit <= 0x8_0000 && count > 0
    ensures match Pick(Seen(row, limit, GET), hint, count)
            case Some(p) => p >= 2048 ==> Pick(Seen(MarkRow(row, p, count, true, SET), limit, GET), hint, count) == Some(p)
            case None => true
  {
    var bits := Seen(row, limit, GET);
    var pick := Pick(bits, hint, count);
    if pick.Some? {
      PickInside(bits, hint, count);
      if pick.value >= 2048 { MarkUnseen(row, limit, pick.value, count, true); }
    }
  }

  /** The first page that `get` sees in place of another: it reads the reserved bit, so no run holds it. */
  lemma Page2048IsNeverPicked(row: seq<bool>, limit: nat, hint: nat, count: nat)
    requires hint <= limit && count > 0 && |row| > 0 && row[0] && Pick(Seen(row, limit, GET), hint, count).Some?
    ensures var p := Pick(Seen(row, limit, GET), hint, count).value; !(p <= 2048 < p + count)
  {
    var bits := Seen(row, limit, GET);
    PickInside(bits, hint, count);
    if 2048 < limit {
      SeenAt(row, limit, GET, 2048);
      BitIndexIs(GET, 2048);
    }
  }

  // ---------------------------------------------------------------------------------------------
  // The bits that boot leaves
  // ---------------------------------------------------------------------------------------------

  /** Pages below 2^19 have a bit of their own when they are written. */
  lemma {:induction false} SmallMark(row: seq<bool>, page: nat, count: nat, value: bool, i: nat)
    requires page + count <= 0x8_0000 && i < |row|
    ensures MarkRow(row, page, count, value, SET)[i] == if page <= i < page + count then value else row[i]
    decreases count
  {
    if count > 0 {
      SmallMark(row, page, count - 1, value, i);
      BitIndexWithin(SET, page + count - 1);
    }
  }

  predicate SmallMap(s: seq<MemEntry>) {
    forall k :: 0 <= k < |s| && s[k].usable && s[k].length > 0 ==> s[k].base + s[k].length <= 0x1000 * 0x8_0000
  }

  lemma EntryPages(e: MemEntry, i: nat)
    requires e.base % 0x1000 == 0 && e.length % 0x1000 == 0 && e.usable
    ensures Holds(e, i) <==> e.base / 0x1000 <= i < e.base / 0x1000 + e.length / 0x1000
    ensures e.length > 0 && e.base + e.length <= 0x1000 * 0x8_0000 ==> e.base / 0x1000 + e.length / 0x1000 <= 0x8_0000
  {
  }

  /** Releasing the entries of such a map clears the bits of its pages and no others. */
  lemma {:induction false} ReleasedAt(row: seq<bool>, s: seq<MemEntry>, i: nat)
    requires Aligned(s) && SmallMap(s) && i < |row|
    ensures ReleasedRow(row, s, SET)[i] == (row[i] && !InUsable(s, i))
    decreases |s|
  {
    if s != [] {
      var n, e := |s| - 1, s[|s| - 1];
      var before := ReleasedRow(row, s[..n], SET);
      ReleasedAt(row, s[..n], i);
      InUsableSnoc(s, n, i);
      assert s[..n + 1] == s;
      if e.usable {
        EntryPages(e, i);
        if e.length > 0 { SmallMark(before, e.base / 0x1000, e.length / 0x1000, false, i); }
      }
    }
  }

  /** Of the bits that boot leaves, exactly those of the usable pages are clear. */
  lemma BootRowAt(s: seq<MemEntry>, now: seq<MemEntry>, i: nat)
    requires Aligned(now) && now == Placed(s, BitmapSize(s)) && SmallMap(now) && i < 8 * BitmapSize(s)
    ensures BootRow(s, SET)[i] <==> !InUsable(now, i)
  {
    ReleasedAt(Repeat(true, 8 * BitmapSize(s)), now, i);
  }

  // ---------------------------------------------------------------------------------------------
  // Runs of calls, on the bits as they are
  // ---------------------------------------------------------------------------------------------

  /** A run that was handed out and not given back. */
  datatype Grant = Grant(page: nat, count: nat)

  predicate InGrant(g: Grant, i: nat) { g.page <= i < g.page + g.count }

  /** The bits, the hint, and the runs that are out; a run that is handed out twice is out twice. */
  datatype Raw = Raw(row: seq<bool>, limit: nat, hint: nat, out: multiset<Grant>)

  datatype RawCall = Take(count: nat) | Give(grant: Grant)

  /** Allocations that do not panic, and frees of a run that is out. */
  predicate RawAllowed(s: Raw, call: RawCall) {
    && s.hint <= s.limit
    && match call
       case Take(count) => count > 0 && Pick(Seen(s.row, s.limit, GET), s.hint, count).Some?
       case Give(g) => g in s.out
  }

  function RawNext(s: Raw, call: RawCall): Raw
    requires RawAllowed(s, call)
  {
    match call
    case Take(count) =>
      var p := Pick(Seen(s.row, s.limit, GET), s.hint, count).value;
      Raw(MarkRow(s.row, p, count, true, SET), s.limit, p + count, s.out + multiset{Grant(p, count)})
    case Give(g) =>
      Raw(MarkRow(s.row, g.page, g.count, false, SET), s.limit, Min(s.hint, g.page), s.out - multiset{g})
  }

  predicate RawFollows(states: seq<Raw>, calls: seq<RawCall>, i: nat)
    requires |states| == |calls| + 1 && i < |calls|
  {
    RawAllowed(states[i], calls[i]) && states[i + 1] == RawNext(states[i], calls[i])
  }

  predicate RawRun(states: seq<Raw>, calls: seq<RawCall>, first: Raw) {
    && |states| == |calls| + 1 && states[0] == first
    && forall i: nat {:trigger RawFollows(states, calls, i)} :: i < |calls| ==> RawFollows(states, calls, i)
  }

  /** A memory map that the allocator boots from. */
  predicate Boots(s: seq<MemEntry>) { Aligned(s) && Disjoint(s) && !InUsable(s, 0) && Bootable(s) }

  function BootState(s: seq<MemEntry>): Raw { Raw(BootRow(s, SET), Top(s) / 0x1000, 0, multiset{}) }

  /** Every page that is out is usable, and is in one run only, which is out once. */
  ghost predicate Safe(now: seq<MemEntry>, out: multiset<Grant>) {
    && (forall g, i: nat :: g in out && InGrant(g, i) ==> InUsable(now, i))
    && (forall g, h, i: nat :: g in out && h in out && InGrant(g, i) && InGrant(h, i) ==> g == h)
    && (forall g :: out[g] <= 1)
  }

  predicate Sorted(s: seq<MemEntry>) { forall i, j :: 0 <= i < j < |s| ==> s[i].base <= s[j].base }

  /** With that many pages, every run from any memory map, or from any sorted one, is safe. */
  ghost predicate AlwaysSafe(limit: nat, sorted: bool) {
    forall s: seq<MemEntry>, states: seq<Raw>, calls: seq<RawCall> ::
      Boots(s) && Top(s) / 0x1000 == limit && (sorted ==> Sorted(s)) && RawRun(states, calls, BootState(s)) ==>
        Safe(Placed(s, BitmapSize(s)), states[|calls|].out)
  }

  // ---------------------------------------------------------------------------------------------
  // Safety: as long as the pages that others are seen in place of are reserved
  // ---------------------------------------------------------------------------------------------

  lemma TwiceIndex(i: nat)
    requires i < 4096
    ensures BitIndex(GET, i) == if i < 2048 then i else i - 2048
  {
    BitIndexIs(GET, i);
  }

  /** Marking a run that no page is seen in place of marks exactly its pages. */
  lemma MarkSeen(row: seq<bool>, limit: nat, page: nat, count: nat, value: bool)
    requires limit <= 4096 && limit <= |row| && page + count <= 2048 && page + count <= limit && limit <= page + 2048
    ensures Seen(MarkRow(row, page, count, value, SET), limit, GET) == Mark(Seen(row, limit, GET), page, count, value)
  {
    var now, want := Seen(MarkRow(row, page, count, value, SET), limit, GET), Mark(Seen(row, limit, GET), page, count, value);
    forall j: nat | j < limit ensures now[j] == want[j] {
      SeenAt(MarkRow(row, page, count, value, SET), limit, GET, j);
      SeenAt(row, limit, GET, j);
      TwiceIndex(j);
      SmallMark(row, page, count, value, BitIndex(GET, j));
    }
    SameRows(now, want);
  }

  /** The pages from 2048 on are taken for used, and so are the pages they are seen in place of. */
  predicate AliasesReserved(base: Pages) {
    |base| <= 4096 && (forall p :: 2048 <= p < |base| ==> base[p]) && (forall p :: 0 <= p < |base| - 2048 ==> base[p])
  }

  /** The specification of `PhysicalSpec` in a state with the same pages, hint and runs. */
  ghost predicate Mirrors(s: Raw, t: State, base: Pages) {
    && Inv(t, base) && |base| == s.limit <= |s.row|
    && t.bits == Seen(s.row, s.limit, GET) && t.hint == s.hint
    && forall g :: s.out[g] == if g.page in t.live && t.live[g.page] == g.count then 1 else 0
  }

  lemma RunAvoidsAliases(bits: Pages, base: Pages, page: nat, count: nat)
    requires AliasesReserved(base) && |bits| == |base| && count > 0 && page + count <= |base|
    requires forall i :: page <= i < page + count ==> !base[i]
    ensures page + count <= 2048 && |base| <= page + 2048
  {
    assert !base[page] && !base[page + count - 1];
  }

  lemma TakeMirrors(s: Raw, t: State, base: Pages, count: nat)
    requires Mirrors(s, t, base) && AliasesReserved(base) && RawAllowed(s, Take(count))
    ensures PhysicalSpec.Allowed(t, Alloc(count)) && Mirrors(RawNext(s, Take(count)), Next(t, Alloc(count)), base)
  {
    var p := Pick(t.bits, t.hint, count).value;
    PickInside(t.bits, t.hint, count);
    RunAvoidsAliases(t.bits, base, p, count);
    MarkSeen(s.row, s.limit, p, count, true);
    FreeRunApart(t, base, p, count);
    NextKeepsInv(t, base, Alloc(count));
  }

  lemma GiveMirrors(s: Raw, t: State, base: Pages, g: Grant)
    requires Mirrors(s, t, base) && AliasesReserved(base) && RawAllowed(s, Give(g))
    ensures PhysicalSpec.Allowed(t, PhysicalSpec.Free(g.page))
    ensures Mirrors(RawNext(s, Give(g)), Next(t, PhysicalSpec.Free(g.page)), base)
  {
    assert g.page in t.live && t.live[g.page] == g.count;
    forall i | g.page <= i < g.page + g.count ensures !base[i] { assert Within(g.page, t.live[g.page], i); }
    RunAvoidsAliases(t.bits, base, g.page, g.count);
    MarkSeen(s.row, s.limit, g.page, g.count, false);
    NextKeepsInv(t, base, PhysicalSpec.Free(g.page));
  }

  lemma {:induction false} RunMirrors(states: seq<Raw>, calls: seq<RawCall>, first: Raw, base: Pages, n: nat) returns (t: State)
    requires RawRun(states, calls, first) && AliasesReserved(base) && n < |states|
    requires Mirrors(first, State(base, 0, 0, map[]), base)
    ensures Mirrors(states[n], t, base)
  {
    if n == 0 {
      t := State(base, 0, 0, map[]);
    } else {
      var u := RunMirrors(states, calls, first, base, n - 1);
      assert RawFollows(states, calls, n - 1);
      match calls[n - 1]
      case Take(count) =>
        TakeMirrors(states[n - 1], u, base, count);
        t := Next(u, Alloc(count));
      case Give(g) =>
        GiveMirrors(states[n - 1], u, base, g);
        t := Next(u, PhysicalSpec.Free(g.page));
    }
  }

  /** The pages that boot frees, as `get` sees them, when those that others are seen in place of are not usable. */
  lemma BootBits(s: seq<MemEntry>, now: seq<MemEntry>, limit: nat, i: nat)
    requires Boots(s) && now == Placed(s, BitmapSize(s)) && limit == Top(s) / 0x1000 <= 4096 && i < limit
    ensures Seen(BootRow(s, SET), limit, GET)[i] <==> !InUsable(now, if i < 2048 then i else i - 2048)
  {
    PlacedKeeps(s);
    SeenAt(BootRow(s, SET), limit, GET, i);
    TwiceIndex(i);
    BelowIsSmall(now, limit);
    BootRowAt(s, now, BitIndex(GET, i));
  }

  lemma BelowIsSmall(s: seq<MemEntry>, limit: nat)
    requires Below(s, limit) && limit <= 0x8_0000
    ensures SmallMap(s)
  {
  }

  lemma BootMirrors(s: seq<MemEntry>, base: Pages)
    requires Boots(s) && Top(s) / 0x1000 <= 4096 && base == Seen(BootRow(s, SET), Top(s) / 0x1000, GET)
    ensures Mirrors(BootState(s), State(base, 0, 0, map[]), base)
  {
  }

  /** When the pages that others are seen in place of are not usable, every run is safe. */
  lemma SafeIfReserved(s: seq<MemEntry>, states: seq<Raw>, calls: seq<RawCall>, limit: nat)
    requires Boots(s) && limit == Top(s) / 0x1000 <= 4096 && RawRun(states, calls, BootState(s))
    requires forall p :: 0 <= p < limit - 2048 ==> !InUsable(Placed(s, BitmapSize(s)), p)
    ensures Safe(Placed(s, BitmapSize(s)), states[|calls|].out)
  {
    var now, base := Placed(s, BitmapSize(s)), Seen(BootRow(s, SET), limit, GET);
    forall p | 0 <= p < limit ensures base[p] <==> !InUsable(now, if p < 2048 then p else p - 2048) { BootBits(s, now, limit, p); }
    BootMirrors(s, base);
    var t := RunMirrors(states, calls, BootState(s), base, |calls|);
    MirrorIsSafe(states[|calls|], t, base, now);
  }

  lemma MirrorIsSafe(s: Raw, t: State, base: Pages, now: seq<MemEntry>)
    requires Mirrors(s, t, base) && AliasesReserved(base)
    requires forall p :: 0 <= p < |base| && p < 2048 ==> (base[p] <==> !InUsable(now, p))
    ensures Safe(now, s.out)
  {
    forall g, i: nat | g in s.out && InGrant(g, i) ensures InUsable(now, i) {
      assert g.page in t.live && Within(g.page, t.live[g.page], i);
      assert !base[i];
    }
    forall g, h, i: nat | g in s.out && h in s.out && InGrant(g, i) && InGrant(h, i) ensures g == h {
      assert g.page in t.live && Within(g.page, t.live[g.page], i);
      assert h.page in t.live && Within(h.page, t.live[h.page], i);
    }
  }

  lemma NotAtZero(s: seq<MemEntry>, k: nat)
    requires k < |s| && s[k].usable && s[k].length > 0 && !InUsable(s, 0) && Aligned(s)
    ensures s[k].base >= 0x1000
  {
    assert !Holds(s[k], 0);
  }

  lemma PageOneFits(s: seq<MemEntry>, k: nat)
    requires k < |s| && Holds(s[k], 1) && !InUsable(s, 0) && Aligned(s)
    ensures Fits(s[k], 0x1000) && s[k].base == 0x1000
  {
    NotAtZero(s, k);
  }

  lemma InOrder(s: seq<MemEntry>, j: nat, k: nat)
    requires Sorted(s) && j < k < |s|
    ensures s[j].base <= s[k].base
  {
  }

  lemma InTwo(s: seq<MemEntry>, j: nat, k: nat)
    requires Disjoint(s) && j < k < |s| && s[j].usable && s[k].usable
    ensures Apart(s[j], s[k])
  {
  }

  /** In a sorted map, no entry but the first that holds a page has page 1. */
  lemma PageOneIsFirst(s: seq<MemEntry>, f: nat, k: nat)
    requires Boots(s) && Sorted(s) && f < |s| && k < |s| && k != f
    requires Fits(s[f], 0x1000) && forall j :: 0 <= j < f ==> !Fits(s[j], 0x1000)
    ensures !Holds(s[k], 1)
  {
    if Holds(s[k], 1) {
      PageOneFits(s, k);
      if f < k {
        InOrder(s, f, k);
        NotAtZero(s, f);
        InTwo(s, f, k);
      }
    }
  }

  lemma FrontOfPageOne(e: MemEntry)
    requires Fits(e, 0x1000) && e.base % 0x1000 == 0
    ensures Holds(Shrink(e, 0x1000), 1) ==> Holds(e, 0)
  {
  }

  /** When the bitmap is one page, a sorted map gives it page 1 if page 1 is usable at all. */
  lemma SortedTakesPageOne(s: seq<MemEntry>)
    requires Boots(s) && Sorted(s) && BitmapSize(s) == 0x1000 && AnyFits(s, 0x1000)
    ensures !InUsable(Placed(s, 0x1000), 1)
  {
    var now := Placed(s, 0x1000);
    var f := FirstFit(s, 0x1000);
    PlacedAt(s, 0x1000, f);
    forall k | 0 <= k < |now| ensures !Holds(now[k], 1) {
      if k == f {
        FrontOfPageOne(s[f]);
        assert !Holds(s[f], 0);
      } else {
        PageOneIsFirst(s, f, k);
      }
    }
  }

  lemma OnePageOfBits(limit: nat)
    requires 8 <= limit <= 0x8000
    ensures AlignUp(limit / 8, 0x1000) == 0x1000
  {
    AlignUpToPage(limit / 8);
    RoundsToOne(limit / 8);
  }

  lemma RoundsToOne(b: nat)
    requires 1 <= b <= 0x1000
    ensures b + 0xFFF - (b + 0xFFF) % 0x1000 == 0x1000
  {
  }

  lemma AliasesNotUsable(s: seq<MemEntry>, limit: nat, sorted: bool)
    requires Boots(s) && limit == Top(s) / 0x1000 && (limit <= 2049 || (sorted && limit == 2050)) && (sorted ==> Sorted(s))
    ensures forall p :: 0 <= p < limit - 2048 ==> !InUsable(Placed(s, BitmapSize(s)), p)
  {
    PlacedKeeps(s);
    if limit == 2050 {
      OnePageOfBits(limit);
      if NoneUsable(s) { NoTop(s); } else { SortedTakesPageOne(s); }
    }
  }

  lemma SafeUpTo(limit: nat, sorted: bool)
    requires limit <= 2049 || (sorted && limit == 2050)
    ensures AlwaysSafe(limit, sorted)
  {
    forall s: seq<MemEntry>, states: seq<Raw>, calls: seq<RawCall>
      | Boots(s) && Top(s) / 0x1000 == limit && (sorted ==> Sorted(s)) && RawRun(states, calls, BootState(s))
      ensures Safe(Placed(s, BitmapSize(s)), states[|calls|].out)
    {
      AliasesNotUsable(s, limit, sorted);
      SafeIfReserved(s, states, calls, limit);
    }
  }
}
