/**
 Aligned windows that do not overlap make the boot mappings consistent.
 */
module BootWindows {
  import opened Options
  import opened Numbers
  import opened BitMath
  import opened Words
  import opened HugePages
  import opened Boot
  import PagemapRun

  /** The end of the kernel image, rounded up to pages. */
  function ImageEnd(b: Info): nat { (b.size + 0xFFF) / 0x1000 * 0x1000 }

  /**
   The identity window and the direct map hold physical memory below `limit`; the kernel image has a
   window of its own.  All are canonical and none wraps.
   */
  predicate Windows(b: Info, limit: nat) {
    && FOUR_GIG <= limit <= 0x8000_0000_0000 && limit % 0x1000 == 0
    && b.hhdm % GIG == 0 && b.hhdm >= 0xFFFF_8000_0000_0000 && b.hhdm + limit <= WORD
    && (forall k :: 0 <= k < |b.regions| ==> Top(b.regions[k]) <= limit)
    && b.virtual_base % 0x1000 == 0 && b.physical_base % 0x1000 == 0 && b.size <= WORD - 0x1000
    && b.virtual_base >= 0xFFFF_8000_0000_0000 && b.virtual_base + ImageEnd(b) <= WORD
    && b.physical_base + ImageEnd(b) <= 0x10_0000_0000_0000
    && (b.virtual_base + ImageEnd(b) <= b.hhdm || b.hhdm + limit <= b.virtual_base)
  }

  /** A request in numbers: virtual address `a`, physical address `p`. */
  predicate At(r: Request, a: Word, p: Word) { r.va == Bits(a) && r.pa == Bits(p) }

  /** Where the requests come from: the identity window, the direct map, or the image. */
  predicate Placement(b: Info, limit: nat, giant: bool, a: Word, p: Word) {
    && p % 0x1000 == 0 && a % 0x1000 == 0 && p < 0x10_0000_0000_0000
    && (giant ==> p % GIG == 0 && p < FOUR_GIG)
    && (|| (p < limit && (giant || p >= FOUR_GIG) && (a == p || a == b.hhdm + p))
        || (!giant && b.virtual_base <= a < b.virtual_base + ImageEnd(b) && p == b.physical_base + (a - b.virtual_base)))
  }

  lemma AskedNumbers(b: Info, limit: nat, r: Request) returns (a: Word, p: Word)
    requires Windows(b, limit) && Asked(b, r)
    ensures At(r, a, p) && Placement(b, limit, r.giant, a, p)
  {
    if GigAsked(b, r, FOUR_GIG) {
      a, p := GigRequestNumbers(b, limit, r);
    } else if RegionsAsked(b, r, |b.regions|) {
      a, p := RegionNumbers(b, limit, r);
    } else {
      a, p := ImageNumbers(b, limit, r);
    }
  }

  lemma GigRequestNumbers(b: Info, limit: nat, r: Request) returns (a: Word, p: Word)
    requires Windows(b, limit) && GigAsked(b, r, FOUR_GIG)
    ensures At(r, a, p) && Placement(b, limit, r.giant, a, p)
  {
    var t: Word :| t % 0x4000_0000 == 0 && t < FOUR_GIG && Direct(b, r, t);
    GigIsPages(t);
    a, p := DirectNumbers(b, limit, r, t);
  }

  lemma GigIsPages(t: nat)
    requires t % GIG == 0
    ensures t % 0x1000 == 0
  {
    assert t == 0x1000 * (0x4_0000 * (t / GIG));
  }

  lemma RegionNumbers(b: Info, limit: nat, r: Request) returns (a: Word, p: Word)
    requires Windows(b, limit) && RegionsAsked(b, r, |b.regions|)
    ensures At(r, a, p) && Placement(b, limit, r.giant, a, p)
  {
    var k :| 0 <= k < |b.regions| && PageAsked(b, b.regions[k], r, Top(b.regions[k]));
    var low, end := AlignDown(b.regions[k].base, 0x1000), Top(b.regions[k]);
    var t: Word :| t % 0x1000 == 0 && low <= t < end && t >= FOUR_GIG && Direct(b, r, t);
    a, p := DirectNumbers(b, limit, r, t);
  }

  lemma ImageNumbers(b: Info, limit: nat, r: Request) returns (a: Word, p: Word)
    requires Windows(b, limit) && ImageAsked(b, r, b.size)
    ensures At(r, a, p) && Placement(b, limit, r.giant, a, p)
  {
    var i: Word :| i % 0x1000 == 0 && i < b.size && ImagePage(b, i, r);
    assert i < ImageEnd(b);
    AlignedSum(b.virtual_base, i);
    AlignedSum(b.physical_base, i);
    a, p := b.virtual_base + i, b.physical_base + i;
  }

  lemma DirectNumbers(b: Info, limit: nat, r: Request, t: Word) returns (a: Word, p: Word)
    requires Windows(b, limit) && Direct(b, r, t) && t < limit && t % 0x1000 == 0
    requires if r.giant then t % GIG == 0 && t < FOUR_GIG else t >= FOUR_GIG
    ensures At(r, a, p) && Placement(b, limit, r.giant, a, p)
  {
    HighSum(b, limit, t);
    p := t;
    if r.va == Bits(t) {
      a := t;
    } else {
      a := b.hhdm + t;
      AlignedSum(b.hhdm, t);
    }
  }

  lemma AlignedSum(x: nat, y: nat)
    ensures x % GIG == 0 && y % 0x1000 == 0 ==> (x + y) % 0x1000 == 0
    ensures x % GIG == 0 && y % GIG == 0 ==> (x + y) % GIG == 0
    ensures x % 0x1000 == 0 && y % 0x1000 == 0 ==> (x + y) % 0x1000 == 0
  {
  }

  lemma NumbersSensible(b: Info, limit: nat, r: Request, a: Word, p: Word)
    requires Windows(b, limit) && At(r, a, p) && Placement(b, limit, r.giant, a, p)
    ensures Sensible(r)
  {
    CanonicalBits(a);
    FrameBits(p);
    if r.giant {
      GigAlignedBits(p);
      GigAlignedBits(a);
    }
  }

  /** Requests that reach one page, or one gigabyte, are the same. */
  lemma NumbersAgree(b: Info, limit: nat, g: bool, a: Word, p: Word, h: bool, c: Word, q: Word)
    requires Windows(b, limit) && Placement(b, limit, g, a, p) && Placement(b, limit, h, c, q)
    requires if g || h then a / GIG == c / GIG else a / 0x1000 == c / 0x1000
    ensures g == h && a == c && p == q
  {
  }

  lemma GigOutside(x: bv64, y: bv64)
    requires SameGig(x, y)
    ensures SameOutside(x, y, 0x3FFF_FFFF)
  {
  }

  lemma PageOutside(x: bv64, y: bv64)
    requires PagemapRun.SamePage(x, y)
    ensures SameOutside(x, y, 0xFFF)
  {
  }

  lemma PageInGig(x: bv64, w: bv64)
    requires PagemapRun.SamePage(x, w)
    ensures SameGig(x, w)
  {
  }

  /** Two requests that cover one address lie in one page, or, if either is giant, in one gigabyte. */
  lemma CoverMeet(r: Request, s: Request, w: bv64)
    requires Covers(r, w) && Covers(s, w)
    ensures if r.giant || s.giant then SameGig(r.va, s.va) else PagemapRun.SamePage(r.va, s.va)
  {
    if r.giant || s.giant {
      if !r.giant { PageInGig(r.va, w); }
      if !s.giant { PageInGig(s.va, w); }
    }
  }

  lemma MeetingNumbers(r: Request, s: Request, w: bv64, a: Word, c: Word)
    requires Covers(r, w) && Covers(s, w) && r.va == Bits(a) && s.va == Bits(c)
    ensures if r.giant || s.giant then a / GIG == c / GIG else a / 0x1000 == c / 0x1000
  {
    CoverMeet(r, s, w);
    if r.giant || s.giant {
      GigOutside(r.va, s.va);
      GigNumbers(a, c);
    } else {
      PageOutside(r.va, s.va);
      PageNumbers(a, c);
    }
  }

  lemma RequestsAgree(b: Info, limit: nat, r: Request, s: Request, w: bv64)
    requires Windows(b, limit) && Asked(b, r) && Asked(b, s) && Covers(r, w) && Covers(s, w)
    ensures r == s
  {
    var a, p := AskedNumbers(b, limit, r);
    var c, q := AskedNumbers(b, limit, s);
    MeetingNumbers(r, s, w, a, c);
    NumbersAgree(b, limit, r.giant, a, p, s.giant, c, q);
  }

  lemma RequestSensible(b: Info, limit: nat, r: Request)
    requires Windows(b, limit) && Asked(b, r)
    ensures Sensible(r)
  {
    var a, p := AskedNumbers(b, limit, r);
    NumbersSensible(b, limit, r, a, p);
  }

  /** Aligned windows that do not overlap are consistent. */
  lemma WindowsAreConsistent(b: Info, limit: nat)
    requires Windows(b, limit)
    ensures Consistent(b)
  {
    forall r | Asked(b, r) ensures Sensible(r) { RequestSensible(b, limit, r); }
    forall r, s, w | Asked(b, r) && Asked(b, s) && Covers(r, w) && Covers(s, w)
      ensures Target(r, w) == Target(s, w) && r.giant == s.giant
    {
      RequestsAgree(b, limit, r, s, w);
    }
  }

  // ---------------------------------------------------------------------------------------------
  // What the boot address space gives, in numbers
  // ---------------------------------------------------------------------------------------------

  lemma SameGigNumbers(a: Word, c: Word)
    requires a / GIG == c / GIG
    ensures SameGig(Bits(a), Bits(c))
  {
    GigNumbers(a, c);
    OutsideGig(Bits(a), Bits(c));
  }

  lemma OutsideGig(x: bv64, y: bv64)
    requires SameOutside(x, y, 0x3FFF_FFFF)
    ensures SameGig(x, y)
  {
  }

  lemma SamePageNumbers(a: Word, c: Word)
    requires a / 0x1000 == c / 0x1000
    ensures PagemapRun.SamePage(Bits(a), Bits(c))
  {
    PageNumbers(a, c);
    OutsidePage(Bits(a), Bits(c));
  }

  lemma OutsidePage(x: bv64, y: bv64)
    requires SameOutside(x, y, 0xFFF)
    ensures PagemapRun.SamePage(x, y)
  {
  }

  lemma RejoinGig(t: Word, n: Word, w: Word)
    requires t % GIG == 0 && t / GIG == n / GIG && w % GIG == n % GIG
    ensures Bits(t) | (Bits(w) & 0x3FFF_FFFF) == Bits(n)
  {
    Masks();
    OverIs(t, 30);
    OverIs(n, 30);
    Rejoined(t, n, w, 30);
    assert Low(Bits(w), 0x3FFF_FFFF) == Bits(w) & 0x3FFF_FFFF;
  }

  lemma RejoinPage(t: Word, n: Word, w: Word)
    requires t % 0x1000 == 0 && t / 0x1000 == n / 0x1000 && w % 0x1000 == n % 0x1000
    ensures Bits(t) | (Bits(w) & 0xFFF) == Bits(n)
  {
    Masks();
    OverIs(t, 12);
    OverIs(n, 12);
    Rejoined(t, n, w, 12);
    assert Low(Bits(w), 0xFFF) == Bits(w) & 0xFFF;
  }

  /** The parts of the sum of an aligned base and an offset. */
  lemma GigParts(base: nat, n: nat, t: nat)
    requires base % GIG == 0 && t == n - n % GIG
    ensures t % GIG == 0 && t / GIG == n / GIG && (base + t) / GIG == (base + n) / GIG && (base + n) % GIG == n % GIG
  {
  }

  lemma PageParts(base: nat, n: nat, t: nat)
    requires base % 0x1000 == 0 && t == n - n % 0x1000
    ensures t % 0x1000 == 0 && t / 0x1000 == n / 0x1000
    ensures (base + t) / 0x1000 == (base + n) / 0x1000 && (base + n) % 0x1000 == n % 0x1000
  {
  }

  lemma HighSum(b: Info, limit: nat, n: nat)
    requires Windows(b, limit) && n < limit
    ensures b.hhdm + n < WORD && ToHigh(b.hhdm, n) == b.hhdm + n && CanonicalNumber(n) && CanonicalNumber(b.hhdm + n)
  {
  }

  lemma LowAtIdentity(b: Info, n: Word, t: Word)
    requires Consistent(b) && CanonicalNumber(n) && t % GIG == 0 && t < FOUR_GIG && t / GIG == n / GIG
    ensures Wanted(b, Bits(n)) == Some(Bits(n))
  {
    CanonicalBits(n);
    SameGigNumbers(t, n);
    LowGigabytes(b, t, Bits(n));
  }

  lemma LowAtHigh(b: Info, n: Word, t: Word, high_t: Word, high_n: Word)
    requires Consistent(b) && CanonicalNumber(high_n) && t % GIG == 0 && t < FOUR_GIG && t / GIG == n / GIG
    requires high_t == ToHigh(b.hhdm, t) && high_t / GIG == high_n / GIG && high_n % GIG == n % GIG
    ensures Wanted(b, Bits(high_n)) == Some(Bits(n))
  {
    CanonicalBits(high_n);
    SameGigNumbers(high_t, high_n);
    var r := Request(Bits(high_t), Bits(t), true);
    GigIsAsked(b, t);
    assert Direct(b, r, t);
    RequestGives(b, r, Bits(high_n));
    TargetGig(r, t, n, high_n);
  }

  lemma TargetGig(r: Request, t: Word, n: Word, w: Word)
    requires r.giant && r.pa == Bits(t) && t % GIG == 0 && t / GIG == n / GIG && w % GIG == n % GIG
    ensures Target(r, Bits(w)) == Bits(n)
  {
    RejoinGig(t, n, w);
    assert r == Request(r.va, Bits(t), true);
  }

  lemma TargetPage(r: Request, t: Word, n: Word, w: Word)
    requires !r.giant && r.pa == Bits(t) && t % 0x1000 == 0 && t / 0x1000 == n / 0x1000 && w % 0x1000 == n % 0x1000
    ensures Target(r, Bits(w)) == Bits(n)
  {
    RejoinPage(t, n, w);
    assert r == Request(r.va, Bits(t), false);
  }

  /** After boot, every address below 4 GiB is reached at its identity and at its direct-map address. */
  lemma LowAddresses(b: Info, limit: nat, n: nat)
    requires Windows(b, limit) && n < FOUR_GIG
    ensures b.hhdm + n < WORD && Wanted(b, Bits(n)) == Some(Bits(n)) && Wanted(b, Bits(b.hhdm + n)) == Some(Bits(n))
  {
    WindowsAreConsistent(b, limit);
    var t := n - n % GIG;
    GigParts(b.hhdm, n, t);
    HighSum(b, limit, n);
    HighSum(b, limit, t);
    LowAtIdentity(b, n, t);
    LowAtHigh(b, n, t, b.hhdm + t, b.hhdm + n);
  }

  predicate InRegion(b: Info, k: nat, t: Word)
    requires k < |b.regions|
  {
    t % 0x1000 == 0 && AlignDown(b.regions[k].base, 0x1000) <= t < Top(b.regions[k]) && t >= FOUR_GIG
  }

  lemma RegionAtIdentity(b: Info, k: nat, n: Word, t: Word)
    requires Consistent(b) && CanonicalNumber(n) && k < |b.regions| && InRegion(b, k, t) && t / 0x1000 == n / 0x1000
    ensures Wanted(b, Bits(n)) == Some(Bits(n))
  {
    CanonicalBits(n);
    SamePageNumbers(t, n);
    RegionPages(b, k, t, Bits(n));
  }

  lemma RegionAtHigh(b: Info, k: nat, n: Word, t: Word, high_t: Word, high_n: Word)
    requires Consistent(b) && CanonicalNumber(high_n) && k < |b.regions| && InRegion(b, k, t) && t / 0x1000 == n / 0x1000
    requires high_t == ToHigh(b.hhdm, t) && high_t / 0x1000 == high_n / 0x1000 && high_n % 0x1000 == n % 0x1000
    ensures Wanted(b, Bits(high_n)) == Some(Bits(n))
  {
    CanonicalBits(high_n);
    SamePageNumbers(high_t, high_n);
    var r := Request(Bits(high_t), Bits(t), false);
    PageIsAsked(b, k, t);
    assert Direct(b, r, t);
    RequestGives(b, r, Bits(high_n));
    TargetPage(r, t, n, high_n);
  }

  /** So is every address of the memory map's pages above. */
  lemma RegionAddresses(b: Info, limit: nat, k: nat, n: nat)
    requires Windows(b, limit) && k < |b.regions|
    requires AlignDown(b.regions[k].base, 0x1000) <= n < Top(b.regions[k]) && n >= FOUR_GIG
    ensures b.hhdm + n < WORD && Wanted(b, Bits(n)) == Some(Bits(n)) && Wanted(b, Bits(b.hhdm + n)) == Some(Bits(n))
  {
    WindowsAreConsistent(b, limit);
    var t := n - n % 0x1000;
    RegionStart(b, limit, k, n, t);
    PageParts(b.hhdm, n, t);
    HighSum(b, limit, n);
    HighSum(b, limit, t);
    RegionAtIdentity(b, k, n, t);
    RegionAtHigh(b, k, n, t, b.hhdm + t, b.hhdm + n);
  }

  lemma RegionStart(b: Info, limit: nat, k: nat, n: nat, t: nat)
    requires Windows(b, limit) && k < |b.regions| && t == n - n % 0x1000
    requires AlignDown(b.regions[k].base, 0x1000) <= n < Top(b.regions[k]) && n >= FOUR_GIG
    ensures t < WORD && InRegion(b, k, t) && b.hhdm % 0x1000 == 0
  {
    PageMask(b.regions[k].base);
    RegionBase(b.regions[k].base, n, t);
    GigIsPages(b.hhdm);
  }

  lemma RegionBase(base: nat, n: nat, t: nat)
    requires t == n - n % 0x1000 && base - base % 0x1000 <= n && n >= FOUR_GIG
    ensures base - base % 0x1000 <= t && t >= FOUR_GIG && t % 0x1000 == 0
  {
  }

  lemma ImageAt(b: Info, i: Word, virtual_x: Word, physical_x: Word, v: Word, f: Word)
    requires Consistent(b) && i % 0x1000 == 0 && i < b.size && CanonicalNumber(virtual_x)
    requires v == Add64(b.virtual_base, i) && v / 0x1000 == virtual_x / 0x1000
    requires f == Add64(b.physical_base, i) && f / 0x1000 == physical_x / 0x1000
    requires f % 0x1000 == 0 && virtual_x % 0x1000 == physical_x % 0x1000
    ensures Wanted(b, Bits(virtual_x)) == Some(Bits(physical_x))
  {
    CanonicalBits(virtual_x);
    SamePageNumbers(v, virtual_x);
    ImagePages(b, i, Bits(virtual_x));
    RejoinPage(f, physical_x, virtual_x);
  }

  /** And every address of the kernel image goes to its load address. */
  lemma ImageAddresses(b: Info, limit: nat, x: nat)
    requires Windows(b, limit) && x < b.size
    ensures b.virtual_base + x < WORD && b.physical_base + x < WORD
    ensures Wanted(b, Bits(b.virtual_base + x)) == Some(Bits(b.physical_base + x))
  {
    WindowsAreConsistent(b, limit);
    var i := x - x % 0x1000;
    assert x < ImageEnd(b);
    PageParts(b.virtual_base, x, i);
    PageParts(b.physical_base, x, i);
    AlignedSum(b.physical_base, i);
    ImageAt(b, i, b.virtual_base + x, b.physical_base + x, b.virtual_base + i, b.physical_base + i);
  }
}
