/**
 Building the kernel's address space at boot.
 */
module Boot {
  import opened Options
  import opened PageEntry
  import opened PageTables
  import opened AddressSpaces
  import opened Pagemap
  import opened PagemapLife
  import opened HugePages
  import opened BootSpace
  import opened Paging
  import opened Numbers
  import opened BitMath
  import opened Words
  import PagemapRun

  datatype Region = Region(base: Word, length: Word, framebuffer: bool)

  /** What the boot loader reports: the direct-map offset, the memory map, and where the kernel image lies. */
  datatype Info = Info(hhdm: Word, regions: seq<Region>, virtual_base: Word, physical_base: Word, size: Word)

  /** One call of `map`: a gigabyte or a 4 KiB page. */
  datatype Request = Request(va: bv64, pa: bv64, giant: bool)

  const GIG: nat := 0x4000_0000
  const FOUR_GIG: nat := 0x1_0000_0000

  /** `tohh`: addresses in the upper half stay. */
  function ToHigh(hhdm: Word, a: Word): Word { if a >= hhdm then a else Add64(a, hhdm) }

  /** `fromhh`. */
  function FromHigh(hhdm: Word, a: Word): Word { if a >= hhdm then a - hhdm else a }

  /** The two are inverse on physical addresses exactly when the sum does not wrap. */
  lemma HighRoundTrip(hhdm: Word, a: Word)
    requires a < hhdm
    ensures FromHigh(hhdm, ToHigh(hhdm, a)) == a <==> a + hhdm < WORD
  {
  }

  // ---------------------------------------------------------------------------------------------
  // The mappings asked for
  // ---------------------------------------------------------------------------------------------

  /** Physical address `t` at its identity or its direct-map address. */
  predicate Direct(b: Info, r: Request, t: Word) {
    r.pa == Bits(t) && (r.va == Bits(t) || r.va == Bits(ToHigh(b.hhdm, t)))
  }

  /** The gigabytes below `end`. */
  ghost predicate GigAsked(b: Info, r: Request, end: nat) {
    r.giant && exists t: Word :: t % 0x4000_0000 == 0 && t < end && Direct(b, r, t)
  }

  function Top(region: Region): nat { AlignUp(Add64(region.base, region.length), 0x1000) }

  /** The pages of a region below `end`, except those in the first 4 GiB. */
  ghost predicate PageAsked(b: Info, region: Region, r: Request, end: nat) {
    !r.giant && exists t: Word ::
      t % 0x1000 == 0 && AlignDown(region.base, 0x1000) <= t < end && t >= FOUR_GIG && Direct(b, r, t)
  }

  predicate ImagePage(b: Info, i: Word, r: Request) {
    r == Request(Bits(Add64(b.virtual_base, i)), Bits(Add64(b.physical_base, i)), false)
  }

  ghost predicate ImageAsked(b: Info, r: Request, end: nat) {
    exists i: Word :: i % 0x1000 == 0 && i < end && ImagePage(b, i, r)
  }

  ghost predicate RegionsAsked(b: Info, r: Request, n: nat)
    requires n <= |b.regions|
  {
    exists k :: 0 <= k < n && PageAsked(b, b.regions[k], r, Top(b.regions[k]))
  }

  ghost predicate Asked(b: Info, r: Request) {
    GigAsked(b, r, FOUR_GIG) || RegionsAsked(b, r, |b.regions|) || ImageAsked(b, r, b.size)
  }

  predicate Covers(r: Request, w: bv64) {
    Canonical(w) && if r.giant then SameGig(r.va, w) else PagemapRun.SamePage(r.va, w)
  }

  function Target(r: Request, w: bv64): bv64 { if r.giant then r.pa | (w & 0x3FFF_FFFF) else r.pa | (w & 0xFFF) }

  predicate Sensible(r: Request) {
    Canonical(r.va) && IsFrame(r.pa) && (r.giant ==> GigAligned(r.va) && GigAligned(r.pa))
  }

  /** The windows are aligned, and where two of them meet they agree. */
  ghost predicate Consistent(b: Info) {
    && (forall r :: Asked(b, r) ==> Sensible(r))
    && (forall r, s, w {:trigger Covers(r, w), Covers(s, w)} ::
          Asked(b, r) && Asked(b, s) && Covers(r, w) && Covers(s, w) ==> Target(r, w) == Target(s, w) && r.giant == s.giant)
    && b.size <= WORD - 0x1000
  }

  /** Where an address should go: to the target of the request that covers it. */
  ghost function Wanted(b: Info, w: bv64): Option<bv64> {
    if exists r :: Asked(b, r) && Covers(r, w) then
      var r :| Asked(b, r) && Covers(r, w);
      Some(Target(r, w))
    else None
  }

  ghost predicate InGiant(b: Info, w: bv64) { exists r :: Asked(b, r) && Covers(r, w) && r.giant }

  ghost function PlanOf(b: Info): Plan { Plan(w => Wanted(b, w), w => InGiant(b, w)) }

  lemma WantedIsTarget(b: Info, r: Request, w: bv64)
    requires Consistent(b) && Asked(b, r) && Covers(r, w)
    ensures Wanted(b, w) == Some(Target(r, w)) && (InGiant(b, w) <==> r.giant)
  {
  }

  ghost predicate Planned(plan: Plan, r: Request) {
    if r.giant then GigPlanned(plan, r.va, r.pa) else PagePlanned(plan, r.va, r.pa)
  }

  lemma CoveredIsPlanned(plan: Plan, r: Request)
    requires Sensible(r)
    requires forall w {:trigger Covers(r, w)} :: Covers(r, w) ==> plan.want(w) == Some(Target(r, w)) && (plan.large(w) <==> r.giant)
    ensures Planned(plan, r)
  {
    assert Covers(r, r.va);
    if r.giant { GiantIsPlanned(plan, r); } else { PageIsPlanned(plan, r); }
  }

  lemma GiantIsPlanned(plan: Plan, r: Request)
    requires Sensible(r) && r.giant
    requires forall w {:trigger Covers(r, w)} :: Covers(r, w) ==> plan.want(w) == Some(Target(r, w)) && plan.large(w)
    ensures GigPlanned(plan, r.va, r.pa)
  {
    forall w | Canonical(w) && SameGig(r.va, w) ensures plan.want(w) == Some(r.pa | (w & 0x3FFF_FFFF)) && plan.large(w) {
      assert Covers(r, w);
    }
  }

  lemma PageIsPlanned(plan: Plan, r: Request)
    requires Sensible(r) && !r.giant && Covers(r, r.va)
    requires forall w {:trigger Covers(r, w)} :: Covers(r, w) ==> plan.want(w) == Some(Target(r, w)) && !plan.large(w)
    ensures PagePlanned(plan, r.va, r.pa)
  {
    forall w | Canonical(w) && PagemapRun.SamePage(r.va, w) ensures plan.want(w) == Some(r.pa | (w & 0xFFF)) {
      assert Covers(r, w);
    }
  }

  lemma AskedIsPlanned(b: Info, r: Request)
    requires Consistent(b) && Asked(b, r)
    ensures Planned(PlanOf(b), r)
  {
    forall w | Covers(r, w) ensures PlanOf(b).want(w) == Some(Target(r, w)) && (PlanOf(b).large(w) <==> r.giant) {
      WantedIsTarget(b, r, w);
    }
    CoveredIsPlanned(PlanOf(b), r);
  }

  // ---------------------------------------------------------------------------------------------
  // The mappings made
  // ---------------------------------------------------------------------------------------------

  ghost predicate Placed(m: Memory, k: Table, plan: Plan, r: Request) {
    forall w {:trigger Translate(m, k, w)} :: Covers(r, w) ==> Mapped(m, k, plan, w)
  }

  ghost predicate AllPlaced(m: Memory, k: Table, plan: Plan, done: iset<Request>) {
    forall r :: r in done ==> Placed(m, k, plan, r)
  }

  lemma KeptPlaced(m: Memory, n: Memory, k: Table, plan: Plan, done: iset<Request>)
    requires AllPlaced(m, k, plan, done) && Kept(m, n, k, plan)
    ensures AllPlaced(n, k, plan, done)
  {
    forall r, w | r in done && Covers(r, w) ensures Mapped(n, k, plan, w) {
      var _, _ := Translate(m, k, w), Translate(n, k, w);
      assert Placed(m, k, plan, r);
    }
  }

  ghost predicate Answered(h: Heap, k: Table, r: Request, o: Outcome<bool>, plan: Plan, now: Places) {
    o.Ret? ==>
      o.value && Booting(o.heap, now, k, plan) && Kept(h.mem, o.heap.mem, k, plan) && Placed(o.heap.mem, k, plan, r)
  }

  lemma AskGig(h: Heap, place: Places, k: Table, r: Request, flags: bv64, cache: Caching, plan: Plan) returns (now: Places)
    requires Booting(h, place, k, plan) && r.giant && LLPage(flags) && GigPlanned(plan, r.va, r.pa)
    ensures Answered(h, k, r, MapPage(h, k, r.va, r.pa, flags, cache), plan, now)
  {
    now := GigStep(h, place, k, r.va, r.pa, flags, cache, plan);
    var o := MapPage(h, k, r.va, r.pa, flags, cache);
    if o.Ret? {
      forall w | Covers(r, w) ensures Mapped(o.heap.mem, k, plan, w) { var _ := Translate(o.heap.mem, k, w); }
      assert Placed(o.heap.mem, k, plan, r);
    }
  }

  lemma AskPage(h: Heap, place: Places, k: Table, r: Request, flags: bv64, cache: Caching, plan: Plan) returns (now: Places)
    requires Booting(h, place, k, plan) && !r.giant && SizeOf(flags).Small? && PagePlanned(plan, r.va, r.pa)
    ensures Answered(h, k, r, MapPage(h, k, r.va, r.pa, flags, cache), plan, now)
  {
    now := PageStep(h, place, k, r.va, r.pa, flags, cache, plan);
    var o := MapPage(h, k, r.va, r.pa, flags, cache);
    if o.Ret? {
      forall w | Covers(r, w) ensures Mapped(o.heap.mem, k, plan, w) { var _ := Translate(o.heap.mem, k, w); }
      assert Placed(o.heap.mem, k, plan, r);
    }
  }

  lemma AskStep(h: Heap, place: Places, k: Table, r: Request, flags: bv64, cache: Caching, plan: Plan, done: iset<Request>)
    returns (now: Places)
    requires Booting(h, place, k, plan) && AllPlaced(h.mem, k, plan, done) && Planned(plan, r)
    requires if r.giant then LLPage(flags) else SizeOf(flags).Small?
    ensures var o := MapPage(h, k, r.va, r.pa, flags, cache);
            o.Ret? ==>
              o.value && Booting(o.heap, now, k, plan) && AllPlaced(o.heap.mem, k, plan, done + iset{r})
  {
    if r.giant { now := AskGig(h, place, k, r, flags, cache, plan); } else { now := AskPage(h, place, k, r, flags, cache, plan); }
    var o := MapPage(h, k, r.va, r.pa, flags, cache);
    if o.Ret? { KeptPlaced(h.mem, o.heap.mem, k, plan, done); }
  }

  /** `assert(map(…))`: the macro evaluates its argument twice. */
  method Ask(p: PageMemory, k: Table, r: Request, flags: bv64, cache: Caching,
             ghost place: Places, ghost plan: Plan, ghost done: iset<Request>)
    returns (out: Reply<()>, ghost now: Places)
    requires Booting(p.H(), place, k, plan) && AllPlaced(p.H().mem, k, plan, done) && Planned(plan, r)
    requires if r.giant then LLPage(flags) else SizeOf(flags).Small?
    modifies p`cells, p`tables, p`pool
    ensures out.Done? ==> Booting(p.H(), now, k, plan) && AllPlaced(p.H().mem, k, plan, done + iset{r})
  {
    now := AskStep(p.H(), place, k, r, flags, cache, plan, done);
    var first := p.Map(k, r.va, r.pa, flags, cache);
    if first.Halted? || !first.value { return Halted, now; }
    now := AskStep(p.H(), now, k, r, flags, cache, plan, done + iset{r});
    assert done + iset{r} + iset{r} == done + iset{r};
    var second := p.Map(k, r.va, r.pa, flags, cache);
    if second.Halted? { return Halted, now; }
    out := Done(());
  }

  // ---------------------------------------------------------------------------------------------
  // paging::init
  // ---------------------------------------------------------------------------------------------

  /** `required_size`: the page size for a range, and its flag. */
  function RequiredSize(size: nat): (nat, bv64) {
    if size >= GIG then (GIG, 64) else if size >= 0x20_0000 then (0x20_0000, 32) else (0x1000, 0)
  }

  /** The state of the boot sequence: the plan is kept, and the requests in `done` are placed. */
  ghost predicate Underway(p: PageMemory, place: Places, k: Table, b: Info, done: iset<Request>)
    reads p
  {
    Booting(p.H(), place, k, PlanOf(b)) && AllPlaced(p.H().mem, k, PlanOf(b), done)
  }

  ghost predicate DirectDone(b: Info, t: Word, giant: bool, done: iset<Request>) {
    forall r: Request :: r.giant == giant && Direct(b, r, t) ==> r in done
  }

  ghost predicate GigsDone(b: Info, end: nat, done: iset<Request>) { forall r :: GigAsked(b, r, end) ==> r in done }

  ghost predicate PagesDone(b: Info, region: Region, end: nat, done: iset<Request>) {
    forall r :: PageAsked(b, region, r, end) ==> r in done
  }

  ghost predicate RegionsDone(b: Info, n: nat, done: iset<Request>)
    requires n <= |b.regions|
  {
    forall r :: RegionsAsked(b, r, n) ==> r in done
  }

  ghost predicate ImageDone(b: Info, end: nat, done: iset<Request>) { forall r :: ImageAsked(b, r, end) ==> r in done }

  lemma NoGigBetween(t: nat, i: nat)
    requires t % 0x4000_0000 == 0 && i % 0x4000_0000 == 0 && t < i + 0x4000_0000
    ensures t <= i
  {
  }

  lemma NextGig(b: Info, i: Word, done: iset<Request>, more: iset<Request>)
    requires i % 0x4000_0000 == 0 && GigsDone(b, i, done) && done <= more && DirectDone(b, i, true, more)
    ensures GigsDone(b, i + 0x4000_0000, more)
  {
    forall r | GigAsked(b, r, i + 0x4000_0000) ensures r in more {
      var t: Word :| t % 0x4000_0000 == 0 && t < i + 0x4000_0000 && Direct(b, r, t);
      GigSplit(b, r, i, t);
    }
  }

  lemma GigSplit(b: Info, r: Request, i: Word, t: Word)
    requires i % 0x4000_0000 == 0 && t % 0x4000_0000 == 0 && t < i + 0x4000_0000 && r.giant && Direct(b, r, t)
    ensures GigAsked(b, r, i) || Direct(b, r, i)
  {
    NoGigBetween(t, i);
    if t != i { assert GigAsked(b, r, i); }
  }

  lemma NoPageBetween(u: nat, t: nat)
    requires u % 0x1000 == 0 && t % 0x1000 == 0 && u < t + 0x1000
    ensures u <= t
  {
  }

  lemma NextPage(b: Info, region: Region, t: Word, done: iset<Request>, more: iset<Request>)
    requires t % 0x1000 == 0 && PagesDone(b, region, t, done) && done <= more
    requires t >= FOUR_GIG ==> DirectDone(b, t, false, more)
    ensures PagesDone(b, region, t + 0x1000, more)
  {
    forall r | PageAsked(b, region, r, t + 0x1000) ensures r in more {
      var u: Word :| u % 0x1000 == 0 && AlignDown(region.base, 0x1000) <= u < t + 0x1000 && u >= FOUR_GIG && Direct(b, r, u);
      NoPageBetween(u, t);
      if u < t { assert PageAsked(b, region, r, t); }
    }
  }

  lemma NextImagePage(b: Info, i: Word, done: iset<Request>, r: Request)
    requires i % 0x1000 == 0 && ImageDone(b, i, done) && ImagePage(b, i, r)
    ensures ImageDone(b, i + 0x1000, done + iset{r})
  {
    forall q | ImageAsked(b, q, i + 0x1000) ensures q in done + iset{r} {
      var j: Word :| j % 0x1000 == 0 && j < i + 0x1000 && ImagePage(b, j, q);
      NoPageBetween(j, i);
      if j < i { assert ImageAsked(b, q, i); }
    }
  }

  lemma NextRegion(b: Info, n: nat, done: iset<Request>, more: iset<Request>)
    requires n < |b.regions| && RegionsDone(b, n, done) && done <= more
    requires PagesDone(b, b.regions[n], Top(b.regions[n]), more)
    ensures RegionsDone(b, n + 1, more)
  {
    forall r | RegionsAsked(b, r, n + 1) ensures r in more {
      var k :| 0 <= k < n + 1 && PageAsked(b, b.regions[k], r, Top(b.regions[k]));
      if k < n { assert RegionsAsked(b, r, n); }
    }
  }

  lemma DirectPlanned(b: Info, t: Word, giant: bool)
    requires Consistent(b) && forall r: Request :: r.giant == giant && Direct(b, r, t) ==> Asked(b, r)
    ensures Planned(PlanOf(b), Request(Bits(t), Bits(t), giant))
    ensures Planned(PlanOf(b), Request(Bits(ToHigh(b.hhdm, t)), Bits(t), giant))
  {
    var low, high := Request(Bits(t), Bits(t), giant), Request(Bits(ToHigh(b.hhdm, t)), Bits(t), giant);
    assert Direct(b, low, t) && Direct(b, high, t);
    AskedIsPlanned(b, low);
    AskedIsPlanned(b, high);
  }

  /** The address `t` at both its places. */
  method AskDirect(p: PageMemory, k: Table, b: Info, t: Word, giant: bool, low_flags: bv64, high_flags: bv64, cache: Caching,
                   ghost place: Places, ghost done: iset<Request>)
    returns (out: Reply<()>, ghost now: Places, ghost more: iset<Request>)
    requires Underway(p, place, k, b, done) && Consistent(b)
    requires forall r: Request :: r.giant == giant && Direct(b, r, t) ==> Asked(b, r)
    requires if giant then LLPage(low_flags) && LLPage(high_flags) else SizeOf(low_flags).Small? && SizeOf(high_flags).Small?
    modifies p`cells, p`tables, p`pool
    ensures out.Done? ==> Underway(p, now, k, b, more) && done <= more && DirectDone(b, t, giant, more)
  {
    DirectPlanned(b, t, giant);
    var low := Request(Bits(t), Bits(t), giant);
    var high := Request(Bits(ToHigh(b.hhdm, t)), Bits(t), giant);
    more := done + iset{low} + iset{high};
    out, now := Ask(p, k, low, low_flags, cache, place, PlanOf(b), done);
    if out.Halted? { return; }
    out, now := Ask(p, k, high, high_flags, cache, now, PlanOf(b), done + iset{low});
  }

  lemma GigIsAsked(b: Info, i: Word)
    requires i % 0x4000_0000 == 0 && i < FOUR_GIG
    ensures forall r: Request :: r.giant && Direct(b, r, i) ==> Asked(b, r)
  {
    forall r: Request | r.giant && Direct(b, r, i) ensures Asked(b, r) { assert GigAsked(b, r, FOUR_GIG); }
  }

  lemma PageIsAsked(b: Info, n: nat, t: Word)
    requires n < |b.regions| && t % 0x1000 == 0 && AlignDown(b.regions[n].base, 0x1000) <= t < Top(b.regions[n]) && t >= FOUR_GIG
    ensures forall r: Request :: !r.giant && Direct(b, r, t) ==> Asked(b, r)
  {
    forall r: Request | !r.giant && Direct(b, r, t) ensures Asked(b, r) {
      assert PageAsked(b, b.regions[n], r, Top(b.regions[n]));
      assert RegionsAsked(b, r, |b.regions|);
    }
  }

  lemma ImageIsAsked(b: Info, i: Word, r: Request)
    requires Consistent(b) && i % 0x1000 == 0 && i < b.size && ImagePage(b, i, r)
    ensures Planned(PlanOf(b), r) && !r.giant
  {
    assert ImageAsked(b, r, b.size);
    AskedIsPlanned(b, r);
  }

  lemma FlagSizes(flags: bv64)
    ensures flags == 64 ==> LLPage(7 | flags) && LLPage(3 | flags)
    ensures SizeOf(7).Small? && SizeOf(3).Small?
  {
  }

  /** The first 4 GiB, gigabyte by gigabyte. */
  method MapLow(p: PageMemory, k: Table, b: Info, ghost place: Places)
    returns (out: Reply<()>, ghost now: Places, ghost done: iset<Request>)
    requires Underway(p, place, k, b, iset{}) && Consistent(b)
    modifies p`cells, p`tables, p`pool
    ensures out.Done? ==> Underway(p, now, k, b, done) && GigsDone(b, FOUR_GIG, done)
  {
    var (page_size, flags) := RequiredSize(FOUR_GIG);
    FlagSizes(flags);
    var i := 0;
    now, done := place, iset{};
    out := Done(());
    while i < FOUR_GIG
      invariant i % 0x4000_0000 == 0 && i <= FOUR_GIG && out.Done?
      invariant Underway(p, now, k, b, done) && GigsDone(b, i, done)
    {
      GigIsAsked(b, i);
      ghost var before := done;
      out, now, done := AskDirect(p, k, b, i, true, 7 | flags, 3 | flags, WriteBack, now, done);
      if out.Halted? { return; }
      NextGig(b, i, before, done);
      i := i + page_size;
    }
  }

  /** One page of a region, unless it lies in the first 4 GiB. */
  method MapRegionPage(p: PageMemory, k: Table, b: Info, n: nat, t: Word, cache: Caching, ghost place: Places, ghost before: iset<Request>)
    returns (out: Reply<()>, ghost now: Places, ghost done: iset<Request>)
    requires n < |b.regions| && Underway(p, place, k, b, before) && Consistent(b)
    requires t % 0x1000 == 0 && AlignDown(b.regions[n].base, 0x1000) <= t < Top(b.regions[n])
    requires PagesDone(b, b.regions[n], t, before)
    modifies p`cells, p`tables, p`pool
    ensures out.Done? ==> Underway(p, now, k, b, done) && before <= done && PagesDone(b, b.regions[n], t + 0x1000, done)
  {
    now, done, out := place, before, Done(());
    if t >= FOUR_GIG {
      PageIsAsked(b, n, t);
      FlagSizes(0);
      out, now, done := AskDirect(p, k, b, t, false, 7, 3, cache, place, before);
      if out.Halted? { return; }
    }
    NextPage(b, b.regions[n], t, before, done);
  }

  lemma DownIsAligned(n: nat)
    ensures AlignDown(n, 0x1000) % 0x1000 == 0 && AlignDown(n, 0x1000) <= n
  {
    PageMask(n);
    RemainderGone(n, 0x1000);
  }

  /** A region's pages start and end on page boundaries. */
  lemma RegionEnds(region: Region)
    ensures AlignDown(region.base, 0x1000) % 0x1000 == 0 && Top(region) % 0x1000 == 0 && Top(region) < WORD
  {
    DownIsAligned(region.base);
    DownIsAligned(Add64(Add64(region.base, region.length), 0xFFF));
  }

  /** One region of the memory map, page by page. */
  method MapRegion(p: PageMemory, k: Table, b: Info, n: nat, ghost place: Places, ghost before: iset<Request>)
    returns (out: Reply<()>, ghost now: Places, ghost done: iset<Request>)
    requires n < |b.regions| && Underway(p, place, k, b, before) && Consistent(b)
    modifies p`cells, p`tables, p`pool
    ensures out.Done? ==> Underway(p, now, k, b, done) && before <= done && PagesDone(b, b.regions[n], Top(b.regions[n]), done)
  {
    var region := b.regions[n];
    var base := AlignDown(region.base, 0x1000);
    var top := AlignUp(Add64(region.base, region.length), 0x1000);
    RegionEnds(region);
    now, done, out := place, before, Done(());
    if top < FOUR_GIG { return; }
    var cache := if region.framebuffer then WriteCombining else WriteBack;
    var t := base;
    while t < top
      invariant t % 0x1000 == 0 && t >= base && out.Done? && before <= done
      invariant Underway(p, now, k, b, done) && PagesDone(b, region, t, done)
    {
      out, now, done := MapRegionPage(p, k, b, n, t, cache, now, done);
      if out.Halted? { return; }
      NextPageAligned(t);
      t := t + 0x1000;
    }
  }

  /** The kernel image, page by page. */
  method MapImage(p: PageMemory, k: Table, b: Info, ghost place: Places, ghost before: iset<Request>)
    returns (out: Reply<()>, ghost now: Places, ghost done: iset<Request>)
    requires Underway(p, place, k, b, before) && Consistent(b)
    modifies p`cells, p`tables, p`pool
    ensures out.Done? ==> Underway(p, now, k, b, done) && before <= done && ImageDone(b, b.size, done)
  {
    now, done, out := place, before, Done(());
    FlagSizes(0);
    var i := 0;
    while i < b.size
      invariant i % 0x1000 == 0 && out.Done? && before <= done
      invariant Underway(p, now, k, b, done) && ImageDone(b, i, done)
    {
      var r := Request(Bits(Add64(b.virtual_base, i)), Bits(Add64(b.physical_base, i)), false);
      ImageIsAsked(b, i, r);
      out, now := Ask(p, k, r, 7, WriteBack, now, PlanOf(b), done);
      if out.Halted? { return; }
      NextImagePage(b, i, done, r);
      done := done + iset{r};
      NextPageAligned(i);
      i := i + 0x1000;
    }
  }

  lemma AllAsked(b: Info, done: iset<Request>)
    requires GigsDone(b, FOUR_GIG, done) && RegionsDone(b, |b.regions|, done) && ImageDone(b, b.size, done)
    ensures forall r :: Asked(b, r) ==> r in done
  {
  }

  /** With everything asked for in place, each address goes exactly where the requests send it. */
  lemma BootComplete(m: Memory, k: Table, b: Info, done: iset<Request>, w: bv64)
    requires Consistent(b) && AllPlaced(m, k, PlanOf(b), done) && OnPlan(m, k, PlanOf(b), w)
    requires forall r :: Asked(b, r) ==> r in done
    ensures Translate(m, k, w) == Wanted(b, w)
  {
    if r :| Asked(b, r) && Covers(r, w) {
      assert Placed(m, k, PlanOf(b), r);
      var _ := Translate(m, k, w);
    }
  }

  /** Nothing is mapped yet. */
  lemma BootStarts(h: Heap, place: Places, k: Table, b: Info)
    requires Inv(h, place, {k})
    requires forall path {:trigger HwWalk(h.mem, k, path)} :: IsPath(path) ==> HwWalk(h.mem, k, path) == NotMapped
    ensures Booting(h, place, k, PlanOf(b))
  {
    forall w ensures OnPlan(h.mem, k, PlanOf(b), w) {
      IndexSmall(w);
    }
  }

  /** `paging::init`: when it returns, every address translates exactly as asked. */
  method Init(p: PageMemory, b: Info, ghost place: Places) returns (out: Reply<Table>, ghost now: Places)
    requires Inv(p.H(), place, {}) && p.kernel == None && Consistent(b)
    modifies p
    ensures out.Done? ==> p.kernel == Some(out.value) && Inv(p.H(), now, {out.value})
    ensures out.Done? ==> forall w :: Translate(p.H().mem, out.value, w) == Wanted(b, w)
    ensures out.Done? ==> PagemapRun.Refines(p.H(), now, out.value, PagemapRun.Reading(p.H().mem, out.value))
  {
    now := place;
    if p.pool != [] {
      FirstPagemap(p.H(), place);
      now := PlacesNew(p.H(), place, None);
    }
    out := p.NewPagemap();
    if out.Halted? { return; }
    var k := out.value;
    p.kernel := Some(k);
    BootStarts(p.H(), now, k, b);
    ghost var done: iset<Request>;
    var step: Reply<()>;
    step, now, done := MapLow(p, k, b, now);
    if step.Halted? { return Halted, now; }
    var n := 0;
    while n < |b.regions|
      invariant n <= |b.regions| && p.kernel == Some(k) && Underway(p, now, k, b, done)
      invariant GigsDone(b, FOUR_GIG, done) && RegionsDone(b, n, done)
    {
      ghost var before := done;
      step, now, done := MapRegion(p, k, b, n, now, done);
      if step.Halted? { return Halted, now; }
      NextRegion(b, n, before, done);
      n := n + 1;
    }
    step, now, done := MapImage(p, k, b, now, done);
    if step.Halted? { return Halted, now; }
    AllAsked(b, done);
    forall w ensures Translate(p.H().mem, k, w) == Wanted(b, w) {
      var _ := Translate(p.H().mem, k, w);
      assert OnPlan(p.H().mem, k, PlanOf(b), w);
      BootComplete(p.H().mem, k, b, done, w);
    }
    PagemapRun.ReadingRefines(p.H(), now, k);
  }

  // ---------------------------------------------------------------------------------------------
  // What the boot address space gives
  // ---------------------------------------------------------------------------------------------

  lemma RequestGives(b: Info, r: Request, w: bv64)
    requires Consistent(b) && Asked(b, r)
    ensures Covers(r, w) ==> Wanted(b, w) == Some(Target(r, w))
    ensures Sensible(r) && (Covers(r, w) && r.va == r.pa ==> Wanted(b, w) == Some(w))
  {
    if Covers(r, w) {
      WantedIsTarget(b, r, w);
      if r.va == r.pa { Rejoins(r, w); }
    }
  }

  lemma Rejoins(r: Request, w: bv64)
    requires Sensible(r) && Covers(r, w) && r.va == r.pa
    ensures Target(r, w) == w
  {
    assert r == Request(r.pa, r.pa, r.giant);
    RejoinsAt(r.pa, r.giant, w);
  }

  lemma RejoinsAt(pa: bv64, giant: bool, w: bv64)
    requires IsFrame(pa) && (giant ==> GigAligned(pa)) && Covers(Request(pa, pa, giant), w)
    ensures Target(Request(pa, pa, giant), w) == w
  {
    if giant {
      GigRejoins(pa, w);
    } else {
      FrameAligned(pa);
      PageRejoins(pa, w);
    }
  }

  /** Each gigabyte below 4 GiB, at the identity and at its direct-map address. */
  lemma LowGigabytes(b: Info, t: Word, w: bv64)
    requires Consistent(b) && t % 0x4000_0000 == 0 && t < FOUR_GIG && Canonical(w)
    ensures SameGig(Bits(t), w) ==> Wanted(b, w) == Some(w)
    ensures SameGig(Bits(ToHigh(b.hhdm, t)), w) ==> Wanted(b, w) == Some(Bits(t) | (w & 0x3FFF_FFFF))
  {
    GigIsAsked(b, t);
    DirectGives(b, t, true, w);
  }

  lemma DirectGives(b: Info, t: Word, giant: bool, w: bv64)
    requires Consistent(b) && forall r: Request :: r.giant == giant && Direct(b, r, t) ==> Asked(b, r)
    ensures Covers(Request(Bits(t), Bits(t), giant), w) ==> Wanted(b, w) == Some(w)
    ensures var high := Request(Bits(ToHigh(b.hhdm, t)), Bits(t), giant);
            Covers(high, w) ==> Wanted(b, w) == Some(Target(high, w))
  {
    var low, high := Request(Bits(t), Bits(t), giant), Request(Bits(ToHigh(b.hhdm, t)), Bits(t), giant);
    assert Direct(b, low, t) && Direct(b, high, t);
    RequestGives(b, low, w);
    RequestGives(b, high, w);
  }

  lemma GigRejoins(t: bv64, w: bv64)
    requires GigAligned(t) && SameGig(t, w)
    ensures t | (w & 0x3FFF_FFFF) == w
  {
  }

  lemma PageRejoins(t: bv64, w: bv64)
    requires t & 0xFFF == 0 && PagemapRun.SamePage(t, w)
    ensures t | (w & 0xFFF) == w
  {
  }

  lemma FrameAligned(t: bv64)
    requires IsFrame(t)
    ensures t & 0xFFF == 0
  {
  }

  /** Each memory-map page above 4 GiB, at the identity and at its direct-map address. */
  lemma RegionPages(b: Info, n: nat, t: Word, w: bv64)
    requires Consistent(b) && n < |b.regions| && Canonical(w)
    requires t % 0x1000 == 0 && AlignDown(b.regions[n].base, 0x1000) <= t < Top(b.regions[n]) && t >= FOUR_GIG
    ensures PagemapRun.SamePage(Bits(t), w) ==> Wanted(b, w) == Some(w)
    ensures PagemapRun.SamePage(Bits(ToHigh(b.hhdm, t)), w) ==> Wanted(b, w) == Some(Bits(t) | (w & 0xFFF))
  {
    PageIsAsked(b, n, t);
    DirectGives(b, t, false, w);
  }

  /** Each page of the kernel image. */
  lemma ImagePages(b: Info, i: Word, w: bv64)
    requires Consistent(b) && i % 0x1000 == 0 && i < b.size && Canonical(w)
    requires PagemapRun.SamePage(Bits(Add64(b.virtual_base, i)), w)
    ensures Wanted(b, w) == Some(Bits(Add64(b.physical_base, i)) | (w & 0xFFF))
  {
    var r := Request(Bits(Add64(b.virtual_base, i)), Bits(Add64(b.physical_base, i)), false);
    assert ImagePage(b, i, r);
    assert ImageAsked(b, r, b.size);
    assert Covers(r, w);
    WantedIsTarget(b, r, w);
  }

  /** Every address below 4 GiB translates to itself. */
  lemma LowIdentity(b: Info, w: bv64)
    requires Consistent(b) && w < 0x1_0000_0000
    ensures Wanted(b, w) == Some(w)
  {
    GigBits();
    assert SameGig(0, w) || SameGig(0x4000_0000, w) || SameGig(0x8000_0000, w) || SameGig(0xC000_0000, w);
    LowGigabytes(b, 0, w);
    LowGigabytes(b, 0x4000_0000, w);
    LowGigabytes(b, 0x8000_0000, w);
    LowGigabytes(b, 0xC000_0000, w);
  }
}
