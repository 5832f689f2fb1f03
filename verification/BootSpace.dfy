/**
 What each mapping of the boot sequence keeps: whatever is mapped is mapped where it should be, and
 stays mapped.
 */
module BootSpace {
  import opened Options
  import opened PageEntry
  import opened PageTables
  import opened AddressSpaces
  import opened Pagemap
  import opened HugePages
  import PagemapRun

  /** The plan of the boot sequence: where each address should go, if anywhere, and which may lie in large pages. */
  datatype Plan = Plan(want: bv64 -> Option<bv64>, large: bv64 -> bool)

  /** Everything mapped so far is mapped as planned. */
  predicate OnPlan(m: Memory, k: Table, plan: Plan, w: bv64) {
    Canonical(w) ==>
      && (Translate(m, k, w) == None || Translate(m, k, w) == plan.want(w))
      && (IsLarge(HwWalk(m, k, PathOf(w))) ==> plan.large(w))
  }

  ghost predicate Booting(h: Heap, place: Places, k: Table, plan: Plan) {
    Inv(h, place, {k}) && forall w {:trigger Translate(h.mem, k, w)} :: OnPlan(h.mem, k, plan, w)
  }

  predicate Mapped(m: Memory, k: Table, plan: Plan, w: bv64) { Translate(m, k, w) == plan.want(w) }

  ghost predicate Kept(m: Memory, n: Memory, k: Table, plan: Plan) {
    forall w {:trigger Translate(n, k, w)} :: Mapped(m, k, plan, w) ==> Mapped(n, k, plan, w)
  }

  ghost predicate GigPlanned(plan: Plan, va: bv64, pa: bv64) {
    && Canonical(va) && GigAligned(va) && GigAligned(pa) && IsFrame(pa)
    && forall w {:trigger plan.want(w)} :: Canonical(w) && SameGig(va, w) ==> plan.want(w) == Some(pa | (w & 0x3FFF_FFFF)) && plan.large(w)
  }

  ghost predicate PagePlanned(plan: Plan, va: bv64, pa: bv64) {
    && Canonical(va) && IsFrame(pa) && !plan.large(va)
    && forall w {:trigger plan.want(w)} :: Canonical(w) && PagemapRun.SamePage(va, w) ==> plan.want(w) == Some(pa | (w & 0xFFF))
  }

  /** `map` of a planned gigabyte, once or again. */
  lemma GigStep(h: Heap, place: Places, k: Table, va: bv64, pa: bv64, flags: bv64, cache: Caching, plan: Plan)
    returns (now: Places)
    requires Booting(h, place, k, plan) && LLPage(flags) && GigPlanned(plan, va, pa)
    ensures var r := MapPage(h, k, va, pa, flags, cache);
            r.Ret? ==>
              && r.value && Booting(r.heap, now, k, plan) && Kept(h.mem, r.heap.mem, k, plan)
              && forall w {:trigger Translate(r.heap.mem, k, w)} :: Canonical(w) && SameGig(va, w) ==> Mapped(r.heap.mem, k, plan, w)
  {
    now := HugeMapped(h, place, {k}, k, va, pa, flags, cache);
    var r := MapPage(h, k, va, pa, flags, cache);
    if r.Ret? {
      forall w
        ensures OnPlan(r.heap.mem, k, plan, w) && (Mapped(h.mem, k, plan, w) ==> Mapped(r.heap.mem, k, plan, w))
        ensures Canonical(w) && SameGig(va, w) ==> Mapped(r.heap.mem, k, plan, w)
      {
        assert OnPlan(h.mem, k, plan, w) by { var _ := Translate(h.mem, k, w); }
        assert GigSeen(h.mem, r.heap.mem, k, va, pa, k, w) by { var _ := Translate(r.heap.mem, k, w); }
        GigOnPlan(h.mem, r.heap.mem, k, va, pa, plan, w);
      }
    }
  }

  lemma GigOnPlan(m: Memory, n: Memory, k: Table, va: bv64, pa: bv64, plan: Plan, w: bv64)
    requires GigPlanned(plan, va, pa) && OnPlan(m, k, plan, w) && GigSeen(m, n, k, va, pa, k, w)
    ensures OnPlan(n, k, plan, w) && (Mapped(m, k, plan, w) ==> Mapped(n, k, plan, w))
    ensures Canonical(w) && SameGig(va, w) ==> Mapped(n, k, plan, w)
  {
    var _ := plan.want(w);
  }

  /** `map` of a planned page. */
  lemma PageStep(h: Heap, place: Places, k: Table, va: bv64, pa: bv64, flags: bv64, cache: Caching, plan: Plan)
    returns (now: Places)
    requires Booting(h, place, k, plan) && SizeOf(flags).Small? && PagePlanned(plan, va, pa)
    ensures var r := MapPage(h, k, va, pa, flags, cache);
            r.Ret? ==>
              && r.value && Booting(r.heap, now, k, plan) && Kept(h.mem, r.heap.mem, k, plan)
              && forall w {:trigger Translate(r.heap.mem, k, w)} ::
                   Canonical(w) && PagemapRun.SamePage(va, w) ==> Mapped(r.heap.mem, k, plan, w)
  {
    PlannedIsClean(h, place, k, plan, va);
    var e := MapEffect(h, place, {k}, k, va, pa, flags, cache, Small);
    now := PlacesOf(h, place, k, PathOf(va));
    var r := MapPage(h, k, va, pa, flags, cache);
    if r.Ret? {
      var leaf := Leaf(1, MapEntry(e, pa, LeafFlags(flags, cache, false)));
      forall w
        ensures OnPlan(r.heap.mem, k, plan, w) && (Mapped(h.mem, k, plan, w) ==> Mapped(r.heap.mem, k, plan, w))
        ensures Canonical(w) && PagemapRun.SamePage(va, w) ==> Mapped(r.heap.mem, k, plan, w)
      {
        assert OnPlan(h.mem, k, plan, w) by { var _ := Translate(h.mem, k, w); }
        if Canonical(w) { PageSeen(h.mem, r.heap.mem, k, va, pa, leaf, plan, e, flags, cache, w); }
      }
    }
  }

  lemma PlannedIsClean(h: Heap, place: Places, k: Table, plan: Plan, va: bv64)
    requires Booting(h, place, k, plan) && Canonical(va) && !plan.large(va)
    ensures Clean(h.mem, k, PathOf(va))
  {
    var _ := Translate(h.mem, k, va);
    assert OnPlan(h.mem, k, plan, va);
    CleanIff(h, place, k, PathOf(va));
  }

  lemma PageSeen(m: Memory, n: Memory, k: Table, va: bv64, pa: bv64, leaf: Leaf, plan: Plan, e: bv64, flags: bv64, cache: Caching, w: bv64)
    requires Canonical(va) && Canonical(w) && IsFrame(pa)
    requires PagemapRun.SamePage(va, w) ==> plan.want(w) == Some(pa | (w & 0xFFF))
    requires leaf == Leaf(1, MapEntry(e, pa, LeafFlags(flags, cache, false)))
    requires Updated(m, n, {k}, k, PathOf(va), leaf) && OnPlan(m, k, plan, w)
    ensures OnPlan(n, k, plan, w) && (Mapped(m, k, plan, w) ==> Mapped(n, k, plan, w))
    ensures PagemapRun.SamePage(va, w) ==> Mapped(n, k, plan, w)
  {
    IndexSmall(w);
    PagemapRun.ReachesIff(k, k, va, w);
    PagemapRun.MappedFrame(e, pa, flags, cache, w);
    assert HwWalk(n, k, PathOf(w)) == if Affects(k, PathOf(va), k, PathOf(w)) then leaf else HwWalk(m, k, PathOf(w));
  }
}
