/**
 The page-map operations as functions of the heap of tables, and what each does to the hardware
 translation of every address space.
 */
module Pagemap {
  import opened Options
  import opened PageEntry
  import opened PageTables
  import opened AddressSpaces

  datatype PageSize = Small | Large | Huge

  /** `get_page_size`: the 1 GiB flag wins over the 2 MiB flag. */
  function SizeOf(flags: bv64): PageSize { if LLPage(flags) then Huge else if LPage(flags) then Large else Small }

  /** The indices that lead to the leaf of a page of the given size. */
  function Prefix(va: bv64, size: PageSize): (p: Path)
    ensures p <= PathOf(va) && 2 <= |p| <= 4
  {
    match size
    case Small => PathOf(va)
    case Large => PathOf(va)[..3]
    case Huge => PathOf(va)[..2]
  }

  function MapOne(h: Heap, top: Table, va: bv64, pa: bv64, flags: bv64, cache: Caching, size: PageSize): Outcome<bool> {
    match WalkDown(h, top, Prefix(va, size), true)
    case Panic => Panic
    case Ret(g, None) => Ret(g, false)
    case Ret(g, Some(s)) =>
      Ret(g.(mem := Poke(g.mem, s, MapEntry(Read(g.mem, s), pa, LeafFlags(flags, cache, !size.Small?)))), true)
  }

  /** `unmap` always walks to a 4 KiB leaf. */
  function UnmapOne(h: Heap, top: Table, va: bv64): Outcome<bool> {
    match WalkDown(h, top, PathOf(va), false)
    case Panic => Panic
    case Ret(g, None) => Ret(g, false)
    case Ret(g, Some(s)) => Ret(g.(mem := Poke(g.mem, s, 0)), true)
  }

  function FlagOne(h: Heap, top: Table, va: bv64, flags: bv64, cache: Caching): Outcome<bool> {
    var size := SizeOf(flags);
    match WalkDown(h, top, Prefix(va, size), true)
    case Panic => Panic
    case Ret(g, None) => Ret(g, false)
    case Ret(g, Some(s)) =>
      Ret(g.(mem := Poke(g.mem, s, FlagEntry(Read(g.mem, s), LeafFlags(flags, cache, !size.Small?)))), true)
  }

  const INVALID: bv64 := 0xFFFF_FFFF_FFFF_FFFF

  /** The entry's address plus the offset in the page. */
  function SoftAddress(address: bv64, va: bv64, size: PageSize): bv64 {
    match size
    case Small => address + va % 0x1000
    case Large => address + va % 0x20_0000
    case Huge => address + va % 0x4000_0000
  }

  /** `virtual_to_physical`: the software translation. */
  function VirtToPhys(h: Heap, top: Table, va: bv64, flags: bv64): bv64 {
    match WalkDown(h, top, Prefix(va, SizeOf(flags)), false)
    case Ret(_, Some(s)) =>
      var e := Read(h.mem, s);
      if Present(e) then SoftAddress(Address(e), va, SizeOf(flags)) else INVALID
    case _ => INVALID
  }

  // ---------------------------------------------------------------------------------------------
  // One write, seen by every address space
  // ---------------------------------------------------------------------------------------------

  /** `n` gives `leaf` to the pages below `prefix` in `top` and in all that share them, and agrees with `m` elsewhere. */
  ghost predicate Updated(m: Memory, n: Memory, roots: set<Table>, top: Table, prefix: Path, leaf: Leaf) {
    forall r, path {:trigger HwWalk(n, r, path)} :: r in roots && IsPath(path) ==>
      HwWalk(n, r, path) == if Affects(top, prefix, r, path) then leaf else HwWalk(m, r, path)
  }

  ghost predicate SameTranslation(m: Memory, n: Memory, roots: set<Table>) {
    forall r, path {:trigger HwWalk(n, r, path)} ::
      r in roots && IsPath(path) ==> HwWalk(n, r, path) == HwWalk(m, r, path)
  }

  lemma GrownKeepsInv(h: Heap, place: Places, roots: set<Table>, g: Heap, now: Places)
    requires Inv(h, place, roots) && Grown(h, place, g, now)
    ensures Inv(g, now, roots)
    ensures SameTranslation(h.mem, g.mem, roots)
  {
    forall r, i | r in roots && 256 <= i < 512 ensures Read(g.mem, Slot(r, i)) == Read(h.mem, Slot(r, i)) {
    }
    forall r, path | r in roots && IsPath(path) ensures HwWalk(g.mem, r, path) == HwWalk(h.mem, r, path) {
      assert place[r].prefix == [];
    }
  }

  lemma WriteLeaf(h: Heap, place: Places, roots: set<Table>, top: Table, prefix: Path, s: Slot, v: bv64)
    requires Inv(h, place, roots) && top in roots && At(h, place, top, prefix, s) && LeafWord(h.mem, prefix, v)
    ensures Inv(h.(mem := Poke(h.mem, s, v)), place, roots)
    ensures Updated(h.mem, Poke(h.mem, s, v), roots, top, prefix, LeafOf(prefix, v))
  {
    assert prefix[..|prefix| - 1] + [s.index] == prefix;
    LeafKeepsInv(h, place, roots, s, v);
    forall r, path | r in roots && IsPath(path)
      ensures HwWalk(Poke(h.mem, s, v), r, path) ==
              if Affects(top, prefix, r, path) then LeafOf(prefix, v) else HwWalk(h.mem, r, path)
    {
      LeafSeen(h, place, roots, top, prefix, s, v, r, path);
    }
  }

  /** The tables after an operation that walks from `top` along `prefix`, allocating. */
  function PlacesOf(h: Heap, place: Places, top: Table, prefix: Path): Places
    requires prefix != []
  {
    if top in place then PlacesAfter(h, place, top, prefix) else place
  }

  /** The walk that `map` and `set_flags` start with. */
  lemma WalkFromRoot(h: Heap, place: Places, roots: set<Table>, top: Table, prefix: Path)
    requires Inv(h, place, roots) && top in roots && 1 <= |prefix| <= 4 && Clean(h.mem, top, prefix)
    ensures var r := WalkDown(h, top, prefix, true);
            r.Ret? ==>
              var now := PlacesOf(h, place, top, prefix);
              && r.value.Some? && Inv(r.heap, now, roots) && At(r.heap, now, top, prefix, r.value.value)
              && r.heap.mem.gib1 == h.mem.gib1 && SameTranslation(h.mem, r.heap.mem, roots)
  {
    WalkGrows(h, place, top, prefix);
    var r := WalkDown(h, top, prefix, true);
    if r.Ret? {
      var now := PlacesAfter(h, place, top, prefix);
      GrownKeepsInv(h, place, roots, r.heap, now);
      assert place[top] == Place(Root(top), []);
      assert [] + prefix[..|prefix| - 1] == prefix[..|prefix| - 1];
    }
  }

  /** The 4 KiB entry that the hardware finds, or an empty one. */
  function EntryOf(leaf: Leaf): bv64 { if leaf.Leaf? && leaf.level == 1 then leaf.entry else 0 }

  /** The slot of a 4 KiB page holds what the hardware walk reports. */
  lemma {:induction false} SlotEntry(h: Heap, place: Places, t: Table, path: Path, s: Slot)
    requires Tree(h, place) && t in place && path != [] && |place[t].prefix| + |path| == 4
    requires WalkDown(h, t, path, false) == Ret(h, Some(s)) && Clean(h.mem, t, path)
    ensures Read(h.mem, s) == EntryOf(HwWalk(h.mem, t, path))
    ensures HwWalk(h.mem, t, path) == if Read(h.mem, s) == 0 then NotMapped else Leaf(1, Read(h.mem, s))
    decreases |path|
  {
    var e := Read(h.mem, Slot(t, path[0]));
    assert EntryOk(h.mem, place, place[t], path[0], e);
    if |path| > 1 {
      Child(h.mem, place, t, path[0]);
      SlotEntry(h, place, Table(Address(e)), path[1..], s);
    }
  }

  /** The walk is clean exactly when the page is not inside a large page. */
  lemma {:induction false} CleanIff(h: Heap, place: Places, t: Table, path: Path)
    requires Tree(h, place) && t in place && path != [] && |place[t].prefix| + |path| == 4
    ensures Clean(h.mem, t, path) <==> !(HwWalk(h.mem, t, path).Leaf? && HwWalk(h.mem, t, path).level > 1)
    decreases |path|
  {
    var e := Read(h.mem, Slot(t, path[0]));
    assert EntryOk(h.mem, place, place[t], path[0], e);
    if |path| > 1 && Present(e) && !LargeBit(e) {
      Child(h.mem, place, t, path[0]);
      CleanIff(h, place, Table(Address(e)), path[1..]);
    }
  }

  /** A walk without allocation that finds nothing: the page is not mapped. */
  lemma {:induction false} MissingIsUnmapped(h: Heap, place: Places, t: Table, path: Path)
    requires Tree(h, place) && t in place && path != [] && |place[t].prefix| + |path| == 4
    requires Clean(h.mem, t, path)
    ensures match WalkDown(h, t, path, false)
            case Panic => false
            case Ret(g, None) => g == h && HwWalk(h.mem, t, path) == NotMapped
            case Ret(g, Some(s)) =>
              && g == h && s.index == path[|path| - 1] && s.table in place
              && place[s.table] == Place(OwnerAt(place[t], path), place[t].prefix + path[..|path| - 1])
    decreases |path|
  {
    var e := Read(h.mem, Slot(t, path[0]));
    if |path| > 1 && Present(e) {
      Child(h.mem, place, t, path[0]);
      MissingIsUnmapped(h, place, Table(Address(e)), path[1..]);
      assert [path[0]] + path[1..][..|path| - 2] == path[..|path| - 1];
      assert place[t].prefix + [path[0]] + path[1..][..|path| - 2] == place[t].prefix + path[..|path| - 1];
    }
  }

  // ---------------------------------------------------------------------------------------------
  // map, unmap, set_flags
  // ---------------------------------------------------------------------------------------------

  /** The flags make a leaf at the level of the page size. */
  predicate LeafRequest(m: Memory, flags: bv64, size: PageSize) {
    match size
    case Small => true
    case Large => LPage(flags) || LLPage(flags)
    case Huge => (LPage(flags) || LLPage(flags)) && m.gib1
  }

  lemma MapWord(m: Memory, e: bv64, pa: bv64, flags: bv64, cache: Caching, size: PageSize, va: bv64)
    requires IsFrame(pa) && LeafRequest(m, flags, size)
    ensures var v := MapEntry(e, pa, LeafFlags(flags, cache, !size.Small?));
            v != 0 && LeafWord(m, Prefix(va, size), v)
  {
    var bits := LeafFlags(flags, cache, !size.Small?);
    LeafFlagsShape(flags, cache, !size.Small?);
    MappedFlags(e, pa, bits, 1);
    MappedFlags(e, pa, bits, 128);
  }

  lemma MapWrites(h: Heap, place: Places, roots: set<Table>, top: Table, va: bv64, pa: bv64, flags: bv64, cache: Caching, size: PageSize)
    returns (e: bv64)
    requires Inv(h, place, roots) && top in roots && Clean(h.mem, top, Prefix(va, size))
    requires IsFrame(pa) && LeafRequest(h.mem, flags, size)
    ensures var r := MapOne(h, top, va, pa, flags, cache, size);
            r.Ret? ==>
              && r.value && Inv(r.heap, PlacesOf(h, place, top, Prefix(va, size)), roots)
              && r.heap.mem.gib1 == h.mem.gib1
              && (size.Small? ==> e == EntryOf(HwWalk(h.mem, top, PathOf(va))))
              && Updated(h.mem, r.heap.mem, roots, top, Prefix(va, size),
                         Leaf(5 - |Prefix(va, size)|, MapEntry(e, pa, LeafFlags(flags, cache, !size.Small?))))
  {
    var prefix := Prefix(va, size);
    WalkFromRoot(h, place, roots, top, prefix);
    var r := WalkDown(h, top, prefix, true);
    if r.Panic? {
      e := 0;
    } else {
      var now, s := PlacesOf(h, place, top, prefix), r.value.value;
      e := Read(r.heap.mem, s);
      LeafWrites(h, roots, top, va, pa, flags, cache, size, r.heap, now, s);
      if size.Small? { SlotAfterWalk(h, roots, top, va, r.heap, now, s); }
    }
  }

  lemma LeafWrites(
    h: Heap, roots: set<Table>, top: Table, va: bv64, pa: bv64, flags: bv64, cache: Caching, size: PageSize, g: Heap, now: Places, s: Slot)
    requires Inv(g, now, roots) && top in roots && At(g, now, top, Prefix(va, size), s) && SameTranslation(h.mem, g.mem, roots)
    requires IsFrame(pa) && LeafRequest(g.mem, flags, size)
    ensures var v := MapEntry(Read(g.mem, s), pa, LeafFlags(flags, cache, !size.Small?));
            && Inv(g.(mem := Poke(g.mem, s, v)), now, roots)
            && Updated(h.mem, Poke(g.mem, s, v), roots, top, Prefix(va, size), Leaf(5 - |Prefix(va, size)|, v))
  {
    var v := MapEntry(Read(g.mem, s), pa, LeafFlags(flags, cache, !size.Small?));
    MapWord(g.mem, Read(g.mem, s), pa, flags, cache, size, va);
    WriteAfterWalk(h, roots, top, Prefix(va, size), g, now, s, v);
  }

  /**
   `map` gives its page the leaf asked for, in every address space that shares the entry, and changes
   no other page.  The frame has to suit the page size: then the leaf sets no bit the processor reserves.
   */
  lemma MapEffect(h: Heap, place: Places, roots: set<Table>, top: Table, va: bv64, pa: bv64, flags: bv64, cache: Caching, size: PageSize)
    returns (e: bv64)
    requires Inv(h, place, roots) && top in roots && Clean(h.mem, top, Prefix(va, size))
    requires Sized(5 - |Prefix(va, size)|, pa) && LeafRequest(h.mem, flags, size)
    ensures !Reserved(5 - |Prefix(va, size)|, MapEntry(e, pa, LeafFlags(flags, cache, !size.Small?)))
    ensures var r := MapOne(h, top, va, pa, flags, cache, size);
            r.Ret? ==>
              && r.value && Inv(r.heap, PlacesOf(h, place, top, Prefix(va, size)), roots)
              && r.heap.mem.gib1 == h.mem.gib1
              && (size.Small? ==> e == EntryOf(HwWalk(h.mem, top, PathOf(va))))
              && Updated(h.mem, r.heap.mem, roots, top, Prefix(va, size),
                         Leaf(5 - |Prefix(va, size)|, MapEntry(e, pa, LeafFlags(flags, cache, !size.Small?))))
  {
    e := MapWrites(h, place, roots, top, va, pa, flags, cache, size);
    NothingReserved(e, pa, flags, cache, 5 - |Prefix(va, size)|);
  }

  lemma WriteAfterWalk(h: Heap, roots: set<Table>, top: Table, prefix: Path, g: Heap, now: Places, s: Slot, v: bv64)
    requires Inv(g, now, roots) && top in roots && At(g, now, top, prefix, s) && LeafWord(g.mem, prefix, v)
    requires SameTranslation(h.mem, g.mem, roots)
    ensures Inv(g.(mem := Poke(g.mem, s, v)), now, roots)
    ensures Updated(h.mem, Poke(g.mem, s, v), roots, top, prefix, LeafOf(prefix, v))
  {
    WriteLeaf(g, now, roots, top, prefix, s, v);
    UpdatedAfter(h.mem, g.mem, Poke(g.mem, s, v), roots, top, prefix, LeafOf(prefix, v));
  }

  lemma SlotAfterWalk(h: Heap, roots: set<Table>, top: Table, va: bv64, g: Heap, now: Places, s: Slot)
    requires Inv(g, now, roots) && top in roots && At(g, now, top, PathOf(va), s)
    requires SameTranslation(h.mem, g.mem, roots)
    ensures Read(g.mem, s) == EntryOf(HwWalk(h.mem, top, PathOf(va)))
  {
    IndexSmall(va);
    assert now[top] == Place(Root(top), []);
    SlotEntry(g, now, top, PathOf(va), s);
    assert HwWalk(g.mem, top, PathOf(va)) == HwWalk(h.mem, top, PathOf(va));
  }

  lemma IndexSmall(va: bv64)
    ensures IsPath(PathOf(va))
  {
  }

  lemma UpdatedAfter(m: Memory, g: Memory, n: Memory, roots: set<Table>, top: Table, prefix: Path, leaf: Leaf)
    requires SameTranslation(m, g, roots)
    requires Updated(g, n, roots, top, prefix, leaf)
    ensures Updated(m, n, roots, top, prefix, leaf)
  {
    forall r, path | r in roots && IsPath(path)
      ensures HwWalk(n, r, path) == if Affects(top, prefix, r, path) then leaf else HwWalk(m, r, path)
    {
      assert HwWalk(g, r, path) == HwWalk(m, r, path);
    }
  }

  /** `unmap` takes its page out of every address space that shares the entry; when it reports failure, it was not mapped. */
  lemma UnmapEffect(h: Heap, place: Places, roots: set<Table>, top: Table, va: bv64)
    requires Inv(h, place, roots) && top in roots && Clean(h.mem, top, PathOf(va))
    ensures var r := UnmapOne(h, top, va);
            && r.Ret? && Inv(r.heap, place, roots) && r.heap.mem.gib1 == h.mem.gib1
            && (!r.value ==> r.heap == h && HwWalk(h.mem, top, PathOf(va)) == NotMapped)
            && Updated(h.mem, r.heap.mem, roots, top, PathOf(va), NotMapped)
  {
    var path := PathOf(va);
    IndexSmall(va);
    assert place[top] == Place(Root(top), []);
    MissingIsUnmapped(h, place, top, path);
    match WalkDown(h, top, path, false) {
      case Ret(_, None) => UnmappedStays(h, place, roots, top, path);
      case Ret(_, Some(s)) =>
        assert [] + path[..3] == path[..3];
        WriteLeaf(h, place, roots, top, path, s, 0);
    }
  }

  lemma UnmappedStays(h: Heap, place: Places, roots: set<Table>, top: Table, path: Path)
    requires Inv(h, place, roots) && top in roots && IsPath(path) && HwWalk(h.mem, top, path) == NotMapped
    ensures Updated(h.mem, h.mem, roots, top, path, NotMapped)
  {
    forall r, q | r in roots && IsPath(q) && Affects(top, path, r, q) ensures HwWalk(h.mem, r, q) == NotMapped {
      assert q == path;
      SharedWalk(h, place, roots, top, r, q);
    }
  }

  /** In the upper half all address spaces translate alike. */
  lemma SharedWalk(h: Heap, place: Places, roots: set<Table>, q: Table, r: Table, path: Path)
    requires Inv(h, place, roots) && q in roots && r in roots && IsPath(path) && (q == r || path[0] >= 256)
    ensures HwWalk(h.mem, q, path) == HwWalk(h.mem, r, path)
  {
    if q != r { assert Read(h.mem, Slot(q, path[0])) == Read(h.mem, Slot(r, path[0])); }
  }

  /** `set_flags` on a 4 KiB page keeps the frame and replaces the flags; on an unmapped page it maps frame zero. */
  lemma FlagEffect(h: Heap, place: Places, roots: set<Table>, top: Table, va: bv64, flags: bv64, cache: Caching)
    requires Inv(h, place, roots) && top in roots && Clean(h.mem, top, PathOf(va)) && SizeOf(flags).Small?
    ensures var r := FlagOne(h, top, va, flags, cache);
            r.Ret? ==>
              var e := EntryOf(HwWalk(h.mem, top, PathOf(va)));
              && r.value && Inv(r.heap, PlacesOf(h, place, top, PathOf(va)), roots)
              && r.heap.mem.gib1 == h.mem.gib1
              && Updated(h.mem, r.heap.mem, roots, top, PathOf(va),
                         Leaf(1, FlagEntry(e, LeafFlags(flags, cache, false))))
  {
    var path := PathOf(va);
    WalkFromRoot(h, place, roots, top, path);
    FlagIs(h, top, va, flags, cache);
    var r := WalkDown(h, top, path, true);
    if r.Ret? {
      FlagWrites(h, roots, top, va, flags, cache, r.heap, PlacesOf(h, place, top, path), r.value.value);
    }
  }

  /** `set_flags` on a 4 KiB page: the walk, then one write. */
  lemma FlagIs(h: Heap, top: Table, va: bv64, flags: bv64, cache: Caching)
    requires SizeOf(flags).Small?
    ensures var r := WalkDown(h, top, PathOf(va), true);
            && (r.Panic? ==> FlagOne(h, top, va, flags, cache).Panic?)
            && (r.Ret? && r.value.Some? ==>
                  FlagOne(h, top, va, flags, cache) ==
                    Ret(r.heap.(mem := Poke(r.heap.mem, r.value.value,
                                            FlagEntry(Read(r.heap.mem, r.value.value), LeafFlags(flags, cache, false)))), true))
  {
  }

  lemma FlagWrites(h: Heap, roots: set<Table>, top: Table, va: bv64, flags: bv64, cache: Caching, g: Heap, now: Places, s: Slot)
    requires Inv(g, now, roots) && top in roots && At(g, now, top, PathOf(va), s) && SameTranslation(h.mem, g.mem, roots)
    ensures var v := FlagEntry(Read(g.mem, s), LeafFlags(flags, cache, false));
            && Read(g.mem, s) == EntryOf(HwWalk(h.mem, top, PathOf(va)))
            && Inv(g.(mem := Poke(g.mem, s, v)), now, roots)
            && Updated(h.mem, Poke(g.mem, s, v), roots, top, PathOf(va), Leaf(1, v))
  {
    var v := FlagEntry(Read(g.mem, s), LeafFlags(flags, cache, false));
    SlotAfterWalk(h, roots, top, va, g, now, s);
    FlagWord(g.mem, Read(g.mem, s), flags, cache, va);
    WriteAfterWalk(h, roots, top, PathOf(va), g, now, s, v);
  }

  lemma FlagWord(m: Memory, e: bv64, flags: bv64, cache: Caching, va: bv64)
    ensures var v := FlagEntry(e, LeafFlags(flags, cache, false)); v != 0 && LeafWord(m, PathOf(va), v)
  {
    LeafFlagsShape(flags, cache, false);
    FlaggedEntry(e, LeafFlags(flags, cache, false));
  }

  // ---------------------------------------------------------------------------------------------
  // The software translation against the hardware's
  // ---------------------------------------------------------------------------------------------

  lemma SmallSum(e: bv64, va: bv64)
    ensures SoftAddress(Address(e), va, Small) == PhysicalAddress(1, e, va)
  {
  }

  lemma LargeSumClear(e: bv64, va: bv64)
    requires e & 0x1F_F000 == 0
    ensures SoftAddress(Address(e), va, Large) == PhysicalAddress(2, e, va)
  {
    LargeFrameSum(e, va);
    assert Address(e) == e & 0x000F_FFFF_FFE0_0000;
  }

  lemma LargeFrameSum(e: bv64, va: bv64)
    ensures SoftAddress(e & 0x000F_FFFF_FFE0_0000, va, Large) == PhysicalAddress(2, e, va)
  {
  }

  lemma LargeSumSet(e: bv64, va: bv64)
    requires e & 0x1F_F000 != 0
    ensures SoftAddress(Address(e), va, Large) != PhysicalAddress(2, e, va)
  {
  }

  /** On a 2 MiB leaf the software agrees with the hardware exactly when the address bits below the frame are clear. */
  lemma SoftwareOnLarge(e: bv64, va: bv64)
    ensures SoftAddress(Address(e), va, Large) == PhysicalAddress(2, e, va) <==> e & 0x1F_F000 == 0
  {
    if e & 0x1F_F000 == 0 {
      LargeSumClear(e, va);
    } else {
      LargeSumSet(e, va);
    }
  }

  /** With only the cache selector set there, it is off by one 4 KiB page. */
  lemma SoftwareOffByOnePage(e: bv64, va: bv64)
    requires e & 0x1F_F000 == 0x1000
    ensures SoftAddress(Address(e), va, Large) == PhysicalAddress(2, e, va) + 0x1000
  {
  }

  /** For 4 KiB pages the software translation is the hardware's. */
  lemma SoftwareAgrees(h: Heap, place: Places, roots: set<Table>, top: Table, va: bv64, flags: bv64)
    requires Inv(h, place, roots) && top in roots && Canonical(va) && SizeOf(flags).Small?
    requires Clean(h.mem, top, PathOf(va))
    ensures VirtToPhys(h, top, va, flags) ==
            match Translate(h.mem, top, va) case Some(pa) => pa case None => INVALID
  {
    var path := PathOf(va);
    assert place[top] == Place(Root(top), []);
    MissingIsUnmapped(h, place, top, path);
    var r := WalkDown(h, top, path, false);
    if r.value.Some? {
      SlotEntry(h, place, top, path, r.value.value);
      SlotWord(h, place, r.value.value);
      SmallSum(Read(h.mem, r.value.value), va);
    }
  }

  lemma SlotWord(h: Heap, place: Places, s: Slot)
    requires Tree(h, place) && s.table in place
    ensures Read(h.mem, s) == 0 || Present(Read(h.mem, s))
  {
    assert s == Slot(s.table, s.index);
    assert EntryOk(h.mem, place, place[s.table], s.index, Read(h.mem, s));
  }

  /** On a 2 MiB leaf that `map` wrote, the software is right exactly for the two cache modes that leave bit 12 clear. */
  lemma SoftwareOnMappedLarge(e: bv64, pa: bv64, flags: bv64, cache: Caching, va: bv64)
    requires pa & 0x000F_FFFF_FFE0_0000 == pa
    ensures var v := MapEntry(e, pa, LeafFlags(flags, cache, true));
            && PhysicalAddress(2, v, va) == pa | (va & 0x1F_FFFF)
            && (SoftAddress(Address(v), va, Large) == PhysicalAddress(2, v, va) <==> cache.Uncachable? || cache.WriteCombining?)
  {
    var bits := LeafFlags(flags, cache, true);
    var v := MapEntry(e, pa, bits);
    LeafFlagsShape(flags, cache, true);
    MappedBits(e, pa, bits, 0x000F_FFFF_FFE0_0000);
    LowBitsOfLarge(e, pa, flags, cache);
    SoftwareOnLarge(v, va);
  }

  lemma LowBitsOfLarge(e: bv64, pa: bv64, flags: bv64, cache: Caching)
    requires pa & 0x000F_FFFF_FFE0_0000 == pa
    ensures MapEntry(e, pa, LeafFlags(flags, cache, true)) & 0x1F_F000 ==
            if cache.Uncachable? || cache.WriteCombining? then 0 else 0x1000
  {
  }
}
