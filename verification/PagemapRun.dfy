/**
 Runs of page-map operations refine updates of one simple map per address space, from pages to leaves.
 */
module PagemapRun {
  import opened Options
  import opened PageEntry
  import opened PageTables
  import opened AddressSpaces
  import opened Pagemap
  import opened PagemapLife
  import opened PagemapDestroy

  datatype Op =
    | New(top: Table)
    | Map(top: Table, va: bv64, pa: bv64, flags: bv64, cache: Caching)
    | Unmap(top: Table, va: bv64)
    | Flag(top: Table, va: bv64, flags: bv64, cache: Caching)
    | Remap(top: Table, va: bv64, new_va: bv64, flags: bv64, cache: Caching)
    | Destroy(top: Table)
    | Supply(pool: seq<Table>)

  // ---------------------------------------------------------------------------------------------
  // The simple system
  // ---------------------------------------------------------------------------------------------

  type View = Path -> Leaf

  /** One view for the shared upper half, one for the lower half of each address space. */
  datatype Spaces = Spaces(kernel: View, user: map<Table, View>)

  function Look(a: Spaces, r: Table, path: Path): Leaf
    requires r in a.user && path != []
  {
    if path[0] >= 256 then a.kernel(path) else a.user[r](path)
  }

  function With(view: View, path: Path, leaf: Leaf): View { p => if p == path then leaf else view(p) }

  function Put(a: Spaces, top: Table, path: Path, leaf: Leaf): Spaces
    requires top in a.user && path != []
  {
    if path[0] >= 256 then a.(kernel := With(a.kernel, path, leaf))
    else a.(user := a.user[top := With(a.user[top], path, leaf)])
  }

  function MapLeaf(leaf: Leaf, pa: bv64, flags: bv64, cache: Caching): Leaf {
    Leaf(1, MapEntry(EntryOf(leaf), pa, LeafFlags(flags, cache, false)))
  }

  function FlagLeaf(leaf: Leaf, flags: bv64, cache: Caching): Leaf {
    Leaf(1, FlagEntry(EntryOf(leaf), LeafFlags(flags, cache, false)))
  }

  function Simple(a: Spaces, op: Op): Spaces
    requires !op.New? && !op.Supply? ==> op.top in a.user
  {
    match op
    case New(top) => a.(user := a.user[top := _ => NotMapped])
    case Map(top, va, pa, flags, cache) => Put(a, top, PathOf(va), MapLeaf(Look(a, top, PathOf(va)), pa, flags, cache))
    case Unmap(top, va) => Put(a, top, PathOf(va), NotMapped)
    case Flag(top, va, flags, cache) => Put(a, top, PathOf(va), FlagLeaf(Look(a, top, PathOf(va)), flags, cache))
    case Remap(top, va, new_va, flags, cache) =>
      var b := Put(a, top, PathOf(va), NotMapped);
      var frame := Address(EntryOf(Look(a, top, PathOf(va))));
      Put(b, top, PathOf(new_va), MapLeaf(Look(b, top, PathOf(new_va)), frame, flags, cache))
    case Destroy(top) => a.(user := a.user - {top})
    case Supply(_) => a
  }

  // ---------------------------------------------------------------------------------------------
  // The kernel's system
  // ---------------------------------------------------------------------------------------------

  function Unit<T>(r: Outcome<T>): Outcome<()> { if r.Panic? then Panic else Ret(r.heap, ()) }

  /** `remap`: translate in software, unmap, map. */
  function RemapOne(h: Heap, top: Table, va: bv64, new_va: bv64, flags: bv64, cache: Caching): Outcome<bool> {
    var pa := VirtToPhys(h, top, va, flags);
    match UnmapOne(h, top, va)
    case Panic => Panic
    case Ret(g, _) => MapOne(g, top, new_va, pa, flags, cache, Small)
  }

  function Exec(h: Heap, k: Table, op: Op): Outcome<()> {
    match op
    case New(_) => Unit(NewPagemap(h, Some(k)))
    case Map(top, va, pa, flags, cache) => Unit(MapOne(h, top, va, pa, flags, cache, Small))
    case Unmap(top, va) => Unit(UnmapOne(h, top, va))
    case Flag(top, va, flags, cache) => Unit(FlagOne(h, top, va, flags, cache))
    case Remap(top, va, new_va, flags, cache) => Unit(RemapOne(h, top, va, new_va, flags, cache))
    case Destroy(top) => Ret(DestroyHeap(h, top), ())
    case Supply(pool) => Ret(h.(pool := pool), ())
  }

  /** What the callers owe: 4 KiB requests outside large pages, aligned frames, a mapped and aligned page to move. */
  ghost predicate Allowed(h: Heap, k: Table, a: Spaces, op: Op) {
    match op
    case New(top) => h.pool != [] ==> top == h.pool[0]
    case Map(top, va, pa, flags, _) =>
      top in a.user && !IsLarge(Look(a, top, PathOf(va))) && IsFrame(pa) && SizeOf(flags).Small?
    case Unmap(top, va) => top in a.user && !IsLarge(Look(a, top, PathOf(va)))
    case Flag(top, va, flags, _) => top in a.user && !IsLarge(Look(a, top, PathOf(va))) && SizeOf(flags).Small?
    case Remap(top, va, new_va, flags, _) =>
      && top in a.user && Look(a, top, PathOf(va)).Leaf? && !IsLarge(Look(a, top, PathOf(va)))
      && !IsLarge(Look(a, top, PathOf(new_va))) && Canonical(va) && va & 0xFFF == 0 && SizeOf(flags).Small?
    case Destroy(top) => top in a.user && top != k && forall path :: IsPath(path) ==> !IsLarge(a.user[top](path))
    case Supply(pool) => PoolOk(h.(pool := pool))
  }

  ghost predicate Refines(h: Heap, place: Places, k: Table, a: Spaces) {
    && Inv(h, place, a.user.Keys) && k in a.user
    && forall r, path {:trigger HwWalk(h.mem, r, path)} ::
         r in a.user && IsPath(path) ==> HwWalk(h.mem, r, path) == Look(a, r, path)
  }

  // ---------------------------------------------------------------------------------------------
  // One step
  // ---------------------------------------------------------------------------------------------

  lemma PutLook(a: Spaces, top: Table, path: Path, leaf: Leaf, r: Table, q: Path)
    requires top in a.user && r in a.user && IsPath(path) && IsPath(q)
    ensures Look(Put(a, top, path, leaf), r, q) == if Affects(top, path, r, q) then leaf else Look(a, r, q)
  {
  }

  /** A write seen by the hardware is the same write to the simple map. */
  lemma UpdateRefines(h: Heap, k: Table, a: Spaces, g: Heap, now: Places, top: Table, path: Path, leaf: Leaf)
    requires top in a.user && IsPath(path) && k in a.user
    requires forall r, q {:trigger HwWalk(h.mem, r, q)} :: r in a.user && IsPath(q) ==> HwWalk(h.mem, r, q) == Look(a, r, q)
    requires Inv(g, now, a.user.Keys) && Updated(h.mem, g.mem, a.user.Keys, top, path, leaf)
    ensures Refines(g, now, k, Put(a, top, path, leaf))
  {
    assert Put(a, top, path, leaf).user.Keys == a.user.Keys;
    forall r, q | r in a.user && IsPath(q) ensures HwWalk(g.mem, r, q) == Look(Put(a, top, path, leaf), r, q) {
      PutLook(a, top, path, leaf, r, q);
      assert HwWalk(h.mem, r, q) == Look(a, r, q);
    }
  }

  lemma CleanHere(h: Heap, place: Places, k: Table, a: Spaces, top: Table, va: bv64)
    requires Refines(h, place, k, a) && top in a.user
    ensures IsPath(PathOf(va)) && HwWalk(h.mem, top, PathOf(va)) == Look(a, top, PathOf(va))
    ensures Clean(h.mem, top, PathOf(va)) <==> !IsLarge(Look(a, top, PathOf(va)))
  {
    IndexSmall(va);
    assert place[top] == Place(Root(top), []);
    CleanIff(h, place, top, PathOf(va));
  }

  lemma MapRefines(h: Heap, place: Places, k: Table, a: Spaces, top: Table, va: bv64, pa: bv64, flags: bv64, cache: Caching)
    returns (now: Places)
    requires Refines(h, place, k, a) && Allowed(h, k, a, Map(top, va, pa, flags, cache))
    ensures var r := MapOne(h, top, va, pa, flags, cache, Small);
            r.Ret? ==> Refines(r.heap, now, k, Simple(a, Map(top, va, pa, flags, cache)))
  {
    CleanHere(h, place, k, a, top, va);
    var e := MapEffect(h, place, a.user.Keys, top, va, pa, flags, cache, Small);
    now := PlacesOf(h, place, top, PathOf(va));
    var r := MapOne(h, top, va, pa, flags, cache, Small);
    if r.Ret? {
      UpdateRefines(h, k, a, r.heap, now, top, PathOf(va), MapLeaf(Look(a, top, PathOf(va)), pa, flags, cache));
    }
  }

  lemma UnmapRefines(h: Heap, place: Places, k: Table, a: Spaces, top: Table, va: bv64)
    requires Refines(h, place, k, a) && Allowed(h, k, a, Unmap(top, va))
    ensures var r := UnmapOne(h, top, va); r.Ret? && Refines(r.heap, place, k, Simple(a, Unmap(top, va)))
  {
    CleanHere(h, place, k, a, top, va);
    UnmapEffect(h, place, a.user.Keys, top, va);
    UpdateRefines(h, k, a, UnmapOne(h, top, va).heap, place, top, PathOf(va), NotMapped);
  }

  lemma FlagRefines(h: Heap, place: Places, k: Table, a: Spaces, top: Table, va: bv64, flags: bv64, cache: Caching)
    returns (now: Places)
    requires Refines(h, place, k, a) && Allowed(h, k, a, Flag(top, va, flags, cache))
    ensures var r := FlagOne(h, top, va, flags, cache);
            r.Ret? ==> Refines(r.heap, now, k, Simple(a, Flag(top, va, flags, cache)))
  {
    CleanHere(h, place, k, a, top, va);
    FlagEffect(h, place, a.user.Keys, top, va, flags, cache);
    now := PlacesOf(h, place, top, PathOf(va));
    var r := FlagOne(h, top, va, flags, cache);
    if r.Ret? {
      UpdateRefines(h, k, a, r.heap, now, top, PathOf(va), FlagLeaf(Look(a, top, PathOf(va)), flags, cache));
    }
  }

  lemma AlignedPage(e: bv64, va: bv64)
    requires va & 0xFFF == 0
    ensures PhysicalAddress(1, e, va) == Address(e) && IsFrame(Address(e))
  {
    NoOffset(Address(e));
  }

  lemma NoOffset(frame: bv64)
    ensures Join(frame, 0) == frame
  {
  }

  lemma RemapRefines(h: Heap, place: Places, k: Table, a: Spaces, top: Table, va: bv64, new_va: bv64, flags: bv64, cache: Caching)
    returns (now: Places)
    requires Refines(h, place, k, a) && Allowed(h, k, a, Remap(top, va, new_va, flags, cache))
    ensures var r := RemapOne(h, top, va, new_va, flags, cache);
            r.Ret? ==> Refines(r.heap, now, k, Simple(a, Remap(top, va, new_va, flags, cache)))
  {
    var leaf := Look(a, top, PathOf(va));
    var frame := Address(EntryOf(leaf));
    MovedFrame(h, place, k, a, top, va, flags);
    UnmapRefines(h, place, k, a, top, va);
    var g, b := UnmapOne(h, top, va).heap, Simple(a, Unmap(top, va));
    IndexSmall(va);
    IndexSmall(new_va);
    PutLook(a, top, PathOf(va), NotMapped, top, PathOf(new_va));
    now := MapRefines(g, place, k, b, top, new_va, frame, flags, cache);
  }

  /** Software translation of a mapped, aligned page gives its frame. */
  lemma MovedFrame(h: Heap, place: Places, k: Table, a: Spaces, top: Table, va: bv64, flags: bv64)
    requires Refines(h, place, k, a) && top in a.user && Look(a, top, PathOf(va)).Leaf? && !IsLarge(Look(a, top, PathOf(va)))
    requires Canonical(va) && va & 0xFFF == 0 && SizeOf(flags).Small?
    ensures var frame := Address(EntryOf(Look(a, top, PathOf(va))));
            IsFrame(frame) && VirtToPhys(h, top, va, flags) == frame
  {
    CleanHere(h, place, k, a, top, va);
    SoftwareAgrees(h, place, a.user.Keys, top, va, flags);
    WalkLevels(h.mem, top, PathOf(va));
    AlignedPage(EntryOf(Look(a, top, PathOf(va))), va);
  }

  lemma {:induction false} WalkLevels(m: Memory, t: Table, path: Path)
    requires path != []
    ensures HwWalk(m, t, path).Leaf? ==> 1 <= HwWalk(m, t, path).level <= |path|
    decreases |path|
  {
    var e := Read(m, Slot(t, path[0]));
    if Present(e) && |path| > 1 && !LargeBit(e) { WalkLevels(m, Table(Address(e)), path[1..]); }
  }

  lemma NewRefines(h: Heap, place: Places, k: Table, a: Spaces, top: Table) returns (now: Places)
    requires Refines(h, place, k, a) && Allowed(h, k, a, New(top))
    ensures var r := NewPagemap(h, Some(k)); r.Ret? ==> Refines(r.heap, now, k, Simple(a, New(top)))
  {
    now := place;
    if h.pool != [] {
      now := PlacesNew(h, place, Some(k));
      LaterPagemap(h, place, a.user.Keys, k);
      var b := Simple(a, New(top));
      assert b.user.Keys == a.user.Keys + {top};
      NewViews(h.mem, NewPagemap(h, Some(k)).heap.mem, k, a, top);
    }
  }

  lemma NewViews(m: Memory, n: Memory, k: Table, a: Spaces, top: Table)
    requires k in a.user && top !in a.user && SameTranslation(m, n, a.user.Keys)
    requires forall r, path {:trigger HwWalk(m, r, path)} :: r in a.user && IsPath(path) ==> HwWalk(m, r, path) == Look(a, r, path)
    requires forall path {:trigger HwWalk(n, top, path)} :: IsPath(path) ==>
               HwWalk(n, top, path) == if path[0] >= 256 then HwWalk(m, k, path) else NotMapped
    ensures forall r, path {:trigger HwWalk(n, r, path)} ::
              r in Simple(a, New(top)).user && IsPath(path) ==> HwWalk(n, r, path) == Look(Simple(a, New(top)), r, path)
  {
    forall r, path | r in a.user && IsPath(path) ensures HwWalk(n, r, path) == Look(a, r, path) {
      assert HwWalk(n, r, path) == HwWalk(m, r, path);
    }
    forall path | IsPath(path) && path[0] >= 256 ensures HwWalk(n, top, path) == a.kernel(path) {
      assert HwWalk(m, k, path) == Look(a, k, path);
    }
  }

  lemma DestroyRefines(h: Heap, place: Places, k: Table, a: Spaces, top: Table)
    requires Refines(h, place, k, a) && Allowed(h, k, a, Destroy(top))
    ensures Refines(DestroyHeap(h, top), Survivors(place, top), k, Simple(a, Destroy(top)))
  {
    forall path: Path | |path| == 4 && path[0] < 256 ensures !IsLarge(HwWalk(h.mem, top, path)) {
      assert IsPath(path);
      assert HwWalk(h.mem, top, path) == Look(a, top, path);
    }
    var g, b := DestroyHeap(h, top), Simple(a, Destroy(top));
    DestroyKeepsOthers(h, place, a.user.Keys, top, g);
    assert b.user.Keys == a.user.Keys - {top};
    forall r, path | r in b.user && IsPath(path) ensures HwWalk(g.mem, r, path) == Look(b, r, path) {
      assert HwWalk(g.mem, r, path) == HwWalk(h.mem, r, path);
    }
  }

  lemma StepRefines(h: Heap, place: Places, k: Table, a: Spaces, op: Op) returns (now: Places)
    requires Refines(h, place, k, a) && Allowed(h, k, a, op)
    ensures var r := Exec(h, k, op); r.Ret? ==> Refines(r.heap, now, k, Simple(a, op))
  {
    match op
    case Map(_, _, _, _, _) => now := PageStepRefines(h, place, k, a, op);
    case Unmap(_, _) => now := PageStepRefines(h, place, k, a, op);
    case Flag(_, _, _, _) => now := PageStepRefines(h, place, k, a, op);
    case Remap(_, _, _, _, _) => now := PageStepRefines(h, place, k, a, op);
    case _ => now := TableStepRefines(h, place, k, a, op);
  }

  lemma PageStepRefines(h: Heap, place: Places, k: Table, a: Spaces, op: Op) returns (now: Places)
    requires op.Map? || op.Unmap? || op.Flag? || op.Remap?
    requires Refines(h, place, k, a) && Allowed(h, k, a, op)
    ensures var r := Exec(h, k, op); r.Ret? ==> Refines(r.heap, now, k, Simple(a, op))
  {
    match op
    case Map(top, va, pa, flags, cache) => now := MapRefines(h, place, k, a, top, va, pa, flags, cache);
    case Unmap(top, va) => UnmapRefines(h, place, k, a, top, va); now := place;
    case Flag(top, va, flags, cache) => now := FlagRefines(h, place, k, a, top, va, flags, cache);
    case Remap(top, va, new_va, flags, cache) => now := RemapRefines(h, place, k, a, top, va, new_va, flags, cache);
  }

  lemma TableStepRefines(h: Heap, place: Places, k: Table, a: Spaces, op: Op) returns (now: Places)
    requires op.New? || op.Destroy? || op.Supply?
    requires Refines(h, place, k, a) && Allowed(h, k, a, op)
    ensures var r := Exec(h, k, op); r.Ret? ==> Refines(r.heap, now, k, Simple(a, op))
  {
    match op
    case New(top) => now := NewRefines(h, place, k, a, top);
    case Destroy(top) => DestroyRefines(h, place, k, a, top); now := Survivors(place, top);
    case Supply(_) => now := place;
  }

  // ---------------------------------------------------------------------------------------------
  // Whole runs
  // ---------------------------------------------------------------------------------------------

  function ExecAll(h: Heap, k: Table, ops: seq<Op>): Outcome<()>
    decreases |ops|
  {
    if ops == [] then Ret(h, ())
    else
      match Exec(h, k, ops[0])
      case Panic => Panic
      case Ret(g, _) => ExecAll(g, k, ops[1..])
  }

  /** Every operation of the run is allowed when its turn comes. */
  ghost predicate Legal(h: Heap, k: Table, a: Spaces, ops: seq<Op>)
    decreases |ops|
  {
    ops != [] ==>
      && Allowed(h, k, a, ops[0])
      && (Exec(h, k, ops[0]).Ret? ==> Legal(Exec(h, k, ops[0]).heap, k, Simple(a, ops[0]), ops[1..]))
  }

  ghost function SimpleAll(h: Heap, k: Table, a: Spaces, ops: seq<Op>): Spaces
    requires Legal(h, k, a, ops)
    decreases |ops|
  {
    if ops == [] || Exec(h, k, ops[0]).Panic? then a
    else SimpleAll(Exec(h, k, ops[0]).heap, k, Simple(a, ops[0]), ops[1..])
  }

  /** Any legal run of operations ends in a heap that translates as the simple maps say. */
  lemma {:induction false} RunRefines(h: Heap, place: Places, k: Table, a: Spaces, ops: seq<Op>) returns (now: Places)
    requires Refines(h, place, k, a) && Legal(h, k, a, ops)
    ensures var r := ExecAll(h, k, ops); r.Ret? ==> Refines(r.heap, now, k, SimpleAll(h, k, a, ops))
    decreases |ops|
  {
    now := place;
    if ops != [] {
      now := StepRefines(h, place, k, a, ops[0]);
      var r := Exec(h, k, ops[0]);
      if r.Ret? { now := RunRefines(r.heap, now, k, Simple(a, ops[0]), ops[1..]); }
    }
  }

  /** In every state a legal run reaches, all address spaces have the same upper half and translate it alike. */
  lemma UpperHalfIsOne(h: Heap, place: Places, k: Table, a: Spaces, ops: seq<Op>, q: Table, r: Table, va: bv64)
    requires Refines(h, place, k, a) && Legal(h, k, a, ops) && ExecAll(h, k, ops).Ret?
    requires q in SimpleAll(h, k, a, ops).user && r in SimpleAll(h, k, a, ops).user && va >= 0xFFFF_8000_0000_0000
    ensures var m := ExecAll(h, k, ops).heap.mem;
            && Translate(m, q, va) == Translate(m, r, va)
            && forall i {:trigger Slot(q, i)} :: 256 <= i < 512 ==> Read(m, Slot(q, i)) == Read(m, Slot(r, i)) && Present(Read(m, Slot(q, i)))
  {
    var now := RunRefines(h, place, k, a, ops);
    var g, b := ExecAll(h, k, ops).heap, SimpleAll(h, k, a, ops);
    UpperIndex(va);
    SharedWalk(g, now, b.user.Keys, q, r, PathOf(va));
    forall i | 256 <= i < 512 ensures Read(g.mem, Slot(q, i)) == Read(g.mem, Slot(r, i)) {
      assert Slot(r, i).index == i;
    }
  }

  lemma UpperIndex(va: bv64)
    requires va >= 0xFFFF_8000_0000_0000
    ensures IsPath(PathOf(va)) && PathOf(va)[0] >= 256
  {
    assert 256 <= Index4(va) < 512;
  }

  function Blank(top: Table): Spaces { Spaces(_ => NotMapped, map[top := _ => NotMapped]) }

  /** The first page map starts the refinement, with every page unmapped. */
  lemma FirstRefines(h: Heap, place: Places) returns (now: Places)
    requires Inv(h, place, {}) && h.pool != []
    ensures var r := NewPagemap(h, None);
            r.Ret? ==> Refines(r.heap, now, r.value, Blank(r.value))
  {
    FirstPagemap(h, place);
    now := PlacesNew(h, place, None);
    var r := NewPagemap(h, None);
    if r.Ret? { BlankRefines(r.heap, now, r.value); }
  }

  lemma BlankRefines(h: Heap, place: Places, top: Table)
    requires Inv(h, place, {top})
    requires forall path {:trigger HwWalk(h.mem, top, path)} :: IsPath(path) ==> HwWalk(h.mem, top, path) == NotMapped
    ensures Refines(h, place, top, Blank(top))
  {
    assert Blank(top).user.Keys == {top};
  }

  /** What an address space that stands alone translates. */
  function Reading(m: Memory, k: Table): Spaces {
    var view := (path: Path) => if path == [] then NotMapped else HwWalk(m, k, path);
    Spaces(view, map[k := view])
  }

  /** Any single address space in order starts the refinement: that of the boot, for one. */
  lemma ReadingRefines(h: Heap, place: Places, k: Table)
    requires Inv(h, place, {k})
    ensures Refines(h, place, k, Reading(h.mem, k))
  {
    assert Reading(h.mem, k).user.Keys == {k};
  }

  // ---------------------------------------------------------------------------------------------
  // What the simple operations mean for addresses
  // ---------------------------------------------------------------------------------------------

  function Seen(a: Spaces, r: Table, va: bv64): Option<bv64>
    requires r in a.user
  {
    if Canonical(va) then Physical(Look(a, r, PathOf(va)), va) else None
  }

  lemma MappedFrame(e: bv64, pa: bv64, flags: bv64, cache: Caching, w: bv64)
    requires IsFrame(pa)
    ensures PhysicalAddress(1, MapEntry(e, pa, LeafFlags(flags, cache, false)), w) == pa | (w & 0xFFF)
  {
    LeafFlagsShape(flags, cache, false);
    MappedBits(e, pa, LeafFlags(flags, cache, false), 0x000F_FFFF_FFFF_F000);
  }

  predicate SamePage(va: bv64, w: bv64) { va & 0xFFFF_FFFF_FFFF_F000 == w & 0xFFFF_FFFF_FFFF_F000 }

  /** The address space, or the half, that an operation on `va` through `top` reaches from `r`. */
  predicate Reaches(top: Table, r: Table, va: bv64) { r == top || va >= 0xFFFF_8000_0000_0000 }

  lemma ReachesIff(top: Table, r: Table, va: bv64, w: bv64)
    requires Canonical(va) && Canonical(w)
    ensures Affects(top, PathOf(va), r, PathOf(w)) <==> SamePage(va, w) && Reaches(top, r, va)
  {
    PathNamesPage(va, w);
    UpperIff(w);
    UpperIff(va);
  }

  lemma UpperIff(va: bv64)
    requires Canonical(va)
    ensures PathOf(va)[0] >= 256 <==> va >= 0xFFFF_8000_0000_0000
  {
  }

  /** `map` gives every address of its page the frame asked for; every other address keeps its translation. */
  lemma MapMeans(a: Spaces, top: Table, va: bv64, pa: bv64, flags: bv64, cache: Caching, r: Table, w: bv64)
    requires top in a.user && r in a.user && Canonical(va) && IsFrame(pa)
    ensures var b := Simple(a, Map(top, va, pa, flags, cache));
            r in b.user && Seen(b, r, w) ==
              if Canonical(w) && SamePage(va, w) && Reaches(top, r, va) then Some(pa | (w & 0xFFF)) else Seen(a, r, w)
  {
    IndexSmall(va);
    IndexSmall(w);
    var leaf := MapLeaf(Look(a, top, PathOf(va)), pa, flags, cache);
    PutLook(a, top, PathOf(va), leaf, r, PathOf(w));
    if Canonical(w) { ReachesIff(top, r, va, w); }
    MappedFrame(EntryOf(Look(a, top, PathOf(va))), pa, flags, cache, w);
  }

  lemma FlaggedFrame(e: bv64, flags: bv64, cache: Caching, w: bv64)
    ensures PhysicalAddress(1, FlagEntry(e, LeafFlags(flags, cache, false)), w) == PhysicalAddress(1, e, w)
  {
    LeafFlagsShape(flags, cache, false);
    FlaggedEntry(e, LeafFlags(flags, cache, false));
  }

  /** `set_flags` on a mapped 4 KiB page changes no translation. */
  lemma FlagMeans(a: Spaces, top: Table, va: bv64, flags: bv64, cache: Caching, r: Table, w: bv64)
    requires top in a.user && r in a.user && Canonical(va)
    requires Look(a, top, PathOf(va)).Leaf? && Look(a, top, PathOf(va)).level == 1
    ensures var b := Simple(a, Flag(top, va, flags, cache)); r in b.user && Seen(b, r, w) == Seen(a, r, w)
  {
    IndexSmall(va);
    IndexSmall(w);
    var leaf := FlagLeaf(Look(a, top, PathOf(va)), flags, cache);
    PutLook(a, top, PathOf(va), leaf, r, PathOf(w));
    FlaggedFrame(EntryOf(Look(a, top, PathOf(va))), flags, cache, w);
  }

  /** `unmap` takes the translation of its page away and of no other. */
  lemma UnmapMeans(a: Spaces, top: Table, va: bv64, r: Table, w: bv64)
    requires top in a.user && r in a.user && Canonical(va)
    ensures var b := Simple(a, Unmap(top, va));
            r in b.user && Seen(b, r, w) ==
              if Canonical(w) && SamePage(va, w) && Reaches(top, r, va) then None else Seen(a, r, w)
  {
    IndexSmall(va);
    IndexSmall(w);
    PutLook(a, top, PathOf(va), NotMapped, r, PathOf(w));
    if Canonical(w) { ReachesIff(top, r, va, w); }
  }

  lemma RemapIsMove(a: Spaces, top: Table, va: bv64, new_va: bv64, flags: bv64, cache: Caching)
    requires top in a.user
    ensures var frame := Address(EntryOf(Look(a, top, PathOf(va)))); var b := Simple(a, Unmap(top, va));
            && IsFrame(frame) && top in b.user
            && Simple(a, Remap(top, va, new_va, flags, cache)) == Simple(b, Map(top, new_va, frame, flags, cache))
  {
    AlignedPage(EntryOf(Look(a, top, PathOf(va))), 0);
  }

  /** `remap` moves the frame: the new page gets what the old one had, the old page is left without, the rest stays. */
  lemma RemapMeans(a: Spaces, top: Table, va: bv64, new_va: bv64, flags: bv64, cache: Caching, r: Table, w: bv64)
    requires top in a.user && r in a.user && Canonical(va) && Canonical(new_va)
    requires Look(a, top, PathOf(va)).Leaf? && Look(a, top, PathOf(va)).level == 1
    ensures var b := Simple(a, Remap(top, va, new_va, flags, cache));
            r in b.user && Seen(b, r, w) ==
              if Canonical(w) && SamePage(new_va, w) && Reaches(top, r, new_va)
              then Some(Address(EntryOf(Look(a, top, PathOf(va)))) | (w & 0xFFF))
              else if Canonical(w) && SamePage(va, w) && Reaches(top, r, va) then None
              else Seen(a, r, w)
  {
    var frame := Address(EntryOf(Look(a, top, PathOf(va))));
    RemapIsMove(a, top, va, new_va, flags, cache);
    UnmapMeans(a, top, va, r, w);
    MapMeans(Simple(a, Unmap(top, va)), top, new_va, frame, flags, cache, r, w);
  }
}
