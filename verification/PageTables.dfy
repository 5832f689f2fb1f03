/**
 The heap of page tables: the hardware's walk over it, the kernel's walk that allocates on the way,
 and the shape that makes them agree.
 */
module PageTables {
  import opened Options
  import opened PageEntry

  /** A page table, named by its physical address. */
  datatype Table = Table(at: bv64)

  /** A pointer to one entry of one table. */
  datatype Slot = Slot(table: Table, index: bv64)

  /** What the processor sees: the words of the tables (zero unless written), and whether it has 1 GiB pages. */
  datatype Memory = Memory(cells: map<Slot, bv64>, gib1: bool)

  /** The allocated tables, and the frames that the next allocations will return. */
  datatype Heap = Heap(mem: Memory, tables: set<Table>, pool: seq<Table>)

  function Read(m: Memory, s: Slot): bv64 { if s in m.cells then m.cells[s] else 0 }

  function Poke(m: Memory, s: Slot, v: bv64): Memory { m.(cells := m.cells[s := v]) }

  // ---------------------------------------------------------------------------------------------
  // The hardware walk (Intel SDM Volume 3A, section 4.5)
  // ---------------------------------------------------------------------------------------------

  datatype Leaf = NotMapped | Leaf(level: nat, entry: bv64)

  predicate IsLarge(leaf: Leaf) { leaf.Leaf? && leaf.level > 1 }

  /** What entry `e` means to a walk that still has the indices `path` to go, the first of them used to find `e`. */
  function HwStep(m: Memory, e: bv64, path: Path): Leaf
    requires path != []
    decreases |path|, 0
  {
    if !Present(e) then NotMapped
    else if |path| == 1 then Leaf(1, e)
    else if LargeBit(e) then (if |path| == 2 || (|path| == 3 && m.gib1) then Leaf(|path|, e) else NotMapped)
    else HwWalk(m, Table(Address(e)), path[1..])
  }

  function HwWalk(m: Memory, t: Table, path: Path): Leaf
    requires path != []
    decreases |path|, 1
  {
    HwStep(m, Read(m, Slot(t, path[0])), path)
  }

  function Join(frame: bv64, offset: bv64): bv64 { frame | offset }

  /** The physical address a leaf gives to a virtual address. */
  function PhysicalAddress(level: nat, e: bv64, va: bv64): bv64 {
    if level == 1 then Join(e & 0x000F_FFFF_FFFF_F000, va & 0xFFF)
    else if level == 2 then Join(e & 0x000F_FFFF_FFE0_0000, va & 0x1F_FFFF)
    else Join(e & 0x000F_FFFF_C000_0000, va & 0x3FFF_FFFF)
  }

  function Physical(leaf: Leaf, va: bv64): Option<bv64> {
    match leaf
    case NotMapped => None
    case Leaf(level, e) => Some(PhysicalAddress(level, e, va))
  }

  /** The hardware translation under the top-level table `top`. */
  function Translate(m: Memory, top: Table, va: bv64): Option<bv64> {
    if Canonical(va) then Physical(HwWalk(m, top, PathOf(va)), va) else None
  }

  // ---------------------------------------------------------------------------------------------
  // The kernel's walk
  // ---------------------------------------------------------------------------------------------

  /** A call either panics for lack of memory, and does not return, or returns a value and a new heap. */
  datatype Outcome<T> = Panic | Ret(heap: Heap, value: T)

  /** `new page_table_t`, hung below slot `s`. */
  function Grow(h: Heap, s: Slot): Heap
    requires h.pool != []
  {
    var f := h.pool[0];
    Heap(Poke(h.mem, s, TableEntry(Read(h.mem, s), f.at)), h.tables + {f}, h.pool[1..])
  }

  function NextLevel(h: Heap, t: Table, i: bv64, allocate: bool): Outcome<Option<Table>> {
    var e := Read(h.mem, Slot(t, i));
    if Present(e) then Ret(h, Some(Table(Address(e))))
    else if !allocate then Ret(h, None)
    else if h.pool == [] then Panic
    else Ret(Grow(h, Slot(t, i)), Some(h.pool[0]))
  }

  /** The slot at the end of `path` below table `t`. */
  function WalkDown(h: Heap, t: Table, path: Path, allocate: bool): Outcome<Option<Slot>>
    requires path != []
    decreases |path|
  {
    if |path| == 1 then Ret(h, Some(Slot(t, path[0])))
    else
      match NextLevel(h, t, path[0], allocate)
      case Panic => Panic
      case Ret(h1, None) => Ret(h1, None)
      case Ret(h1, Some(child)) => WalkDown(h1, child, path[1..], allocate)
  }

  /** The walk meets no large leaf before its last entry. */
  predicate Clean(m: Memory, t: Table, path: Path)
    requires path != []
    decreases |path|
  {
    |path| == 1 ||
    var e := Read(m, Slot(t, path[0]));
    !Present(e) || (!LargeBit(e) && Clean(m, Table(Address(e)), path[1..]))
  }

  // ---------------------------------------------------------------------------------------------
  // The shape of the heap
  // ---------------------------------------------------------------------------------------------

  datatype Owner = Kernel | Root(root: Table)

  /** Where a table hangs: under which address space, and at which indices from the top. */
  datatype Place = Place(owner: Owner, prefix: Path)

  type Places = map<Table, Place>

  /** The upper half of every address space hangs under the kernel. */
  function Below(p: Place, i: bv64): Place {
    Place(if p.prefix == [] && i >= 256 then Kernel else p.owner, p.prefix + [i])
  }

  predicate EntryOk(m: Memory, place: Places, p: Place, i: bv64, e: bv64) {
    e == 0 || (Present(e) && (
      || |p.prefix| == 3
      || (if LargeBit(e) then |p.prefix| == 2 || (|p.prefix| == 1 && m.gib1)
          else Table(Address(e)) in place && place[Table(Address(e))] == Below(p, i))))
  }

  ghost predicate Entries(m: Memory, place: Places) {
    forall t, i {:trigger Slot(t, i)} :: t in place ==> EntryOk(m, place, place[t], i, Read(m, Slot(t, i)))
  }

  predicate PoolOk(h: Heap) {
    && (forall k :: 0 <= k < |h.pool| ==> IsFrame(h.pool[k].at) && h.pool[k] !in h.tables)
    && (forall j, k :: 0 <= j < k < |h.pool| ==> h.pool[j] != h.pool[k])
  }

  /** Every table has one place, every entry that points on points to a table in the place below. */
  ghost predicate Tree(h: Heap, place: Places) {
    && place.Keys <= h.tables
    && (forall t :: t in place ==> |place[t].prefix| <= 3 && IsFrame(t.at))
    && (forall s :: s in h.mem.cells ==> s.table in h.tables)
    && Entries(h.mem, place)
    && PoolOk(h)
  }

  lemma Child(m: Memory, place: Places, t: Table, i: bv64)
    requires Entries(m, place) && t in place && |place[t].prefix| <= 2
    ensures var e := Read(m, Slot(t, i));
            Present(e) && !LargeBit(e) ==> Table(Address(e)) in place && place[Table(Address(e))] == Below(place[t], i)
  {
    assert EntryOk(m, place, place[t], i, Read(m, Slot(t, i)));
  }

  // ---------------------------------------------------------------------------------------------
  // Growing a table is invisible
  // ---------------------------------------------------------------------------------------------

  predicate CanGrow(h: Heap, place: Places, s: Slot) {
    s.table in place && |place[s.table].prefix| <= 2 && Read(h.mem, s) == 0
  }

  lemma FreshIsEmpty(m: Memory, t: Table, path: Path)
    requires path != [] && forall s :: s in m.cells ==> s.table != t
    ensures HwWalk(m, t, path) == NotMapped
  {
    assert Slot(t, path[0]).table == t;
    assert Read(m, Slot(t, path[0])) == 0;
  }

  /** A new table below an empty entry changes no translation. */
  lemma {:induction false} GrowInvisible(h: Heap, place: Places, s: Slot, t: Table, path: Path)
    requires Tree(h, place) && t in place && |place[t].prefix| + |path| == 4 && path != []
    requires h.pool != [] && CanGrow(h, place, s)
    ensures HwWalk(Grow(h, s).mem, t, path) == HwWalk(h.mem, t, path)
    decreases |path|
  {
    var m, n, f := h.mem, Grow(h, s).mem, h.pool[0];
    TableEntryShape(f.at);
    if Slot(t, path[0]) == s {
      assert f !in h.tables;
      forall c | c in n.cells ensures c.table != f {
        assert c == s || c in m.cells;
      }
      FreshIsEmpty(n, f, path[1..]);
    } else {
      var e := Read(m, Slot(t, path[0]));
      assert Read(n, Slot(t, path[0])) == e;
      if Present(e) && |path| > 1 && !LargeBit(e) {
        Child(m, place, t, path[0]);
        GrowInvisible(h, place, s, Table(Address(e)), path[1..]);
      }
    }
  }

  function Planted(h: Heap, place: Places, s: Slot): Places
    requires h.pool != [] && s.table in place
  {
    place[h.pool[0] := Below(place[s.table], s.index)]
  }

  lemma GrowTree(h: Heap, place: Places, s: Slot)
    requires Tree(h, place) && h.pool != [] && CanGrow(h, place, s)
    ensures Tree(Grow(h, s), Planted(h, place, s))
  {
    var f, g, now := h.pool[0], Grow(h, s), Planted(h, place, s);
    TableEntryShape(f.at);
    assert f !in h.tables;
    forall t, i | t in now
      ensures EntryOk(g.mem, now, now[t], i, Read(g.mem, Slot(t, i)))
    {
      if t == f {
        assert Slot(t, i).table == f;
        assert Slot(t, i) !in h.mem.cells && Slot(t, i) != s;
        assert Read(g.mem, Slot(t, i)) == 0;
      } else if Slot(t, i) == s {
        assert Read(g.mem, s) == TableEntry(0, f.at);
      } else {
        var e := Read(h.mem, Slot(t, i));
        assert t in place && now[t] == place[t];
        assert EntryOk(h.mem, place, place[t], i, e);
        assert Read(g.mem, Slot(t, i)) == e;
      }
    }
    forall t | t in now ensures |now[t].prefix| <= 3 && IsFrame(t.at) {
      if t != f { assert t in place && now[t] == place[t]; }
    }
    GrowPool(h, s);
  }

  lemma GrowPool(h: Heap, s: Slot)
    requires PoolOk(h) && h.pool != []
    ensures PoolOk(Grow(h, s))
  {
    var g := Grow(h, s);
    forall k | 0 <= k < |g.pool| ensures g.pool[k] == h.pool[k + 1] && h.pool[k + 1] != h.pool[0] {
    }
  }

  /** Every table of `place` is still where it was. */
  predicate Extends(place: Places, now: Places) { forall t :: t in place ==> t in now && now[t] == place[t] }

  /** Where the tables are after an allocating walk. */
  function PlacesAfter(h: Heap, place: Places, t: Table, path: Path): Places
    requires path != [] && t in place
    decreases |path|
  {
    if |path| == 1 then place
    else
      match NextLevel(h, t, path[0], true)
      case Panic => place
      case Ret(h1, None) => place
      case Ret(h1, Some(child)) =>
        var place1 := if Present(Read(h.mem, Slot(t, path[0]))) then place else Planted(h, place, Slot(t, path[0]));
        if child in place1 then PlacesAfter(h1, place1, child, path[1..]) else place
  }

  /** No translation, from any table, differs between two heaps. */
  ghost predicate SameWalks(m: Memory, n: Memory, place: Places) {
    forall t, path: Path {:trigger HwWalk(n, t, path)} ::
      t in place && path != [] && |place[t].prefix| + |path| == 4 ==> HwWalk(n, t, path) == HwWalk(m, t, path)
  }

  /** What an allocating walk leaves behind, apart from the slot it found. */
  ghost predicate Grown(h: Heap, place: Places, g: Heap, now: Places) {
    && Tree(g, now) && Extends(place, now) && SameWalks(h.mem, g.mem, place) && g.mem.gib1 == h.mem.gib1
    && (forall s {:trigger Read(g.mem, s)} :: Read(h.mem, s) != 0 ==> Read(g.mem, s) == Read(h.mem, s))
    && (forall t :: t in now ==> t in place || now[t].prefix != [])
  }

  lemma GrownOnce(h: Heap, place: Places, s: Slot)
    requires Tree(h, place) && h.pool != [] && CanGrow(h, place, s)
    ensures Grown(h, place, Grow(h, s), Planted(h, place, s))
  {
    GrowTree(h, place, s);
    assert h.pool[0] !in h.tables;
    forall t, path: Path | t in place && path != [] && |place[t].prefix| + |path| == 4
      ensures HwWalk(Grow(h, s).mem, t, path) == HwWalk(h.mem, t, path)
    {
      GrowInvisible(h, place, s, t, path);
    }
    assert forall c :: c != s ==> Read(Grow(h, s).mem, c) == Read(h.mem, c);
  }

  lemma GrownTrans(h: Heap, p0: Places, g: Heap, p1: Places, k: Heap, p2: Places)
    requires Grown(h, p0, g, p1) && Grown(g, p1, k, p2)
    ensures Grown(h, p0, k, p2)
  {
    forall t, path: Path | t in p0 && path != [] && |p0[t].prefix| + |path| == 4
      ensures HwWalk(k.mem, t, path) == HwWalk(h.mem, t, path)
    {
      assert HwWalk(g.mem, t, path) == HwWalk(h.mem, t, path);
    }
    forall s | Read(h.mem, s) != 0 ensures Read(k.mem, s) == Read(h.mem, s) {
      assert Read(g.mem, s) == Read(h.mem, s);
    }
  }

  /** A walk from `t` along `path` found `v`, at the place the path says, and changed no translation. */
  ghost predicate Walked(h: Heap, place: Places, t: Table, path: Path, g: Heap, now: Places, v: Option<Slot>)
    requires t in place && path != []
  {
    && Grown(h, place, g, now)
    && v.Some? && v.value.index == path[|path| - 1] && v.value.table in now
    && now[v.value.table] == Place(OwnerAt(place[t], path), place[t].prefix + path[..|path| - 1])
    && WalkDown(g, t, path, false) == Ret(g, v) && Clean(g.mem, t, path)
  }

  lemma WalkThrough(h: Heap, place: Places, t: Table, path: Path, g: Heap, now: Places, v: Option<Slot>)
    requires |path| > 1 && t in place && Slot(t, path[0]).table == t
    requires var e := Read(h.mem, Slot(t, path[0]));
             && Present(e) && !LargeBit(e) && Table(Address(e)) in place
             && place[Table(Address(e))] == Below(place[t], path[0])
             && Walked(h, place, Table(Address(e)), path[1..], g, now, v)
    ensures Walked(h, place, t, path, g, now, v)
  {
    var e := Read(h.mem, Slot(t, path[0]));
    assert Read(g.mem, Slot(t, path[0])) == e;
    StepDown(g, place, t, Table(Address(e)), path, v);
  }

  lemma WalkThroughNew(h: Heap, place: Places, t: Table, path: Path, g: Heap, now: Places, v: Option<Slot>)
    requires Tree(h, place) && |path| > 1 && t in place && h.pool != [] && CanGrow(h, place, Slot(t, path[0]))
    requires var s := Slot(t, path[0]);
             Walked(Grow(h, s), Planted(h, place, s), h.pool[0], path[1..], g, now, v)
    ensures Walked(h, place, t, path, g, now, v)
  {
    var s, f := Slot(t, path[0]), h.pool[0];
    GrownOnce(h, place, s);
    GrownTrans(h, place, Grow(h, s), Planted(h, place, s), g, now);
    TableEntryShape(f.at);
    assert Read(Grow(h, s).mem, s) == TableEntry(0, f.at);
    StepDown(g, place, t, f, path, v);
  }

  ghost predicate WalkOk(h: Heap, place: Places, t: Table, path: Path)
    requires t in place && path != []
  {
    var r := WalkDown(h, t, path, true);
    r.Ret? ==> Walked(h, place, t, path, r.heap, PlacesAfter(h, place, t, path), r.value)
  }

  lemma WalkOkPresent(h: Heap, place: Places, t: Table, path: Path, child: Table)
    requires Tree(h, place) && |path| > 1 && t in place && child in place && place[child] == Below(place[t], path[0])
    requires var e := Read(h.mem, Slot(t, path[0])); Present(e) && !LargeBit(e) && Table(Address(e)) == child
    requires WalkOk(h, place, child, path[1..])
    ensures WalkOk(h, place, t, path)
  {
    var r := WalkDown(h, child, path[1..], true);
    if r.Ret? { WalkThrough(h, place, t, path, r.heap, PlacesAfter(h, place, child, path[1..]), r.value); }
  }

  lemma WalkOkNew(h: Heap, place: Places, t: Table, path: Path)
    requires Tree(h, place) && |path| > 1 && t in place && h.pool != [] && CanGrow(h, place, Slot(t, path[0]))
    requires var s := Slot(t, path[0]); WalkOk(Grow(h, s), Planted(h, place, s), h.pool[0], path[1..])
    ensures WalkOk(h, place, t, path)
  {
    var g, now, f := Grow(h, Slot(t, path[0])), Planted(h, place, Slot(t, path[0])), h.pool[0];
    var r := WalkDown(g, f, path[1..], true);
    if r.Ret? { WalkThroughNew(h, place, t, path, r.heap, PlacesAfter(g, now, f, path[1..]), r.value); }
  }

  /** An allocating walk either panics or finds its slot, at the expected place, and changes no translation. */
  lemma {:induction false} WalkGrows(h: Heap, place: Places, t: Table, path: Path)
    requires Tree(h, place) && t in place && path != [] && |place[t].prefix| + |path| <= 4
    requires Clean(h.mem, t, path)
    ensures WalkOk(h, place, t, path)
    decreases |path|
  {
    if |path| > 1 {
      var s := Slot(t, path[0]);
      var e := Read(h.mem, s);
      assert EntryOk(h.mem, place, place[t], path[0], e);
      if Present(e) {
        WalkGrows(h, place, Table(Address(e)), path[1..]);
        WalkOkPresent(h, place, t, path, Table(Address(e)));
      } else if h.pool != [] {
        GrownIsClean(h, place, s, path[1..]);
        WalkGrows(Grow(h, s), Planted(h, place, s), h.pool[0], path[1..]);
        WalkOkNew(h, place, t, path);
      }
    }
  }

  lemma GrownIsClean(h: Heap, place: Places, s: Slot, path: Path)
    requires Tree(h, place) && h.pool != [] && CanGrow(h, place, s) && path != []
    ensures Tree(Grow(h, s), Planted(h, place, s)) && Clean(Grow(h, s).mem, h.pool[0], path)
  {
    GrowTree(h, place, s);
    var f := h.pool[0];
    assert Slot(f, path[0]).table == f && f !in h.tables;
    assert Read(Grow(h, s).mem, Slot(f, path[0])) == 0;
  }

  /** The owner of the table that holds the last entry of a path. */
  function OwnerAt(p: Place, path: Path): Owner
    requires path != []
  {
    if |path| > 1 && p.prefix == [] && path[0] >= 256 then Kernel else p.owner
  }

  lemma StepDown(g: Heap, place: Places, t: Table, child: Table, path: Path, v: Option<Slot>)
    requires |path| > 1 && t in place
    requires var e := Read(g.mem, Slot(t, path[0])); Present(e) && !LargeBit(e) && Table(Address(e)) == child
    requires WalkDown(g, child, path[1..], false) == Ret(g, v) && Clean(g.mem, child, path[1..])
    ensures WalkDown(g, t, path, false) == Ret(g, v) && Clean(g.mem, t, path)
    ensures path[1..][|path| - 2] == path[|path| - 1]
    ensures Below(place[t], path[0]).prefix + path[1..][..|path| - 2] == place[t].prefix + path[..|path| - 1]
  {
  }
}
