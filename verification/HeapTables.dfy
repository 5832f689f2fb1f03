/**
 Page tables in the heap: each is a block of 4096 bytes that `new` allocates, and its words are the
 entries that the processor reads.
 */
module HeapTables {
  import opened Options
  import opened Numbers
  import opened BitMath
  import opened ByteMemory
  import opened Words
  import opened Slots
  import opened SlabSpec
  import opened SlabHeap
  import opened SlabRuns
  import opened HeapPages
  import SlabAllocator
  import PhysicalSpec
  import PageEntry
  import T = PageTables
  import A = AddressSpaces
  import D = PagemapDestroy

  /** Physical addresses have at most 52 bits. */
  predicate Bounded(base: PhysicalSpec.Pages) { |base| * 0x1000 <= 0x10_0000_0000_0000 }

  /** The table at the physical address of `q`. */
  function TableOf(off: nat, q: nat): T.Table { T.Table(Bits(if off <= q < off + WORD then q - off else 0)) }

  /** The block at `q` of the direct map is page table `t`. */
  predicate IsHome(off: nat, b: Book, q: nat, t: T.Table) {
    && IsBlock(b, q) && Extent(b, q) == 0x1000 && q % 0x1000 == 0
    && off <= q && q - off < 0x10_0000_0000_0000 && (q - off) % 0x1000 == 0 && t == TableOf(off, q)
  }

  /** The words at `q` are the entries of table `t`. */
  ghost predicate Shows(m: Memory, q: nat, k: T.Memory, t: T.Table) {
    forall i: nat {:trigger Entry(m, q, i)} :: i < 512 ==> Entry(m, q, i) == T.Read(k, T.Slot(t, Index(i)))
  }

  function Entry(m: Memory, q: nat, i: nat): bv64 { Bits(WordAt(m, q + 8 * i)) }

  function WordAt(m: Memory, a: nat): (v: Word) {
    WordBounded(m, a);
    ReadWord(m, a)
  }

  function Index(i: nat): bv64
    requires i < 512
  {
    Bits(i)
  }

  lemma {:induction false} BytesBounded(m: Memory, a: nat, end: nat)
    requires a <= end
    ensures ReadBytes(m, a, end) < Power(256, end - a)
    decreases end - a
  {
    if a < end { BytesBounded(m, a + 1, end); }
  }

  lemma WordBounded(m: Memory, a: nat)
    ensures ReadWord(m, a) < WORD
  {
    assert Power(256, 2) == 0x1_0000 && Power(256, 4) == 0x1_0000_0000 && Power(256, 6) == 0x1_0000_0000_0000;
    assert Power(256, 8) == WORD;
    BytesBounded(m, a, a + 8);
  }

  lemma {:induction false} ZeroBytes(m: Memory, a: nat, end: nat)
    requires forall x: nat :: a <= x < end ==> m(x) == 0
    ensures ReadBytes(m, a, end) == 0
    decreases end - a
  {
    if a < end { ZeroBytes(m, a + 1, end); }
  }

  type Homes = map<T.Table, nat>

  /** Every page table has its block, with its entries in it. */
  ghost predicate Backed(off: nat, s: Store, b: Book, h: T.Heap, homes: Homes) {
    && homes.Keys == h.tables && (forall c :: c in h.mem.cells ==> c.table in h.tables)
    && forall t :: t in homes ==> IsHome(off, b, homes[t], t) && Shows(s.mem, homes[t], h.mem, t)
  }

  // ---------------------------------------------------------------------------------------------
  // Blocks and frames
  // ---------------------------------------------------------------------------------------------

  /** A big block lies in the direct map, on a page of its own. */
  lemma BigIsHigh(off: nat, b: Book, ps: Phys, base: PhysicalSpec.Pages, q: nat)
    requires BigsOk(b) && Linked(off, b, ps) && PhysicalSpec.Inv(ps, base) && Reserved(off, base) && Bounded(base)
    requires q in b.bigs && b.bigs[q].pages > 0
    ensures off <= q && q - off < 0x10_0000_0000_0000 && q % 0x1000 == 0 && (q - off) % 0x1000 == 0
  {
    assert BigOk(b, q) && Holds(off, ps, q - 0x1000, b.bigs[q].pages + 1);
    var p := Frame(off, q - 0x1000);
    assert q - off == (p + 1) * 0x1000;
  }

  /** Tables at different blocks are different. */
  lemma HomesApart(off: nat, b: Book, n: Book, q: nat, t: T.Table, a: nat, f: T.Table)
    requires IsHome(off, b, q, t) && IsHome(off, n, a, f) && q != a
    ensures t != f
  {
    if t == f { BitsInjective(q - off, a - off); }
  }

  /** What keeps a block of its extent, with its bytes, keeps the table in it. */
  lemma TableStays(off: nat, s: Store, b: Book, u: Store, n: Book, q: nat, t: T.Table, k: T.Memory)
    requires IsHome(off, b, q, t) && Shows(s.mem, q, k, t) && Same(s, b, u, n, q)
    ensures IsHome(off, n, q, t) && Shows(u.mem, q, k, t)
  {
    forall i: nat | i < 512 ensures Entry(u.mem, q, i) == T.Read(k, T.Slot(t, Index(i))) {
      ReadWordAgree(s.mem, u.mem, q + 8 * i);
      assert Entry(s.mem, q, i) == T.Read(k, T.Slot(t, Index(i)));
    }
  }

  /** A zeroed block is a table without entries. */
  lemma ZeroShows(m: Memory, q: nat, k: T.Memory, t: T.Table)
    requires forall x: nat :: q <= x < q + 0x1000 ==> m(x) == 0
    requires forall c :: c in k.cells ==> c.table != t
    ensures Shows(m, q, k, t)
  {
    forall i: nat | i < 512 ensures Entry(m, q, i) == T.Read(k, T.Slot(t, Index(i))) {
      ZeroBytes(m, q + 8 * i, q + 8 * i + 8);
    }
  }

  // ---------------------------------------------------------------------------------------------
  // new page_table_t
  // ---------------------------------------------------------------------------------------------

  lemma NoSlabForPage(c: nat)
    requires c < |SlabAllocator.SIZES|
    ensures SlabAllocator.SIZES[c] < 0x1000
  {
    SlabAllocator.SizesFit(c);
  }

  /** No slab holds a page: `malloc` takes the other path, with one page and its data page. */
  lemma PageIsBig(s: Store)
    requires s.sizes == SlabAllocator.SIZES
    ensures GetSlab(s.sizes, 0x1000, 0) == None && DivRoundup(0x1000, 0x1000) == 1
  {
    GetSlabFinds(s.sizes, 0x1000, 0);
    var r := GetSlab(s.sizes, 0x1000, 0);
    if r.Some? { NoSlabForPage(r.value); }
    OnePageIsEnough();
  }

  lemma OnePageIsEnough()
    ensures DivRoundup(0x1000, 0x1000) == 1
  {
    PageMask(0x1FFF);
  }

  /** A page can be allocated. */
  predicate CanNew(y: Sys) { |y.store.heads| == |y.store.sizes| && Built(y.store) && Can(y, Malloc(0x1000)) }

  /** The block that `new page_table_t` returns. */
  function NewBlock(y: Sys): nat
    requires CanNew(y)
  {
    SlabHeap.Malloc(y.store, 0x1000, PageOf(y, Malloc(0x1000))).1
  }

  function NewTable(y: Sys): T.Table
    requires CanNew(y)
  {
    TableOf(y.offset, NewBlock(y))
  }

  /** One page of one data page, zeroed, at no block before. */
  ghost predicate NewPage(b: Book, t: Store, n: Book, q: nat) {
    && !IsBlock(b, q) && q in n.bigs && n.bigs[q].pages == 1 && Extent(n, q) == 0x1000 && Inv(t, n)
    && forall x: nat :: q <= x < q + 0x1000 ==> t.mem(x) == 0
  }

  lemma MallocPage(s: Store, b: Book, page: nat)
    requires Inv(s, b) && s.sizes == SlabAllocator.SIZES && Supply(s, b, 0x1000, page)
    ensures |b.lists| == |s.sizes| == |b.shapes| && ShapesOk(b.shapes)
    ensures NewPage(b, SlabHeap.Malloc(s, 0x1000, page).0, BookMalloc(s, b, 0x1000, page), SlabHeap.Malloc(s, 0x1000, page).1)
    ensures SlabHeap.Malloc(s, 0x1000, page).0.sizes == s.sizes
  {
    InvSizes(s, b);
    PageIsBig(s);
    MallocGrows(s, b, 0x1000, page);
    MallocZeroes(s, b, 0x1000, page);
  }

  lemma GoesMalloc(y: Sys, base: PhysicalSpec.Pages, size: nat, z: Sys)
    requires SysInv(y, base) && Goes(y, base, Malloc(size), z)
    ensures Built(y.store) && |y.book.lists| == |y.store.sizes| == |y.book.shapes| && ShapesOk(y.book.shapes)
    ensures Can(y, Malloc(size)) && Supply(y.store, y.book, size, PageOf(y, Malloc(size)))
    ensures z.offset == y.offset && z.store == SlabHeap.Malloc(y.store, size, PageOf(y, Malloc(size))).0
    ensures z.book == BookMalloc(y.store, y.book, size, PageOf(y, Malloc(size)))
  {
    InvSizes(y.store, y.book);
    SupplyHolds(y.offset, y.store, y.book, y.phys, base, size);
  }

  /** The block is a page of its own, zeroed, and no block before. */
  lemma NewBlockIsPage(y: Sys, base: PhysicalSpec.Pages, z: Sys)
    requires SysInv(y, base) && Bounded(base) && y.store.sizes == SlabAllocator.SIZES && Goes(y, base, Malloc(0x1000), z)
    ensures CanNew(y)
    ensures var q := NewBlock(y);
            && NewPage(y.book, z.store, z.book, q) && z.store.sizes == y.store.sizes
            && IsHome(y.offset, z.book, q, NewTable(y))
  {
    GoesMalloc(y, base, 0x1000, z);
    MallocPage(y.store, y.book, PageOf(y, Malloc(0x1000)));
    NewBlockIsHigh(y, base, z);
  }

  lemma NewBlockIsHigh(y: Sys, base: PhysicalSpec.Pages, z: Sys)
    requires SysInv(y, base) && Bounded(base) && Goes(y, base, Malloc(0x1000), z) && z.offset == y.offset
    requires CanNew(y)
    requires NewPage(y.book, z.store, z.book, NewBlock(y))
    ensures IsHome(y.offset, z.book, NewBlock(y), NewTable(y))
  {
    GoesKeepsInv(y, base, Malloc(0x1000), z);
    PageIsHome(z, base, NewBlock(y));
  }

  lemma PageIsHome(z: Sys, base: PhysicalSpec.Pages, q: nat)
    requires SysInv(z, base) && Bounded(base) && q in z.book.bigs && z.book.bigs[q].pages == 1
    ensures IsHome(z.offset, z.book, q, TableOf(z.offset, q))
  {
    BigIsHigh(z.offset, z.book, z.phys, base, q);
  }

  // ---------------------------------------------------------------------------------------------
  // One call
  // ---------------------------------------------------------------------------------------------

  /** The block that a call acts on. */
  predicate ActsOnBlock(act: Act, x: nat) {
    match act
    case Malloc(_) => false
    case Free(ptr) => ptr == x
    case Realloc(ptr, _) => ptr == x
    case Write(block, _, _) => block == x
    case Other(_) => false
  }

  lemma StepKeepsSizes(s: Store, op: Op)
    requires Built(s)
    ensures Step(s, op).sizes == s.sizes
  {
  }

  /** A block that the call does not act on is still there, with the same bytes. */
  lemma GoesSame(y: Sys, base: PhysicalSpec.Pages, act: Act, z: Sys)
    requires SysInv(y, base) && Goes(y, base, act, z)
    ensures SysInv(z, base) && z.offset == y.offset && z.store.sizes == y.store.sizes
    ensures forall x :: IsBlock(y.book, x) && !ActsOnBlock(act, x) ==> Same(y.store, y.book, z.store, z.book, x)
  {
    GoesKeepsInv(y, base, act, z);
    if !act.Other? {
      var op := OpOf(act, PageOf(y, act));
      CanIsAllowed(y, base, act);
      StepIsOk(y.store, y.book, op);
      StepKeepsSizes(y.store, op);
      forall x | !ActsOnBlock(act, x) ensures !ActsOn(op, x) {}
    }
  }

  /** Tables whose blocks a call does not act on stay as they are. */
  lemma TablesStay(off: nat, s: Store, b: Book, u: Store, n: Book, h: T.Heap, homes: Homes, kept: Homes)
    requires Backed(off, s, b, h, homes) && kept.Keys <= homes.Keys && (forall t :: t in kept ==> kept[t] == homes[t])
    requires forall t :: t in kept ==> Same(s, b, u, n, kept[t])
    ensures forall t :: t in kept ==> IsHome(off, n, kept[t], t) && Shows(u.mem, kept[t], h.mem, t)
  {
    forall t | t in kept ensures IsHome(off, n, kept[t], t) && Shows(u.mem, kept[t], h.mem, t) {
      TableStays(off, s, b, u, n, kept[t], t, h.mem);
    }
  }

  // ---------------------------------------------------------------------------------------------
  // The page tables and everyone else
  // ---------------------------------------------------------------------------------------------

  /** The heap and the page allocator, the tables as the page maps see them, and the block of each. */
  datatype World = World(sys: Sys, tables: T.Heap, homes: Homes)

  /** `new page_table_t`, a write to an entry, `delete` of a table, or any call of anyone that leaves the tables' blocks alone. */
  datatype Turn = New | SetEntry(table: T.Table, index: nat, value: Word) | Delete(table: T.Table) | Call(act: Act)

  ghost predicate WorldOk(w: World, base: PhysicalSpec.Pages) {
    && SysInv(w.sys, base) && Bounded(base) && w.sys.store.sizes == SlabAllocator.SIZES
    && Backed(w.sys.offset, w.sys.store, w.sys.book, w.tables, w.homes)
  }

  function WithWord(y: Sys, a: nat, x: Word): Sys { y.(store := y.store.(mem := WriteWord(y.store.mem, a, x))) }

  ghost predicate TakesNew(w: World, base: PhysicalSpec.Pages, v: World)
    requires SysInv(w.sys, base)
  {
    && Goes(w.sys, base, Malloc(0x1000), v.sys) && CanNew(w.sys)
    && v.tables == w.tables.(tables := w.tables.tables + {NewTable(w.sys)})
    && v.homes == w.homes[NewTable(w.sys) := NewBlock(w.sys)]
  }

  ghost predicate TakesEntry(w: World, t: T.Table, i: nat, x: Word, v: World) {
    && t in w.homes && i < 512 && v.sys == WithWord(w.sys, w.homes[t] + 8 * i, x)
    && v.tables == w.tables.(mem := T.Poke(w.tables.mem, T.Slot(t, Index(i)), Bits(x))) && v.homes == w.homes
  }

  ghost predicate TakesDelete(w: World, base: PhysicalSpec.Pages, t: T.Table, v: World)
    requires SysInv(w.sys, base)
  {
    && t in w.homes && Goes(w.sys, base, Free(w.homes[t]), v.sys)
    && v.tables == D.Without(w.tables, {t}) && v.homes == w.homes - {t}
  }

  ghost predicate TakesCall(w: World, base: PhysicalSpec.Pages, act: Act, v: World)
    requires SysInv(w.sys, base)
  {
    && Goes(w.sys, base, act, v.sys) && (forall t :: t in w.homes ==> !ActsOnBlock(act, w.homes[t]))
    && v.tables == w.tables && v.homes == w.homes
  }

  ghost predicate Takes(w: World, base: PhysicalSpec.Pages, turn: Turn, v: World)
    requires WorldOk(w, base)
  {
    match turn
    case New => TakesNew(w, base, v)
    case SetEntry(t, i, x) => TakesEntry(w, t, i, x, v)
    case Delete(t) => TakesDelete(w, base, t, v)
    case Call(act) => TakesCall(w, base, act, v)
  }

  lemma FreshTable(off: nat, b: Book, n: Book, homes: Homes, q: nat, f: T.Table)
    requires (forall t :: t in homes ==> IsHome(off, b, homes[t], t)) && IsHome(off, n, q, f) && !IsBlock(b, q)
    ensures f !in homes
  {
    if f in homes { HomesApart(off, b, n, homes[f], f, q, f); }
  }

  /** Not a table yet, and at a frame: what the page maps ask of the next table. */
  predicate Joins(h: T.Heap, f: T.Table) { f !in h.tables && PageEntry.IsFrame(f.at) }

  lemma JoinsPool(h: T.Heap, f: T.Table)
    requires T.PoolOk(h) && Joins(h, f) && f !in h.pool
    ensures T.PoolOk(h.(pool := h.pool + [f]))
  {
  }

  /** The frame of a new table is in use by no other: it may join the pool of the page maps. */
  lemma NewTableIsFresh(w: World, base: PhysicalSpec.Pages, v: World)
    requires WorldOk(w, base) && TakesNew(w, base, v)
    ensures Joins(w.tables, NewTable(w.sys))
  {
    NewBlockIsPage(w.sys, base, v.sys);
    FreshFrame(w.sys.offset, w.sys.store, w.sys.book, v.sys.book, w.tables, w.homes, NewBlock(w.sys), NewTable(w.sys));
  }

  lemma FreshFrame(off: nat, s: Store, b: Book, n: Book, h: T.Heap, homes: Homes, q: nat, f: T.Table)
    requires Backed(off, s, b, h, homes) && IsHome(off, n, q, f) && !IsBlock(b, q)
    ensures Joins(h, f)
  {
    FreshTable(off, b, n, homes, q, f);
    FrameBits(q - off);
  }

  /** One table more. */
  lemma NewBacked(off: nat, s: Store, b: Book, u: Store, n: Book, h: T.Heap, homes: Homes, q: nat, f: T.Table)
    requires Backed(off, s, b, h, homes) && forall t :: t in homes ==> Same(s, b, u, n, homes[t])
    requires IsHome(off, n, q, f) && f !in h.tables && forall x: nat :: q <= x < q + 0x1000 ==> u.mem(x) == 0
    ensures Backed(off, u, n, h.(tables := h.tables + {f}), homes[f := q])
  {
    TablesStay(off, s, b, u, n, h, homes, homes);
    ZeroShows(u.mem, q, h.mem, f);
  }

  lemma NewKeepsOk(w: World, base: PhysicalSpec.Pages, v: World)
    requires WorldOk(w, base) && TakesNew(w, base, v)
    ensures WorldOk(v, base)
  {
    NewBlockIsPage(w.sys, base, v.sys);
    NewTableIsFresh(w, base, v);
    GoesSame(w.sys, base, Malloc(0x1000), v.sys);
    NewBacked(w.sys.offset, w.sys.store, w.sys.book, v.sys.store, v.sys.book, w.tables, w.homes, NewBlock(w.sys), NewTable(w.sys));
  }

  lemma CallKeepsOk(w: World, base: PhysicalSpec.Pages, act: Act, v: World)
    requires WorldOk(w, base) && TakesCall(w, base, act, v)
    ensures WorldOk(v, base)
  {
    GoesSame(w.sys, base, act, v.sys);
    TablesStay(w.sys.offset, w.sys.store, w.sys.book, v.sys.store, v.sys.book, w.tables, w.homes, w.homes);
  }

  /** `delete` of any table that there is is a call the heap allows. */
  lemma DeleteIsAllowed(w: World, base: PhysicalSpec.Pages, t: T.Table)
    requires WorldOk(w, base) && t in w.tables.tables
    ensures |w.sys.store.heads| == |w.sys.store.sizes| && Can(w.sys, Free(w.homes[t]))
  {
  }

  lemma ErasedShows(m: Memory, q: nat, k: T.Memory, t: T.Table, gone: T.Table)
    requires Shows(m, q, k, t) && t != gone
    ensures Shows(m, q, D.Erase(k, {gone}), t)
  {
    forall i: nat | i < 512 ensures Entry(m, q, i) == T.Read(D.Erase(k, {gone}), T.Slot(t, Index(i))) {
      assert Entry(m, q, i) == T.Read(k, T.Slot(t, Index(i)));
    }
  }

  lemma DeleteKeepsOk(w: World, base: PhysicalSpec.Pages, t: T.Table, v: World)
    requires WorldOk(w, base) && TakesDelete(w, base, t, v)
    ensures WorldOk(v, base)
  {
    var off, b := w.sys.offset, w.sys.book;
    GoesSame(w.sys, base, Free(w.homes[t]), v.sys);
    forall u | u in v.homes ensures w.homes[u] != w.homes[t] { }
    TablesStay(off, w.sys.store, b, v.sys.store, v.sys.book, w.tables, w.homes, v.homes);
    forall u | u in v.homes ensures Shows(v.sys.store.mem, v.homes[u], v.tables.mem, u) {
      ErasedShows(v.sys.store.mem, v.homes[u], w.tables.mem, u, t);
    }
  }

  // ---------------------------------------------------------------------------------------------
  // Writes to entries
  // ---------------------------------------------------------------------------------------------

  lemma IndexInjective(i: nat, j: nat)
    requires i < 512 && j < 512 && Index(i) == Index(j)
    ensures i == j
  {
    BitsInjective(i, j);
  }

  /** From `m` to `n` a word of the table at `q` is written, and from `k` to `g` its entry. */
  ghost predicate Written(m: Memory, n: Memory, k: T.Memory, g: T.Memory, q: nat, t: T.Table, i: nat, x: Word) {
    i < 512 && n == WriteWord(m, q + 8 * i, x) && g == T.Poke(k, T.Slot(t, Index(i)), Bits(x))
  }

  lemma EntryWritten(m: Memory, n: Memory, k: T.Memory, g: T.Memory, q: nat, t: T.Table, i: nat, x: Word, j: nat)
    requires Shows(m, q, k, t) && Written(m, n, k, g, q, t, i, x) && j < 512
    ensures Entry(n, q, j) == T.Read(g, T.Slot(t, Index(j)))
  {
    assert Entry(m, q, j) == T.Read(k, T.Slot(t, Index(j)));
    if i == j {
      ReadWordBack(m, q + 8 * i, x);
    } else {
      if Index(i) == Index(j) { IndexInjective(i, j); }
      WriteWordElsewhere(m, q + 8 * i, x);
      ReadWordAgree(m, n, q + 8 * j);
    }
  }

  /** The write is one of the owner of the block. */
  lemma EntryWriteKeepsHeap(y: Sys, base: PhysicalSpec.Pages, q: nat, i: nat, x: Word, z: Sys)
    requires z == WithWord(y, q + 8 * i, x) && i < 512
    requires IsBlock(y.book, q) && Extent(y.book, q) == 0x1000 && SysInv(y, base)
    ensures SysInv(z, base)
  {
    EntryWriteInside(y.store.mem, q, i, x);
    OwnerWrite(y.store, y.book, q, z.store.mem);
  }

  lemma EntryWriteInside(m: Memory, q: nat, i: nat, x: Word)
    requires i < 512
    ensures OnlyIn(m, WriteWord(m, q + 8 * i, x), q, 0x1000)
  {
    WriteWordElsewhere(m, q + 8 * i, x);
  }

  /** Of two tables each has its own bytes. */
  lemma TablesApart(s: Store, b: Book, off: nat, q: nat, t: T.Table, p: nat, u: T.Table)
    requires Inv(s, b) && IsHome(off, b, q, t) && IsHome(off, b, p, u) && t != u
    ensures Clear(p, 0x1000, q, 0x1000)
  {
    BlocksDisjoint(s, b, p, q);
  }

  lemma EntryKeepsOther(m: Memory, n: Memory, k: T.Memory, g: T.Memory, q: nat, t: T.Table, i: nat, x: Word, p: nat, u: T.Table)
    requires Written(m, n, k, g, q, t, i, x) && Clear(p, 0x1000, q, 0x1000) && t != u && Shows(m, p, k, u)
    ensures Shows(n, p, g, u)
  {
    WriteWordElsewhere(m, q + 8 * i, x);
    forall j: nat | j < 512 ensures Entry(n, p, j) == T.Read(g, T.Slot(u, Index(j))) {
      ReadWordAgree(m, n, p + 8 * j);
      assert Entry(m, p, j) == T.Read(k, T.Slot(u, Index(j)));
    }
  }

  lemma EntryKeepsOwn(m: Memory, n: Memory, k: T.Memory, g: T.Memory, q: nat, t: T.Table, i: nat, x: Word)
    requires Written(m, n, k, g, q, t, i, x) && Shows(m, q, k, t)
    ensures Shows(n, q, g, t)
  {
    forall j: nat | j < 512 ensures Entry(n, q, j) == T.Read(g, T.Slot(t, Index(j))) {
      EntryWritten(m, n, k, g, q, t, i, x, j);
    }
  }

  lemma EntryKeepsTable(off: nat, s: Store, b: Book, h: T.Heap, homes: Homes, n: Memory, g: T.Memory, t: T.Table, i: nat, x: Word, u: T.Table)
    requires Inv(s, b) && Backed(off, s, b, h, homes) && t in homes && u in homes && Written(s.mem, n, h.mem, g, homes[t], t, i, x)
    ensures Shows(n, homes[u], g, u)
  {
    if u == t {
      EntryKeepsOwn(s.mem, n, h.mem, g, homes[t], t, i, x);
    } else {
      TablesApart(s, b, off, homes[t], t, homes[u], u);
      EntryKeepsOther(s.mem, n, h.mem, g, homes[t], t, i, x, homes[u], u);
    }
  }

  lemma EntryBacked(off: nat, s: Store, b: Book, h: T.Heap, homes: Homes, t: T.Table, i: nat, x: Word, r: Store, g: T.Heap)
    requires Inv(s, b) && Backed(off, s, b, h, homes) && t in homes && Written(s.mem, r.mem, h.mem, g.mem, homes[t], t, i, x)
    requires g.tables == h.tables
    ensures Backed(off, r, b, g, homes)
  {
    forall u | u in homes ensures Shows(r.mem, homes[u], g.mem, u) {
      EntryKeepsTable(off, s, b, h, homes, r.mem, g.mem, t, i, x, u);
    }
  }

  lemma EntryFields(w: World, t: T.Table, i: nat, x: Word, v: World)
    requires TakesEntry(w, t, i, x, v)
    ensures Written(w.sys.store.mem, v.sys.store.mem, w.tables.mem, v.tables.mem, w.homes[t], t, i, x)
    ensures v.sys.offset == w.sys.offset && v.sys.book == w.sys.book && v.sys.store.sizes == w.sys.store.sizes
    ensures v.tables.tables == w.tables.tables && v.homes == w.homes && v.sys == WithWord(w.sys, w.homes[t] + 8 * i, x)
  {
  }

  lemma EntryKeepsBacked(w: World, t: T.Table, i: nat, x: Word, v: World)
    requires Inv(w.sys.store, w.sys.book) && Backed(w.sys.offset, w.sys.store, w.sys.book, w.tables, w.homes)
    requires TakesEntry(w, t, i, x, v)
    ensures Backed(v.sys.offset, v.sys.store, v.sys.book, v.tables, v.homes)
  {
    EntryFields(w, t, i, x, v);
    EntryBacked(w.sys.offset, w.sys.store, w.sys.book, w.tables, w.homes, t, i, x, v.sys.store, v.tables);
  }

  lemma EntryKeepsHeap(w: World, base: PhysicalSpec.Pages, t: T.Table, i: nat, x: Word, v: World)
    requires TakesEntry(w, t, i, x, v) && IsHome(w.sys.offset, w.sys.book, w.homes[t], t) && SysInv(w.sys, base)
    ensures SysInv(v.sys, base)
  {
    EntryFields(w, t, i, x, v);
    EntryWriteKeepsHeap(w.sys, base, w.homes[t], i, x, v.sys);
  }

  lemma EntryKeepsOk(w: World, base: PhysicalSpec.Pages, t: T.Table, i: nat, x: Word, v: World)
    requires WorldOk(w, base) && TakesEntry(w, t, i, x, v)
    ensures WorldOk(v, base)
  {
    EntryKeepsHeap(w, base, t, i, x, v);
    EntryKeepsBacked(w, t, i, x, v);
  }

  // ---------------------------------------------------------------------------------------------
  // Runs
  // ---------------------------------------------------------------------------------------------

  lemma TurnKeepsOk(w: World, base: PhysicalSpec.Pages, turn: Turn, v: World)
    requires WorldOk(w, base) && Takes(w, base, turn, v)
    ensures WorldOk(v, base)
  {
    match turn
    case New => NewKeepsOk(w, base, v);
    case SetEntry(t, i, x) => EntryKeepsOk(w, base, t, i, x, v);
    case Delete(t) => DeleteKeepsOk(w, base, t, v);
    case Call(act) => CallKeepsOk(w, base, act, v);
  }

  /** A turn in a state that is in order. */
  ghost predicate Turns(w: World, base: PhysicalSpec.Pages, turn: Turn, v: World) { WorldOk(w, base) && Takes(w, base, turn, v) }

  ghost predicate LeadsTo(w: World, base: PhysicalSpec.Pages, turns: seq<Turn>, v: World)
    decreases |turns|
  {
    if turns == [] then w == v
    else exists u {:trigger Turns(w, base, turns[0], u)} :: Turns(w, base, turns[0], u) && LeadsTo(u, base, turns[1..], v)
  }

  /**
   Whatever the rest of the kernel asks of the heap and of the page allocator, every page table keeps its block,
   and the bytes of that block are the entries that the page maps wrote.
   */
  lemma {:induction false} RunKeepsTables(w: World, base: PhysicalSpec.Pages, turns: seq<Turn>, v: World)
    requires WorldOk(w, base) && LeadsTo(w, base, turns, v)
    ensures WorldOk(v, base)
    decreases |turns|
  {
    if turns != [] {
      var u :| Turns(w, base, turns[0], u) && LeadsTo(u, base, turns[1..], v);
      TurnKeepsOk(w, base, turns[0], u);
      RunKeepsTables(u, base, turns[1..], v);
    }
  }

  // ---------------------------------------------------------------------------------------------
  // The end of an address space
  // ---------------------------------------------------------------------------------------------

  /** The system after a call that is allowed. */
  lemma GoesOn(y: Sys, base: PhysicalSpec.Pages, a: nat) returns (z: Sys)
    requires SysInv(y, base) && IsBlock(y.book, a)
    ensures Goes(y, base, Free(a), z)
  {
    InvSizes(y.store, y.book);
    var act := Free(a);
    CallKeepsLink(y, base, act);
    z := Sys(Step(y.store, OpOf(act, PageOf(y, act))), BookAfter(y, act), Returned(y.offset, PhysAsked(y, act), GivesBack(y.book, act)), y.offset);
  }

  lemma DeleteOne(w: World, base: PhysicalSpec.Pages, t: T.Table) returns (v: World)
    requires WorldOk(w, base) && t in w.homes
    ensures Turns(w, base, Delete(t), v) && WorldOk(v, base) && v.tables == D.Without(w.tables, {t})
  {
    var z := GoesOn(w.sys, base, w.homes[t]);
    v := World(z, D.Without(w.tables, {t}), w.homes - {t});
    DeleteKeepsOk(w, base, t, v);
  }

  lemma WithoutBoth(h: T.Heap, t: T.Table, gone: set<T.Table>)
    requires t in gone
    ensures D.Without(D.Without(h, {t}), gone - {t}) == D.Without(h, gone)
  {
    assert h.tables - {t} - (gone - {t}) == h.tables - gone;
  }

  lemma RunFrom(w: World, base: PhysicalSpec.Pages, turns: seq<Turn>, u: World, v: World)
    requires turns != [] && Turns(w, base, turns[0], u) && LeadsTo(u, base, turns[1..], v)
    ensures LeadsTo(w, base, turns, v)
  {
  }

  predicate OnlyDeletes(turns: seq<Turn>, gone: set<T.Table>) {
    |turns| == |gone| && forall i :: 0 <= i < |turns| ==> turns[i].Delete? && turns[i].table in gone
  }

  lemma OneMoreDelete(t: T.Table, more: seq<Turn>, gone: set<T.Table>)
    requires t in gone && OnlyDeletes(more, gone - {t})
    ensures OnlyDeletes([Delete(t)] + more, gone) && ([Delete(t)] + more)[1..] == more
  {
    assert ([Delete(t)] + more)[1..] == more;
  }

  lemma NothingDeleted(h: T.Heap)
    ensures D.Without(h, {}) == h && OnlyDeletes([], {})
  {
    assert h.tables - {} == h.tables;
  }

  /** Before the first page table. */
  lemma FirstWorld(y: Sys, base: PhysicalSpec.Pages, gib1: bool)
    requires SysInv(y, base) && Bounded(base) && y.store.sizes == SlabAllocator.SIZES
    ensures WorldOk(World(y, T.Heap(T.Memory(map[], gib1), {}, []), map[]), base)
  {
  }

  /** Any tables can be deleted one after the other, each once, and each `delete` is a call that the heap allows. */
  lemma {:induction false} DeleteAll(w: World, base: PhysicalSpec.Pages, gone: set<T.Table>)
    returns (turns: seq<Turn>, v: World)
    requires WorldOk(w, base) && gone <= w.tables.tables
    ensures LeadsTo(w, base, turns, v) && OnlyDeletes(turns, gone) && v.tables == D.Without(w.tables, gone)
    decreases |gone|
  {
    if gone == {} {
      NothingDeleted(w.tables);
      return [], w;
    }
    var t :| t in gone;
    var u := DeleteOne(w, base, t);
    var more;
    more, v := DeleteAll(u, base, gone - {t});
    WithoutBoth(w.tables, t, gone);
    OneMoreDelete(t, more, gone);
    turns := [Delete(t)] + more;
    RunFrom(w, base, turns, u, v);
  }

  /** What `destroy_pagemap` deletes are blocks of the heap, each deleted once, and what is left are the other tables. */
  lemma DestroyIsAllowed(w: World, base: PhysicalSpec.Pages, place: T.Places, roots: set<T.Table>, top: T.Table)
    returns (turns: seq<Turn>, v: World)
    requires WorldOk(w, base) && A.Inv(w.tables, place, roots) && top in roots && D.NoLarge(w.tables.mem, top, 4)
    ensures LeadsTo(w, base, turns, v) && OnlyDeletes(turns, D.Doomed(w.tables.mem, top))
    ensures v.tables == D.DestroyHeap(w.tables, top) && WorldOk(v, base)
  {
    forall t | t in D.Doomed(w.tables.mem, top) ensures t in w.tables.tables {
      D.DoomedIsOwn(w.tables, place, roots, top, t);
    }
    turns, v := DeleteAll(w, base, D.Doomed(w.tables.mem, top));
    RunKeepsTables(w, base, turns, v);
  }
}
