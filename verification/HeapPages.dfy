/**
 The heap on top of the physical page allocator: the runs that `malloc` asks for are fresh, and the
 runs that the heap gives back are runs that it got.
 */
module HeapPages {
  import opened Options
  import opened Numbers
  import opened BitMath
  import opened ByteMemory
  import opened Slots
  import opened SlabSpec
  import opened SlabHeap
  import opened SlabRuns
  import PhysicalSpec

  type Phys = PhysicalSpec.State

  /** The address of a page in the direct map that begins at `off`. */
  function High(off: nat, p: nat): nat { p * 0x1000 + off }

  /** The page of an address in the direct map. */
  function Frame(off: nat, at: nat): nat { if at < off then 0 else (at - off) / 0x1000 }

  lemma FrameOfHigh(off: nat, p: nat)
    ensures Frame(off, High(off, p)) == p
  {
  }

  /** The `count` pages at address `at` of the direct map are a live run. */
  predicate Holds(off: nat, ps: Phys, at: nat, count: nat) {
    at == High(off, Frame(off, at)) && Frame(off, at) in ps.live && ps.live[Frame(off, at)] == count
  }

  /** Every page of a slab is a live run of one page, and every big block has one of its pages and its data page. */
  predicate Linked(off: nat, b: Book, ps: Phys) {
    && (forall p :: p in b.owned ==> Holds(off, ps, p, 1))
    && (forall q :: q in b.bigs ==> q >= 0x1000 && Holds(off, ps, q - 0x1000, b.bigs[q].pages + 1))
  }

  /** Page 0 is reserved, and the direct map begins on a page behind all physical addresses and does not wrap. */
  predicate Reserved(off: nat, base: PhysicalSpec.Pages) {
    (|base| > 0 ==> base[0]) && off % 0x1000 == 0 && |base| * 0x1000 <= off && High(off, |base|) <= WORD
  }

  lemma LiveRunApart(ps: Phys, base: PhysicalSpec.Pages, p: nat, n: nat, k: nat)
    requires PhysicalSpec.Inv(ps, base) && n > 0 && PhysicalSpec.RunFree(ps.bits, p, n) && k in ps.live
    ensures k + ps.live[k] <= p || p + n <= k
  {
    PhysicalSpec.FreeRunApart(ps, base, p, n);
    var i := Max(p, k);
    assert PhysicalSpec.Within(k, ps.live[k], i) ==> !PhysicalSpec.Within(p, n, i);
  }

  lemma RunElsewhere(off: nat, ps: Phys, base: PhysicalSpec.Pages, p: nat, n: nat, at: nat, count: nat)
    requires PhysicalSpec.Inv(ps, base) && n > 0 && PhysicalSpec.RunFree(ps.bits, p, n) && Holds(off, ps, at, count)
    ensures at + count * 0x1000 <= High(off, p) || High(off, p + n) <= at
  {
    LiveRunApart(ps, base, p, n, Frame(off, at));
  }

  /** The address of the run that the page allocator picks. */
  function Picked(off: nat, ps: Phys, n: nat): nat
    requires PhysicalSpec.Allowed(ps, PhysicalSpec.Alloc(n))
  {
    High(off, PhysicalSpec.Pick(ps.bits, ps.hint, n).value)
  }

  /** Whatever run the page allocator picks is fresh for the heap. */
  lemma PickedIsFresh(off: nat, b: Book, ps: Phys, base: PhysicalSpec.Pages, n: nat)
    requires Linked(off, b, ps) && PhysicalSpec.Inv(ps, base) && Reserved(off, base) && PhysicalSpec.Allowed(ps, PhysicalSpec.Alloc(n))
    ensures FreshRun(b, Picked(off, ps, n), n)
  {
    PhysicalSpec.PickInside(ps.bits, ps.hint, n);
    var p := PhysicalSpec.Pick(ps.bits, ps.hint, n).value;
    assert ps.bits[0] && !ps.bits[p];
    forall o | o in b.owned ensures o + 0x1000 <= High(off, p) || High(off, p + n) <= o {
      RunElsewhere(off, ps, base, p, n, o, 1);
    }
    forall q | q in b.bigs ensures RunEnd(b, q) <= High(off, p) || High(off, p + n) <= q - 0x1000 {
      RunElsewhere(off, ps, base, p, n, q - 0x1000, b.bigs[q].pages + 1);
    }
  }

  /** A run that the page allocator has just handed out changes no other live run. */
  lemma TakenHolds(off: nat, ps: Phys, base: PhysicalSpec.Pages, n: nat, at: nat, count: nat)
    requires PhysicalSpec.Inv(ps, base) && PhysicalSpec.Allowed(ps, PhysicalSpec.Alloc(n))
    ensures var next := PhysicalSpec.Next(ps, PhysicalSpec.Alloc(n));
            Holds(off, next, Picked(off, ps, n), n) && (Holds(off, ps, at, count) ==> Holds(off, next, at, count))
  {
    PhysicalSpec.PickInside(ps.bits, ps.hint, n);
    var p := PhysicalSpec.Pick(ps.bits, ps.hint, n).value;
    PhysicalSpec.FreeRunApart(ps, base, p, n);
    FrameOfHigh(off, p);
  }

  // ---------------------------------------------------------------------------------------------
  // malloc
  // ---------------------------------------------------------------------------------------------

  /** How many pages `malloc` asks for, if it asks. */
  function Wants(s: Store, size: nat): Option<nat>
    requires |s.heads| == |s.sizes|
  {
    GetSlabFinds(s.sizes, size, 0);
    match GetSlab(s.sizes, size, 0)
    case None => Some(DivRoundup(size, 0x1000) + 1)
    case Some(c) => if s.heads[c] == 0 then Some(1) else None
  }

  /** The page allocator does not panic. */
  predicate Served(off: nat, s: Store, ps: Phys, size: nat)
    requires |s.heads| == |s.sizes|
  {
    Wants(s, size).Some? ==> PhysicalSpec.Allowed(ps, PhysicalSpec.Alloc(Wants(s, size).value))
  }

  function PageFor(off: nat, s: Store, ps: Phys, size: nat): nat
    requires |s.heads| == |s.sizes| && Served(off, s, ps, size)
  {
    match Wants(s, size)
    case None => 0
    case Some(n) => Picked(off, ps, n)
  }

  function PhysFor(off: nat, s: Store, ps: Phys, size: nat): Phys
    requires |s.heads| == |s.sizes| && Served(off, s, ps, size)
  {
    match Wants(s, size)
    case None => ps
    case Some(n) => PhysicalSpec.Next(ps, PhysicalSpec.Alloc(n))
  }

  /** What `malloc` needs of the page allocator follows from the invariant of the page allocator. */
  lemma SupplyHolds(off: nat, s: Store, b: Book, ps: Phys, base: PhysicalSpec.Pages, size: nat)
    requires |s.heads| == |s.sizes| && Linked(off, b, ps) && PhysicalSpec.Inv(ps, base) && Reserved(off, base) && Served(off, s, ps, size)
    ensures Supply(s, b, size, PageFor(off, s, ps, size))
  {
    GetSlabFinds(s.sizes, size, 0);
    if Wants(s, size).Some? { PickedIsFresh(off, b, ps, base, Wants(s, size).value); }
  }

  lemma PhysForKeepsInv(off: nat, s: Store, ps: Phys, base: PhysicalSpec.Pages, size: nat)
    requires |s.heads| == |s.sizes| && PhysicalSpec.Inv(ps, base) && Served(off, s, ps, size)
    ensures PhysicalSpec.Inv(PhysFor(off, s, ps, size), base)
  {
    if Wants(s, size).Some? { PhysicalSpec.NextKeepsInv(ps, base, PhysicalSpec.Alloc(Wants(s, size).value)); }
  }

  /** A book with no more than one new slab page and one new big block, both live runs. */
  lemma LinkedMore(off: nat, b: Book, n: Book, ps: Phys, next: Phys, page: nat, count: nat)
    requires Linked(off, b, ps) && Holds(off, next, page, count)
    requires forall at: nat, k: nat {:trigger Holds(off, next, at, k)} :: Holds(off, ps, at, k) ==> Holds(off, next, at, k)
    requires forall p :: p in n.owned ==> p in b.owned || (p == page && count == 1)
    requires forall q :: q in n.bigs ==>
               (q in b.bigs && n.bigs[q] == b.bigs[q]) || (q == page + 0x1000 && n.bigs[q].pages + 1 == count)
    ensures Linked(off, n, next)
  {
  }

  lemma AllHold(off: nat, ps: Phys, base: PhysicalSpec.Pages, n: nat)
    requires PhysicalSpec.Inv(ps, base) && PhysicalSpec.Allowed(ps, PhysicalSpec.Alloc(n))
    ensures var next := PhysicalSpec.Next(ps, PhysicalSpec.Alloc(n));
            && Holds(off, next, Picked(off, ps, n), n)
            && forall at: nat, k: nat {:trigger Holds(off, next, at, k)} :: Holds(off, ps, at, k) ==> Holds(off, next, at, k)
  {
    TakenHolds(off, ps, base, n, 0, 0);
    forall at: nat, k: nat | Holds(off, ps, at, k) ensures Holds(off, PhysicalSpec.Next(ps, PhysicalSpec.Alloc(n)), at, k) {
      TakenHolds(off, ps, base, n, at, k);
    }
  }

  /** What the account of `malloc` adds. */
  lemma BookMallocAdds(s: Store, b: Book, size: nat, page: nat)
    requires Built(s) && |b.lists| == |s.sizes| == |b.shapes| && ShapesOk(b.shapes)
    ensures var n, wants := BookMalloc(s, b, size, page), Wants(s, size);
            && (forall p :: p in n.owned ==> p in b.owned || (p == page && wants == Some(1)))
            && (forall q :: q in n.bigs ==>
                  (q in b.bigs && n.bigs[q] == b.bigs[q]) || (q == page + 0x1000 && wants == Some(n.bigs[q].pages + 1)))
  {
    GetSlabFinds(s.sizes, size, 0);
  }

  lemma LinkedAfterMalloc(off: nat, s: Store, b: Book, ps: Phys, base: PhysicalSpec.Pages, size: nat)
    requires Built(s) && |b.lists| == |s.sizes| == |b.shapes| && ShapesOk(b.shapes)
    requires |s.heads| == |s.sizes| && Linked(off, b, ps) && PhysicalSpec.Inv(ps, base) && Served(off, s, ps, size)
    ensures Linked(off, BookMalloc(s, b, size, PageFor(off, s, ps, size)), PhysFor(off, s, ps, size))
  {
    var page := PageFor(off, s, ps, size);
    var n := BookMalloc(s, b, size, page);
    BookMallocAdds(s, b, size, page);
    match Wants(s, size)
    case None =>
    case Some(count) =>
      AllHold(off, ps, base, count);
      LinkedMore(off, b, n, ps, PhysFor(off, s, ps, size), page, count);
  }

  // ---------------------------------------------------------------------------------------------
  // free
  // ---------------------------------------------------------------------------------------------

  /** The run that goes back is freed as the whole run it is. */
  function Returned(off: nat, ps: Phys, back: Option<Run>): Phys
    requires back.Some? ==> PhysicalSpec.Allowed(ps, PhysicalSpec.Free(Frame(off, back.value.at)))
  {
    match back
    case None => ps
    case Some(run) => PhysicalSpec.Next(ps, PhysicalSpec.Free(Frame(off, run.at)))
  }

  /** Every run that the heap gives back is a live run, of just that many pages. */
  lemma BackIsLive(off: nat, b: Book, ps: Phys, base: PhysicalSpec.Pages, a: nat)
    requires Linked(off, b, ps) && PhysicalSpec.Inv(ps, base)
    ensures match GivenBack(b, a)
            case None => true
            case Some(run) => Holds(off, ps, run.at, run.count) && PhysicalSpec.Allowed(ps, PhysicalSpec.Free(Frame(off, run.at)))
  {
  }

  lemma OtherHolds(off: nat, ps: Phys, k: nat, at: nat, count: nat)
    requires PhysicalSpec.Allowed(ps, PhysicalSpec.Free(k)) && Holds(off, ps, at, count) && at != High(off, k)
    ensures Holds(off, PhysicalSpec.Next(ps, PhysicalSpec.Free(k)), at, count)
  {
  }

  lemma LinkedWithoutBig(off: nat, b: Book, ps: Phys, a: nat, k: nat)
    requires BigsOk(b) && a in b.bigs && a == High(off, k) + 0x1000 && Linked(off, b, ps)
    requires PhysicalSpec.Allowed(ps, PhysicalSpec.Free(k))
    ensures Linked(off, b.(bigs := b.bigs - {a}), PhysicalSpec.Next(ps, PhysicalSpec.Free(k)))
  {
    assert BigOk(b, a);
    var next := PhysicalSpec.Next(ps, PhysicalSpec.Free(k));
    forall p | p in b.owned ensures Holds(off, next, p, 1) { OtherHolds(off, ps, k, p, 1); }
    forall q | q in b.bigs - {a} ensures q >= 0x1000 && Holds(off, next, q - 0x1000, b.bigs[q].pages + 1) {
      OtherHolds(off, ps, k, q - 0x1000, b.bigs[q].pages + 1);
    }
  }

  lemma LinkedAfterBigFree(off: nat, b: Book, ps: Phys, base: PhysicalSpec.Pages, a: nat, k: nat)
    requires BigsOk(b) && a in b.bigs && a == High(off, k) + 0x1000 && Linked(off, b, ps) && PhysicalSpec.Inv(ps, base)
    requires PhysicalSpec.Allowed(ps, PhysicalSpec.Free(k))
    ensures var next := PhysicalSpec.Next(ps, PhysicalSpec.Free(k)); Linked(off, BookFree(b, a), next) && PhysicalSpec.Inv(next, base)
  {
    PhysicalSpec.NextKeepsInv(ps, base, PhysicalSpec.Free(k));
    LinkedWithoutBig(off, b, ps, a, k);
  }

  lemma LinkedAfterSmallFree(off: nat, b: Book, ps: Phys, a: nat)
    requires a !in b.bigs && Linked(off, b, ps)
    ensures Linked(off, BookFree(b, a), ps) && GivenBack(b, a) == None
  {
  }

  lemma BackOfBig(off: nat, b: Book, ps: Phys, a: nat) returns (k: nat)
    requires BigsOk(b) && a in b.bigs && Linked(off, b, ps)
    ensures a == High(off, k) + 0x1000 && GivenBack(b, a) == Some(Run(a - 0x1000, b.bigs[a].pages + 1)) && Frame(off, a - 0x1000) == k
  {
    k := Frame(off, a - 0x1000);
  }

  /** And it is linked to no other block. */
  lemma LinkedAfterFree(off: nat, b: Book, ps: Phys, base: PhysicalSpec.Pages, a: nat)
    requires BigsOk(b) && IsBlock(b, a) && Linked(off, b, ps) && PhysicalSpec.Inv(ps, base)
    requires GivenBack(b, a).Some? ==> PhysicalSpec.Allowed(ps, PhysicalSpec.Free(Frame(off, GivenBack(b, a).value.at)))
    ensures Linked(off, BookFree(b, a), Returned(off, ps, GivenBack(b, a))) && PhysicalSpec.Inv(Returned(off, ps, GivenBack(b, a)), base)
  {
    if a in b.bigs {
      var k := BackOfBig(off, b, ps, a);
      var next := ReturnedIs(off, ps, GivenBack(b, a), k);
      LinkedAfterBigFree(off, b, ps, base, a, k);
    } else {
      LinkedAfterSmallFree(off, b, ps, a);
    }
  }

  lemma ReturnedIs(off: nat, ps: Phys, back: Option<Run>, k: nat) returns (next: Phys)
    requires back.Some? && Frame(off, back.value.at) == k && PhysicalSpec.Allowed(ps, PhysicalSpec.Free(k))
    ensures next == Returned(off, ps, back) == PhysicalSpec.Next(ps, PhysicalSpec.Free(k))
  {
    next := Returned(off, ps, back);
  }

  // ---------------------------------------------------------------------------------------------
  // The heap, the page allocator and its other users
  // ---------------------------------------------------------------------------------------------

  datatype Sys = Sys(store: Store, book: Book, phys: Phys, offset: nat)

  /** A call of the heap, a write of a block's owner, or a call of the page allocator by someone else. */
  datatype Act =
    | Malloc(size: nat)
    | Free(ptr: nat)
    | Realloc(ptr: nat, size: nat)
    | Write(block: nat, offset: nat, value: Byte)
    | Other(call: PhysicalSpec.Call)

  ghost predicate SysInv(y: Sys, base: PhysicalSpec.Pages) {
    Inv(y.store, y.book) && PhysicalSpec.Inv(y.phys, base) && Linked(y.offset, y.book, y.phys) && Reserved(y.offset, base)
  }

  /** The call of the heap with the page it gets, whether it asks for pages, and what it gives back. */
  predicate Asks(b: Book, act: Act) {
    act.Malloc? || (act.Realloc? && (act.ptr == 0 || Moves(b, act.ptr, act.size)))
  }

  function GivesBack(b: Book, act: Act): Option<Run> {
    match act
    case Free(ptr) => if ptr == 0 then None else GivenBack(b, ptr)
    case Realloc(ptr, size) => if ptr == 0 || Stays(b, ptr, size) then None else GivenBack(b, ptr)
    case _ => None
  }

  function OpOf(act: Act, page: nat): Op
    requires !act.Other?
  {
    match act
    case Malloc(size) => CallMalloc(size, page)
    case Free(ptr) => CallFree(ptr)
    case Realloc(ptr, size) => CallRealloc(ptr, size, page)
    case Write(block, offset, value) => OwnerPut(block, offset, value)
  }

  /** What the caller owes, and that the page allocator does not panic; nothing is said of pages. */
  predicate Can(y: Sys, act: Act)
    requires |y.store.heads| == |y.store.sizes|
  {
    var s, b := y.store, y.book;
    && (Asks(b, act) ==> act.size < WORD && Served(y.offset, s, y.phys, act.size))
    && match act
       case Malloc(size) => true
       case Free(ptr) => ptr == 0 || IsBlock(b, ptr)
       case Realloc(ptr, size) => size < WORD && (ptr == 0 || IsBlock(b, ptr)) && (ptr != 0 && Moves(b, ptr, size) ==> Reasonable(s, size))
       case Write(block, offset, _) => IsBlock(b, block) && offset < Extent(b, block)
       case Other(call) => PhysicalSpec.Allowed(y.phys, call) && (call.Free? ==> !HeapRun(b, High(y.offset, call.page)))
  }

  /** The run at `at` belongs to the heap. */
  predicate HeapRun(b: Book, at: nat) { at in b.owned || at + 0x1000 in b.bigs }

  function PageOf(y: Sys, act: Act): nat
    requires |y.store.heads| == |y.store.sizes| && Can(y, act)
  {
    if Asks(y.book, act) then PageFor(y.offset, y.store, y.phys, act.size) else 0
  }

  function PhysAsked(y: Sys, act: Act): Phys
    requires |y.store.heads| == |y.store.sizes| && Can(y, act)
  {
    if Asks(y.book, act) then PhysFor(y.offset, y.store, y.phys, act.size) else y.phys
  }

  /** Every call finds what it needs of the page allocator. */
  lemma CanIsAllowed(y: Sys, base: PhysicalSpec.Pages, act: Act)
    requires SysInv(y, base) && Can(y, act) && !act.Other?
    ensures Allowed(y.store, y.book, OpOf(act, PageOf(y, act)))
  {
    if Asks(y.book, act) { SupplyHolds(y.offset, y.store, y.book, y.phys, base, act.size); }
  }

  /** The first half of a call: the pages it asks for are linked to the block it makes. */
  lemma AfterAsking(y: Sys, base: PhysicalSpec.Pages, size: nat)
    requires SysInv(y, base) && size < WORD && Served(y.offset, y.store, y.phys, size)
    ensures var b, next := y.book, PhysFor(y.offset, y.store, y.phys, size);
            && |b.lists| == |y.store.sizes| == |b.shapes| && ShapesOk(b.shapes)
            && var n := BookMalloc(y.store, b, size, PageFor(y.offset, y.store, y.phys, size));
               && Linked(y.offset, n, next) && PhysicalSpec.Inv(next, base) && BigsOk(n)
               && forall x :: IsBlock(b, x) ==> IsBlock(n, x) && GivenBack(n, x) == GivenBack(b, x)
  {
    var s, b := y.store, y.book;
    InvSizes(s, b);
    var page := PageFor(y.offset, s, y.phys, size);
    SupplyHolds(y.offset, s, b, y.phys, base, size);
    MallocGrows(s, b, size, page);
    LinkedAfterMalloc(y.offset, s, b, y.phys, base, size);
    PhysForKeepsInv(y.offset, s, y.phys, base, size);
    GivenBackSame(s, b, size, page);
  }

  lemma GivenBackSame(s: Store, b: Book, size: nat, page: nat)
    requires Built(s) && |b.lists| == |s.sizes| == |b.shapes| && ShapesOk(b.shapes)
    requires !IsBlock(b, SlabHeap.Malloc(s, size, page).1)
    ensures forall x :: IsBlock(b, x) ==> GivenBack(BookMalloc(s, b, size, page), x) == GivenBack(b, x)
  {
    GetSlabFinds(s.sizes, size, 0);
  }

  lemma LinkedResized(off: nat, b: Book, ps: Phys, a: nat, size: nat)
    requires a in b.bigs && Linked(off, b, ps)
    ensures Linked(off, Resized(b, a, size), ps)
  {
  }

  /** What is given back is what the code gives back. */
  lemma GivesBackIs(y: Sys, base: PhysicalSpec.Pages, act: Act)
    requires SysInv(y, base) && Can(y, act)
    ensures act.Free? ==> SlabHeap.Free(y.store, act.ptr).1 == GivesBack(y.book, act)
    ensures act.Realloc? ==> SlabHeap.Realloc(y.store, act.ptr, act.size, PageOf(y, act)).back == GivesBack(y.book, act)
  {
    var s, b := y.store, y.book;
    match act
    case Free(ptr) => if ptr != 0 { FreeShrinks(s, b, ptr); }
    case Realloc(ptr, size) =>
      if ptr != 0 {
        if Stays(b, ptr, size) { ReallocStays(s, b, ptr, size, PageOf(y, act)); }
        else if size == 0 { ReallocFrees(s, b, ptr, PageOf(y, act)); }
        else {
          SupplyHolds(y.offset, s, b, y.phys, base, size);
          ReallocMoves(s, b, ptr, size, PageOf(y, act));
        }
      }
    case _ =>
  }

  function BookAfter(y: Sys, act: Act): Book
    requires Built(y.store) && |y.book.lists| == |y.store.sizes| == |y.book.shapes| && ShapesOk(y.book.shapes)
    requires Can(y, act) && !act.Other?
  {
    BookStep(y.store, y.book, OpOf(act, PageOf(y, act)))
  }

  /** The run is live and can be freed, and afterwards the account `n` is linked. */
  ghost predicate Settled(off: nat, n: Book, ps: Phys, base: PhysicalSpec.Pages, back: Option<Run>) {
    && (back.Some? ==> Holds(off, ps, back.value.at, back.value.count) && PhysicalSpec.Allowed(ps, PhysicalSpec.Free(Frame(off, back.value.at))))
    && Linked(off, n, Returned(off, ps, back)) && PhysicalSpec.Inv(Returned(off, ps, back), base)
  }

  lemma ReallocKeepsLink(y: Sys, base: PhysicalSpec.Pages, a: nat, size: nat)
    requires SysInv(y, base) && Can(y, Realloc(a, size)) && a != 0
    ensures Built(y.store) && |y.book.lists| == |y.store.sizes| == |y.book.shapes| && ShapesOk(y.book.shapes)
    ensures Settled(y.offset, BookAfter(y, Realloc(a, size)), PhysAsked(y, Realloc(a, size)), base, GivesBack(y.book, Realloc(a, size)))
  {
    var b := y.book;
    InvSizes(y.store, b);
    if Stays(b, a, size) {
      LinkedResized(y.offset, b, y.phys, a, size);
    } else if size == 0 {
      FreeKeepsLink(y.offset, b, y.phys, base, a);
    } else {
      MoveKeepsLink(y, base, a, size);
    }
  }

  lemma MoveKeepsLink(y: Sys, base: PhysicalSpec.Pages, a: nat, size: nat)
    requires SysInv(y, base) && size < WORD && Served(y.offset, y.store, y.phys, size) && IsBlock(y.book, a)
    ensures Built(y.store) && |y.book.lists| == |y.store.sizes| == |y.book.shapes| && ShapesOk(y.book.shapes)
    ensures Settled(y.offset, BookMove(y.store, y.book, a, size, PageFor(y.offset, y.store, y.phys, size)),
                    PhysFor(y.offset, y.store, y.phys, size), base, GivenBack(y.book, a))
  {
    InvSizes(y.store, y.book);
    AfterAsking(y, base, size);
    var n := BookMalloc(y.store, y.book, size, PageFor(y.offset, y.store, y.phys, size));
    FreeKeepsLink(y.offset, n, PhysFor(y.offset, y.store, y.phys, size), base, a);
  }

  /** Each call keeps the link, and each run it gives back is a live run of the page allocator, freed as it was got. */
  lemma CallKeepsLink(y: Sys, base: PhysicalSpec.Pages, act: Act)
    requires SysInv(y, base) && Can(y, act) && !act.Other?
    ensures Built(y.store) && |y.book.lists| == |y.store.sizes| == |y.book.shapes| && ShapesOk(y.book.shapes)
    ensures Settled(y.offset, BookAfter(y, act), PhysAsked(y, act), base, GivesBack(y.book, act))
  {
    InvSizes(y.store, y.book);
    match act
    case Malloc(size) => AfterAsking(y, base, size);
    case Free(ptr) => if ptr != 0 { FreeKeepsLink(y.offset, y.book, y.phys, base, ptr); }
    case Realloc(ptr, size) => if ptr == 0 { AfterAsking(y, base, size); } else { ReallocKeepsLink(y, base, ptr, size); }
    case Write(_, _, _) =>
  }

  lemma FreeKeepsLink(off: nat, b: Book, ps: Phys, base: PhysicalSpec.Pages, a: nat)
    requires BigsOk(b) && IsBlock(b, a) && Linked(off, b, ps) && PhysicalSpec.Inv(ps, base)
    ensures Settled(off, BookFree(b, a), ps, base, GivenBack(b, a))
  {
    BackIsLive(off, b, ps, base, a);
    LinkedAfterFree(off, b, ps, base, a);
  }

  /** Every live run but the one that is freed is as it was. */
  ghost predicate HoldsOn(off: nat, ps: Phys, next: Phys, call: PhysicalSpec.Call) {
    forall at: nat, count: nat {:trigger Holds(off, next, at, count)} ::
      Holds(off, ps, at, count) && (call.Free? ==> at != High(off, call.page)) ==> Holds(off, next, at, count)
  }

  lemma OtherCallHoldsOn(off: nat, ps: Phys, base: PhysicalSpec.Pages, call: PhysicalSpec.Call)
    requires PhysicalSpec.Inv(ps, base) && PhysicalSpec.Allowed(ps, call)
    ensures HoldsOn(off, ps, PhysicalSpec.Next(ps, call), call)
  {
    forall at: nat, count: nat | Holds(off, ps, at, count) && (call.Free? ==> at != High(off, call.page))
      ensures Holds(off, PhysicalSpec.Next(ps, call), at, count)
    {
      OtherCallHolds(off, ps, base, call, at, count);
    }
  }

  lemma LinkedOn(off: nat, b: Book, ps: Phys, next: Phys, call: PhysicalSpec.Call)
    requires Linked(off, b, ps) && HoldsOn(off, ps, next, call) && (call.Free? ==> !HeapRun(b, High(off, call.page)))
    ensures Linked(off, b, next)
  {
    forall q | q in b.bigs ensures q >= 0x1000 && Holds(off, next, q - 0x1000, b.bigs[q].pages + 1) {
      assert q - 0x1000 + 0x1000 == q;
    }
  }

  /** Other users of the page allocator do not disturb the heap. */
  lemma OtherKeepsLink(y: Sys, base: PhysicalSpec.Pages, call: PhysicalSpec.Call)
    requires PhysicalSpec.Inv(y.phys, base) && Linked(y.offset, y.book, y.phys) && PhysicalSpec.Allowed(y.phys, call)
    requires call.Free? ==> !HeapRun(y.book, High(y.offset, call.page))
    ensures Linked(y.offset, y.book, PhysicalSpec.Next(y.phys, call)) && PhysicalSpec.Inv(PhysicalSpec.Next(y.phys, call), base)
  {
    PhysicalSpec.NextKeepsInv(y.phys, base, call);
    OtherCallHoldsOn(y.offset, y.phys, base, call);
    LinkedOn(y.offset, y.book, y.phys, PhysicalSpec.Next(y.phys, call), call);
  }

  lemma OtherCallHolds(off: nat, ps: Phys, base: PhysicalSpec.Pages, call: PhysicalSpec.Call, at: nat, count: nat)
    requires PhysicalSpec.Inv(ps, base) && PhysicalSpec.Allowed(ps, call) && Holds(off, ps, at, count)
    requires call.Free? ==> at != High(off, call.page)
    ensures Holds(off, PhysicalSpec.Next(ps, call), at, count)
  {
    match call
    case Alloc(n) => TakenHolds(off, ps, base, n, at, count);
    case Free(k) => OtherHolds(off, ps, k, at, count);
  }

  // ---------------------------------------------------------------------------------------------
  // Runs
  // ---------------------------------------------------------------------------------------------

  /** `z` follows from `y`: the call is carried out with the pages it gets, and its run goes back. */
  ghost predicate Goes(y: Sys, base: PhysicalSpec.Pages, act: Act, z: Sys)
    requires SysInv(y, base)
  {
    InvSizes(y.store, y.book);
    Can(y, act) &&
    if act.Other? then z == y.(phys := PhysicalSpec.Next(y.phys, act.call))
    else
      CallKeepsLink(y, base, act);
      z == Sys(Step(y.store, OpOf(act, PageOf(y, act))), BookAfter(y, act), Returned(y.offset, PhysAsked(y, act), GivesBack(y.book, act)), y.offset)
  }

  lemma GoesKeepsInv(y: Sys, base: PhysicalSpec.Pages, act: Act, z: Sys)
    requires SysInv(y, base) && Goes(y, base, act, z)
    ensures SysInv(z, base)
  {
    if act.Other? {
      OtherKeepsLink(y, base, act.call);
    } else {
      CallKeepsLink(y, base, act);
      CanIsAllowed(y, base, act);
      StepIsOk(y.store, y.book, OpOf(act, PageOf(y, act)));
    }
  }

  ghost predicate GoesAt(ys: seq<Sys>, acts: seq<Act>, base: PhysicalSpec.Pages, i: nat)
    requires |ys| == |acts| + 1 && i < |acts|
  {
    SysInv(ys[i], base) ==> Goes(ys[i], base, acts[i], ys[i + 1])
  }

  /** From a state that is in order, each state follows from the one before. */
  ghost predicate SysRun(ys: seq<Sys>, acts: seq<Act>, base: PhysicalSpec.Pages) {
    && |ys| == |acts| + 1 && SysInv(ys[0], base)
    && forall i: nat {:trigger GoesAt(ys, acts, base, i)} :: i < |acts| ==> GoesAt(ys, acts, base, i)
  }

  /** Over any run of the heap and of other users on one page allocator, the accounts of both hold and stay linked. */
  lemma {:induction false} SysRunKeepsInv(ys: seq<Sys>, acts: seq<Act>, base: PhysicalSpec.Pages, n: nat)
    requires SysRun(ys, acts, base) && n < |ys|
    ensures SysInv(ys[n], base)
  {
    if n > 0 {
      SysRunKeepsInv(ys, acts, base, n - 1);
      assert GoesAt(ys, acts, base, n - 1);
      GoesKeepsInv(ys[n - 1], base, acts[n - 1], ys[n]);
    }
  }
}
