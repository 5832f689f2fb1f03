/**
 The heap as it starts: ten pages, one for each slab, that the page allocator hands out one by one.
 */
module HeapBoot {
  import opened Numbers
  import opened ByteMemory
  import opened SlabSpec
  import opened HeapPages
  import SlabAllocator
  import PhysicalSpec

  const SinglePage := PhysicalSpec.Alloc(1)

  // ---------------------------------------------------------------------------------------------
  // Single pages in a row
  // ---------------------------------------------------------------------------------------------

  /** The page allocator hands out `n` single pages in a row without a panic. */
  predicate Gives(ps: Phys, n: nat)
    decreases n
  {
    n == 0 || (PhysicalSpec.Allowed(ps, SinglePage) && Gives(PhysicalSpec.Next(ps, SinglePage), n - 1))
  }

  function PhysAfter(ps: Phys, n: nat): Phys
    requires Gives(ps, n)
    decreases n
  {
    if n == 0 then ps else PhysAfter(PhysicalSpec.Next(ps, SinglePage), n - 1)
  }

  /** The addresses of these pages. */
  function Taken(off: nat, ps: Phys, n: nat): (pages: seq<nat>)
    requires Gives(ps, n)
    ensures |pages| == n
    decreases n
  {
    if n == 0 then [] else [Picked(off, ps, 1)] + Taken(off, PhysicalSpec.Next(ps, SinglePage), n - 1)
  }

  lemma {:induction false} NoneFree(bits: PhysicalSpec.Pages)
    ensures PhysicalSpec.Clear(bits) == 0 <==> forall i :: 0 <= i < |bits| ==> bits[i]
  {
    if bits != [] {
      var n := |bits| - 1;
      NoneFree(bits[..n]);
      forall i | 0 <= i < n ensures bits[i] == bits[..n][i] {}
    }
  }

  /** It does so exactly when that many pages are free. */
  lemma {:induction false} GivesIff(ps: Phys, n: nat)
    requires ps.hint <= |ps.bits|
    ensures Gives(ps, n) <==> PhysicalSpec.Clear(ps.bits) >= n
    decreases n
  {
    if n > 0 {
      PhysicalSpec.OnePageWheneverFree(ps.bits, ps.hint);
      NoneFree(ps.bits);
      if PhysicalSpec.Allowed(ps, SinglePage) {
        PhysicalSpec.AllocConserves(ps, 1);
        PhysicalSpec.PickInside(ps.bits, ps.hint, 1);
        GivesIff(PhysicalSpec.Next(ps, SinglePage), n - 1);
      }
    }
  }

  lemma {:induction false} AfterKeepsInv(ps: Phys, base: PhysicalSpec.Pages, n: nat)
    requires PhysicalSpec.Inv(ps, base) && Gives(ps, n)
    ensures PhysicalSpec.Inv(PhysAfter(ps, n), base)
    decreases n
  {
    if n > 0 {
      PhysicalSpec.NextKeepsInv(ps, base, SinglePage);
      AfterKeepsInv(PhysicalSpec.Next(ps, SinglePage), base, n - 1);
    }
  }

  predicate OtherPage(at: nat, page: nat) { at + 0x1000 <= page || page + 0x1000 <= at }

  /** A page that is out already stays out, and no page taken later is the same. */
  lemma {:induction false} OutStaysOut(off: nat, ps: Phys, base: PhysicalSpec.Pages, n: nat, at: nat)
    requires PhysicalSpec.Inv(ps, base) && Gives(ps, n) && Holds(off, ps, at, 1)
    ensures Holds(off, PhysAfter(ps, n), at, 1) && forall d :: 0 <= d < n ==> OtherPage(at, Taken(off, ps, n)[d])
    decreases n
  {
    if n > 0 {
      var next := PhysicalSpec.Next(ps, SinglePage);
      PhysicalSpec.PickInside(ps.bits, ps.hint, 1);
      RunElsewhere(off, ps, base, PhysicalSpec.Pick(ps.bits, ps.hint, 1).value, 1, at, 1);
      TakenHolds(off, ps, base, 1, at, 1);
      PhysicalSpec.NextKeepsInv(ps, base, SinglePage);
      OutStaysOut(off, next, base, n - 1, at);
      forall d | 0 <= d < n ensures OtherPage(at, Taken(off, ps, n)[d]) {
        if d > 0 { assert Taken(off, ps, n)[d] == Taken(off, next, n - 1)[d - 1]; }
      }
    }
  }

  predicate PageAddress(a: nat) { a % 0x1000 == 0 && 0 < a && a + 0x1000 <= WORD }

  lemma PickedIsPage(off: nat, ps: Phys, base: PhysicalSpec.Pages)
    requires PhysicalSpec.Inv(ps, base) && Reserved(off, base) && PhysicalSpec.Allowed(ps, SinglePage)
    ensures PageAddress(Picked(off, ps, 1))
  {
    PhysicalSpec.PickInside(ps.bits, ps.hint, 1);
  }

  /** The pages taken are pages of the address space, all live runs of one page in the end, and apart. */
  ghost predicate Out(off: nat, ps: Phys, pages: seq<nat>) {
    && (forall c :: 0 <= c < |pages| ==> PageAddress(pages[c]) && Holds(off, ps, pages[c], 1))
    && (forall c, d :: 0 <= c < d < |pages| ==> OtherPage(pages[c], pages[d]))
  }

  lemma {:induction false} TakenAreOut(off: nat, ps: Phys, base: PhysicalSpec.Pages, n: nat)
    requires PhysicalSpec.Inv(ps, base) && Reserved(off, base) && Gives(ps, n)
    ensures Out(off, PhysAfter(ps, n), Taken(off, ps, n))
    decreases n
  {
    if n > 0 {
      var next, first := PhysicalSpec.Next(ps, SinglePage), Picked(off, ps, 1);
      PickedIsPage(off, ps, base);
      TakenHolds(off, ps, base, 1, 0, 0);
      PhysicalSpec.NextKeepsInv(ps, base, SinglePage);
      OutStaysOut(off, next, base, n - 1, first);
      TakenAreOut(off, next, base, n - 1);
      var pages, rest := Taken(off, ps, n), Taken(off, next, n - 1);
      assert pages == [first] + rest;
    }
  }

  // ---------------------------------------------------------------------------------------------
  // The constructor
  // ---------------------------------------------------------------------------------------------

  /** Ten free pages are all that the constructor of the allocator needs. */
  lemma TenPagesOut(off: nat, ps: Phys, base: PhysicalSpec.Pages)
    requires PhysicalSpec.Inv(ps, base) && Reserved(off, base) && PhysicalSpec.Clear(ps.bits) >= |SlabAllocator.SIZES|
    ensures Gives(ps, |SlabAllocator.SIZES|) && SlabAllocator.TenPages(Taken(off, ps, |SlabAllocator.SIZES|))
  {
    var n := |SlabAllocator.SIZES|;
    GivesIff(ps, n);
    TakenAreOut(off, ps, base, n);
  }

  /** A heap that owns some of these pages and has no block yet is linked to the page allocator. */
  lemma StartsLinked(off: nat, ps: Phys, base: PhysicalSpec.Pages, n: nat, s: Store, b: Book)
    requires PhysicalSpec.Inv(ps, base) && Reserved(off, base) && Gives(ps, n)
    requires Inv(s, b) && b.bigs == map[] && forall p :: p in b.owned ==> p in Taken(off, ps, n)
    ensures SysInv(Sys(s, b, PhysAfter(ps, n), off), base)
  {
    AfterKeepsInv(ps, base, n);
    TakenAreOut(off, ps, base, n);
  }

  /** The heap is built on the page allocator: whatever it did before, the first state of a combined run is in order. */
  method StartHeap(mem: Memory, at: nat, off: nat, ps: Phys, ghost base: PhysicalSpec.Pages) returns (heap: SlabAllocator.Allocator)
    requires PhysicalSpec.Inv(ps, base) && Reserved(off, base) && PhysicalSpec.Clear(ps.bits) >= |SlabAllocator.SIZES|
    requires SlabPointer(at, |SlabAllocator.SIZES|) <= WORD
    ensures fresh(heap) && Gives(ps, |SlabAllocator.SIZES|)
    ensures SysInv(Sys(heap.S(), heap.book, PhysAfter(ps, |SlabAllocator.SIZES|), off), base)
    ensures heap.book.live == {} && heap.book.bigs == map[] && heap.sizes == SlabAllocator.SIZES
  {
    TenPagesOut(off, ps, base);
    heap := new SlabAllocator.Allocator(mem, at, Taken(off, ps, |SlabAllocator.SIZES|));
    StartsLinked(off, ps, base, |SlabAllocator.SIZES|, heap.S(), heap.book);
  }
}
