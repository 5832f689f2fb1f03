/**
 The slab allocator as it runs: list heads and in-page links updated in place.
 */
module SlabAllocator {
  import opened Options
  import opened Numbers
  import opened BitMath
  import opened ByteMemory
  import opened Slots
  import opened SlabSpec
  import opened SlabSteps
  import opened SlabHeap
  import opened SlabRuns

  /** The slab sizes. */
  const SIZES: seq<nat> := [16, 32, 48, 80, 128, 192, 288, 448, 672, 1024]

  /** Each size gives a good shape. */
  lemma SizesFit(c: nat)
    requires c < |SIZES|
    ensures SIZES[c] % 16 == 0 && 16 <= SIZES[c] <= 1024
    ensures ShapeOk(ShapeOfSize(SIZES[c])) && ShapeOfSize(SIZES[c]).span == LowBit(SIZES[c])
  {
    assert SIZES[c] % 16 == 0 && 16 <= SIZES[c] <= 1024;
    ShapeFits(SIZES[c]);
  }

  function Start(mem: Memory, at: nat): Store { Store(mem, at, SIZES, seq(|SIZES|, _ => 0)) }

  function NoBook(s: Store): Book { Book(Shapes(s), map[], seq(|s.heads|, _ => []), {}, map[]) }

  lemma StartInv(mem: Memory, at: nat)
    requires SlabPointer(at, |SIZES|) <= WORD
    ensures Inv(Start(mem, at), NoBook(Start(mem, at)))
  {
    var s := Start(mem, at);
    var b := NoBook(s);
    forall c | 0 <= c < |SIZES| ensures ShapeOk(ShapeOfSize(s.sizes[c])) { SizesFit(c); }
    assert SlotsOk(b);
    assert ChainsOk(s.mem, s.heads, b.lists);
  }

  /** Ten pages from the physical allocator. */
  predicate TenPages(pages: seq<nat>) {
    && |pages| == |SIZES|
    && (forall c :: 0 <= c < |pages| ==> pages[c] % 0x1000 == 0 && 0 < pages[c] && pages[c] + 0x1000 <= WORD)
    && (forall c, d :: 0 <= c < d < |pages| ==> pages[c] + 0x1000 <= pages[d] || pages[d] + 0x1000 <= pages[c])
  }

  /** The first `c` of the pages. */
  function Given(pages: seq<nat>, c: nat): set<nat>
    requires c <= |pages|
  {
    set p | p in pages[..c]
  }

  lemma GivenMore(pages: seq<nat>, c: nat)
    requires c < |pages|
    ensures Given(pages, c + 1) == Given(pages, c) + {pages[c]}
  {
  }

  class Allocator {
    const at: nat
    var mem: Memory
    var sizes: seq<nat>
    var heads: seq<nat>
    ghost var book: Book

    function S(): Store
      reads this
    {
      Store(mem, at, sizes, heads)
    }

    ghost predicate Valid()
      reads this
    {
      Inv(S(), book)
    }

    /** The first `c` slabs have their page, and the lists of the others are empty. */
    ghost predicate Starting(pages: seq<nat>, c: nat)
      reads this
    {
      && c <= |SIZES| && c <= |pages| && sizes == SIZES && Valid() && book.live == {} && book.bigs == map[]
      && book.owned.Keys == Given(pages, c)
      && (forall d :: 0 <= d < |heads| ==> (heads[d] == 0 <==> c <= d))
    }

    constructor (mem: Memory, at: nat, pages: seq<nat>)
      requires SlabPointer(at, |SIZES|) <= WORD && TenPages(pages)
      ensures Starting(pages, |SIZES|)
    {
      this.mem, this.at, sizes, heads := mem, at, SIZES, seq(|SIZES|, _ => 0);
      book := NoBook(Start(mem, at));
      new;
      StartInv(mem, at);
      var c := 0;
      while c < |SIZES|
        invariant Starting(pages, c)
      {
        AddSlab(pages, c);
        c := c + 1;
      }
    }

    /** The page of slab `c`. */
    method AddSlab(pages: seq<nat>, c: nat)
      requires c < |SIZES| && TenPages(pages) && Starting(pages, c)
      modifies this
      ensures Starting(pages, c + 1)
    {
      FreshPage(pages, c);
      InitKeepsInv(S(), book, c, pages[c]);
      GivenMore(pages, c);
      ghost var next := AddPage(book, c, pages[c]);
      Init(c, SIZES[c], pages[c]);
      book := next;
    }

    lemma FreshPage(pages: seq<nat>, c: nat)
      requires c < |SIZES| && TenPages(pages) && Starting(pages, c)
      ensures FreshRun(book, pages[c], 1)
    {
    }

    method Init(c: nat, size: nat, page: nat)
      requires Built(S()) && c < |heads| && sizes[c] == size
      modifies this`mem, this`sizes, this`heads
      ensures S() == InitSlab(old(S()), c, page)
    {
      ghost var h := ShapeOfSize(size);
      CountFits(h);
      sizes := sizes[c := size];
      mem := Fill(mem, page, 0x1000, 0);
      heads := heads[c := page];
      var available := 0x1000 - AlignUp(8, size);
      mem := WriteWord(mem, page, SlabPointer(at, c));
      heads := heads[c := page + AlignUp(8, size)];
      var array_at := heads[c];
      LinkSlots(array_at, size, available / size - 1, h, page);
    }

    /** The linking loop of `init`. */
    method LinkSlots(array_at: nat, size: nat, max: nat, ghost h: Shape, ghost page: nat)
      requires ShapeOk(h) && h.size == size && array_at == page + h.span && max + 1 == Count(h)
      modifies this`mem
      ensures mem == Thread(old(mem), h, page, 0)
    {
      var count := size / 8;
      var i := 0;
      while i < max
        invariant i <= max && Thread(mem, h, page, i) == Thread(old(mem), h, page, 0)
      {
        var here := Cell(array_at, count, i, h, page);
        var next := Cell(array_at, count, i + 1, h, page);
        mem := WriteWord(mem, here, next);
        i := i + 1;
      }
      var last := Cell(array_at, count, max, h, page);
      mem := WriteWord(mem, last, 0);
    }

    method Alloc(c: nat, page: nat) returns (ptr: nat)
      requires Built(S()) && c < |heads|
      modifies this`mem, this`sizes, this`heads
      ensures (S(), ptr) == SlabAlloc(old(S()), c, page)
    {
      if heads[c] == 0 { Init(c, sizes[c], page); }
      ptr := heads[c];
      heads := heads[c := ReadWord(mem, ptr)];
      mem := Fill(mem, ptr, sizes[c], 0);
    }

    method FreeSlot(c: nat, ptr: nat)
      requires c < |heads| && ptr != 0
      modifies this`mem, this`heads
      ensures S() == SlabFree(old(S()), c, ptr)
    {
      mem := WriteWord(mem, ptr, heads[c]);
      heads := heads[c := ptr];
    }

    method FindSlab(size: nat) returns (r: Option<nat>)
      ensures r == GetSlab(sizes, size, 0)
    {
      var c := 0;
      while c < |sizes|
        invariant c <= |sizes| && GetSlab(sizes, size, c) == GetSlab(sizes, size, 0)
      {
        if sizes[c] >= size { return Some(c); }
        c := c + 1;
      }
      r := None;
    }

    method MallocBig(size: nat, page: nat) returns (ptr: nat)
      modifies this`mem
      ensures (S(), ptr) == BigMalloc(old(S()), size, page)
    {
      var pages := DivRoundup(size, 0x1000);
      mem := Fill(mem, page, (pages + 1) * 0x1000, 0);
      mem := WriteWord(mem, page, pages);
      mem := WriteWord(mem, page + 8, size);
      ptr := page + 0x1000;
    }

    method RawMalloc(size: nat, page: nat) returns (ptr: nat)
      requires Built(S())
      modifies this`mem, this`sizes, this`heads
      ensures (S(), ptr) == SlabHeap.Malloc(old(S()), size, page)
    {
      GetSlabFinds(sizes, size, 0);
      var slab := FindSlab(size);
      if slab == None { ptr := MallocBig(size, page); } else { ptr := Alloc(slab.value, page); }
    }

    /** `malloc`; `page` is what the physical allocator returns if it is asked. */
    method Malloc(size: nat, page: nat) returns (ptr: nat)
      requires Valid() && size < WORD && Supply(S(), book, size, page)
      modifies this
      ensures (S(), ptr) == SlabHeap.Malloc(old(S()), size, page)
      ensures Valid() && Grown(old(S()), old(book), S(), book, ptr)
      ensures Extent(book, ptr) >= size <==> Reasonable(old(S()), size)
    {
      MallocGrows(S(), book, size, page);
      ghost var next := BookMalloc(S(), book, size, page);
      ptr := RawMalloc(size, page);
      book := next;
    }

    method RawFree(ptr: nat) returns (back: Option<Run>)
      requires Built(S()) && (ptr != 0 && ptr % 0x1000 != 0 ==> ClassOf(S(), ptr) < |heads|)
      modifies this`mem, this`heads
      ensures (S(), back) == SlabHeap.Free(old(S()), ptr)
    {
      if ptr == 0 { return None; }
      if ptr % 0x1000 == 0 {
        return Some(Run(ptr - 0x1000, ReadWord(mem, ptr - 0x1000) + 1));
      }
      var slab := ReadWord(mem, AlignDown(ptr, 0x1000));
      FreeSlot(ClassAt(at, slab), ptr);
      back := None;
    }

    /** `free` of a live block, or of nothing; the run it gives back goes to the physical allocator. */
    method Free(ptr: nat) returns (back: Option<Run>)
      requires Valid() && (ptr == 0 || IsBlock(book, ptr))
      modifies this
      ensures (S(), back) == SlabHeap.Free(old(S()), ptr) && Valid()
      ensures if ptr == 0 then S() == old(S()) && back == None
              else Shrunk(old(S()), old(book), S(), book, ptr) && back == GivenBack(old(book), ptr)
    {
      if ptr == 0 { return None; }
      FreeShrinks(S(), book, ptr);
      BlockClass(S(), book, ptr);
      ghost var next := BookFree(book, ptr);
      back := RawFree(ptr);
      book := next;
    }

    /** The slab that the header names. */
    method SlabOf(ptr: nat) returns (c: nat)
      requires Valid() && ptr in book.live
      ensures c == ClassOf(S(), ptr) && c < |heads| == |sizes| && sizes[c] == Reported(book, ptr)
    {
      HeaderNamesSlab(S(), book, ptr);
      DispatchIsRight(S(), book, ptr);
      c := ClassAt(at, ReadWord(mem, AlignDown(ptr, 0x1000)));
    }

    method AllocSize(ptr: nat) returns (size: nat)
      requires Valid() && (ptr == 0 || IsBlock(book, ptr))
      ensures size == if ptr == 0 then 0 else Reported(book, ptr)
    {
      if ptr == 0 { return 0; }
      AllocSizeIsReported(S(), book, ptr);
      DispatchIsRight(S(), book, ptr);
      if ptr % 0x1000 == 0 { return ReadWord(mem, ptr - 0x1000 + 8); }
      var c := SlabOf(ptr);
      size := sizes[c];
    }

    /** Allocate, copy, free: the steps at the end of both paths of `realloc`. */
    method RawMove(old_ptr: nat, size: nat, n: nat, page: nat) returns (ptr: nat, back: Option<Run>)
      requires Built(S()) && Movable(S(), old_ptr, size, n, page)
      modifies this`mem, this`sizes, this`heads
      ensures Moved(S(), ptr, back) == Move(old(S()), old_ptr, size, n, page)
    {
      ptr := RawMalloc(size, page);
      mem := Copy(mem, ptr, old_ptr, n);
      back := RawFree(old_ptr);
    }

    method MoveBlock(old_ptr: nat, size: nat, old_size: nat, page: nat) returns (ptr: nat, back: Option<Run>)
      requires Valid() && IsBlock(book, old_ptr) && size < WORD && Supply(S(), book, size, page) && Reasonable(S(), size)
      modifies this
      ensures var n := Min(size, old_size);
              && Moved(S(), ptr, back) == Move(old(S()), old_ptr, size, n, page)
              && MovedTo(old(S()), old(book), S(), book, old_ptr, ptr, n) && back == GivenBack(old(book), old_ptr)
    {
      var n := old_size;
      if size < n { n := size; }
      MoveMoves(S(), book, old_ptr, size, n, page);
      MoveClass(S(), book, old_ptr, size, n, page);
      ghost var next := BookMove(S(), book, old_ptr, size, page);
      ptr, back := RawMove(old_ptr, size, n, page);
      book := next;
    }

    method Realloc(old_ptr: nat, size: nat, page: nat) returns (ptr: nat, back: Option<Run>)
      requires Valid() && Allowed(S(), book, CallRealloc(old_ptr, size, page))
      modifies this
      ensures Moved(S(), ptr, back) == SlabHeap.Realloc(old(S()), old_ptr, size, page) && Valid()
      ensures StepOk(old(S()), old(book), S(), book, CallRealloc(old_ptr, size, page))
    {
      ghost var op := CallRealloc(old_ptr, size, page);
      StepIsOk(S(), book, op);
      ghost var next := BookStep(S(), book, op);
      if old_ptr == 0 {
        ptr := Malloc(size, page);
        back := None;
      } else {
        ReallocPath(S(), book, old_ptr);
        var old_size := AllocSize(old_ptr);
        if old_ptr % 0x1000 == 0 && DivRoundup(old_size, 0x1000) == DivRoundup(size, 0x1000) {
          mem := WriteWord(mem, old_ptr - 0x1000 + 8, size);
          ptr, back := 0, None;
        } else if size == 0 {
          back := Free(old_ptr);
          ptr := 0;
        } else {
          ptr, back := MoveBlock(old_ptr, size, old_size, page);
        }
      }
      book := next;
    }
  }

  lemma BlockClass(s: Store, b: Book, a: nat)
    requires Inv(s, b) && IsBlock(b, a)
    ensures Built(s) && (a % 0x1000 != 0 ==> ClassOf(s, a) < |s.heads|)
  {
    DispatchIsRight(s, b, a);
    if a in b.live { HeaderNamesSlab(s, b, a); }
  }

  /** After the copy, the old block's header still names a slab. */
  predicate Movable(s: Store, a: nat, size: nat, n: nat, page: nat)
    requires Built(s)
  {
    var (t, ptr) := SlabHeap.Malloc(s, size, page); var u := t.(mem := Copy(t.mem, ptr, a, n));
    ptr != 0 && Built(t) && Built(u) && (a % 0x1000 != 0 ==> ClassOf(u, a) < |u.heads|)
  }

  lemma MoveClass(s: Store, b: Book, a: nat, size: nat, n: nat, page: nat)
    requires Inv(s, b) && IsBlock(b, a) && size < WORD && n <= size && Supply(s, b, size, page) && Reasonable(s, size)
    ensures Built(s) && Movable(s, a, size, n, page)
  {
    MallocGrows(s, b, size, page);
    BlockClass(s, b, a);
    var (t, ptr) := SlabHeap.Malloc(s, size, page);
    var o := BookMalloc(s, b, size, page);
    var u := t.(mem := Copy(t.mem, ptr, a, n));
    OwnerWrite(t, o, ptr, u.mem);
    BlockClass(u, o, a);
  }

  /** `&array[i * count]` for an array of 64-bit words: slot `i`. */
  method Cell(array_at: nat, count: nat, i: nat, ghost h: Shape, ghost page: nat) returns (a: nat)
    requires ShapeOk(h) && array_at == page + h.span && count == h.size / 8
    ensures a == SlotAt(h, page, i)
  {
    CellAt(h, page, i);
    a := array_at + 8 * (i * count);
  }

  lemma CellAt(h: Shape, page: nat, i: nat)
    requires ShapeOk(h)
    ensures page + h.span + 8 * (i * (h.size / 8)) == SlotAt(h, page, i)
  {
    assert h.size % 8 == 0;
    assert i * h.size == 8 * (i * (h.size / 8));
  }
}
