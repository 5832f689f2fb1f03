/**
 Freeing, reallocating, and whole runs of the allocator.
 */
module SlabRuns {
  import opened Options
  import opened Numbers
  import opened BitMath
  import opened ByteMemory
  import opened Slots
  import opened SlabSpec
  import opened SlabSteps
  import opened SlabHeap

  // ---------------------------------------------------------------------------------------------
  // free
  // ---------------------------------------------------------------------------------------------

  function BookFree(b: Book, a: nat): Book {
    if a in b.bigs then b.(bigs := b.bigs - {a})
    else if PageBase(a) in b.owned && b.owned[PageBase(a)] < |b.lists| then GiveSlot(b, b.owned[PageBase(a)], a)
    else b
  }

  /** From `s` to `t` block `a` went, and nothing happened to the others. */
  ghost predicate Shrunk(s: Store, b: Book, t: Store, n: Book, a: nat) {
    && Inv(t, n) && t.at == s.at && t.sizes == s.sizes
    && (forall x :: IsBlock(n, x) <==> IsBlock(b, x) && x != a)
    && Untouched(s, b, t, n, a)
  }

  lemma SmallFree(s: Store, b: Book, a: nat)
    requires Inv(s, b) && a in b.live
    ensures Free(s, a).1 == None && Shrunk(s, b, Free(s, a).0, BookFree(b, a), a)
  {
    var c := b.owned[PageBase(a)];
    LiveAddress(b, a);
    HeaderNamesSlab(s, b, a);
    GiveKeepsInv(s, b, c, a);
    WriteWordElsewhere(s.mem, a, s.heads[c]);
    SmallFreeOthers(s, b, Free(s, a).0, a);
  }

  lemma SmallFreeOthers(s: Store, b: Book, t: Store, a: nat)
    requires Inv(s, b) && a in b.live && OnlyIn(s.mem, t.mem, a, 8) && a !in b.bigs
    ensures Untouched(s, b, t, BookFree(b, a), a)
  {
    LiveAddress(b, a);
    forall x | IsBlock(b, x) && x != a ensures Clear(x, Extent(b, x), a, 8) {
      BlocksDisjoint(s, b, x, a);
    }
  }

  lemma BigFreeBook(b: Book, q: nat)
    requires SlotsOk(b) && BigsOk(b) && q in b.bigs
    ensures SlotsOk(BookFree(b, q)) && BigsOk(BookFree(b, q))
  {
    var n := BookFree(b, q);
    SlotsSame(b, n);
    forall x | x in n.bigs ensures BigOk(n, x) { BigStays(b, n, x); }
  }

  lemma BigStays(b: Book, n: Book, x: nat)
    requires BigsOk(b) && n.owned == b.owned && x in n.bigs && forall y :: y in n.bigs ==> y in b.bigs && n.bigs[y] == b.bigs[y]
    ensures BigOk(n, x)
  {
    assert BigOk(b, x);
    forall r | r in n.bigs ensures RunEnd(n, r) == RunEnd(b, r) {}
  }

  lemma BigFreeBlocks(b: Book, q: nat)
    requires SlotsOk(b) && BigsOk(b) && q in b.bigs
    ensures forall x :: IsBlock(BookFree(b, q), x) <==> IsBlock(b, x) && x != q
    ensures forall x :: IsBlock(b, x) && x != q ==> Extent(BookFree(b, q), x) == Extent(b, x)
  {
    forall x | x in b.live ensures x != q { LiveAddress(b, x); }
  }

  lemma BigFree(s: Store, b: Book, q: nat)
    requires Inv(s, b) && q in b.bigs
    ensures Free(s, q) == (s, Some(Run(q - 0x1000, b.bigs[q].pages + 1)))
    ensures Shrunk(s, b, s, BookFree(b, q), q)
  {
    BigAddress(b, q);
    assert MetaOk(s.mem, q, b.bigs[q]);
    BigFreeBook(b, q);
    BigFreeBlocks(b, q);
    var n := BookFree(b, q);
    assert Inv(s, n);
  }

  /** What `free` of a block gives back: nothing, or exactly the run that `malloc` took. */
  function GivenBack(b: Book, a: nat): Option<Run> {
    if a in b.bigs && a >= 0x1000 then Some(Run(a - 0x1000, b.bigs[a].pages + 1)) else None
  }

  lemma FreeShrinks(s: Store, b: Book, a: nat)
    requires Inv(s, b) && IsBlock(b, a)
    ensures Free(s, a).1 == GivenBack(b, a) && Shrunk(s, b, Free(s, a).0, BookFree(b, a), a)
  {
    DispatchIsRight(s, b, a);
    if a in b.live { SmallFree(s, b, a); } else { BigFree(s, b, a); }
  }

  /** The pages of the run are free for the physical allocator again. */
  lemma RunIsFreshAgain(s: Store, b: Book, q: nat)
    requires Inv(s, b) && q in b.bigs
    ensures q >= 0x2000 && FreshRun(BookFree(b, q), q - 0x1000, b.bigs[q].pages + 1)
  {
    assert BigOk(b, q);
    var n := BookFree(b, q);
    RunAligned(q);
    forall x | x in n.bigs ensures RunEnd(n, x) <= q - 0x1000 || RunEnd(b, q) <= x - 0x1000 { assert BigOk(b, x); }
  }

  lemma RunAligned(q: nat)
    requires q % 0x1000 == 0 && q >= 0x1000
    ensures (q - 0x1000) % 0x1000 == 0
  {
  }

  // ---------------------------------------------------------------------------------------------
  // realloc
  // ---------------------------------------------------------------------------------------------

  /** The page count of a request does not wrap. */
  predicate Reasonable(s: Store, size: nat) { GetSlab(s.sizes, size, 0).Some? || size + 0xFFF < WORD }

  /** The `n` bytes at `from` in `m` are those at `to` in `k`. */
  ghost predicate Carried(m: Memory, k: Memory, from: nat, to: nat, n: nat) {
    forall x: nat :: to <= x < to + n ==> k(x) == m(from + (x - to))
  }

  /** `realloc` moved block `a` to a new block, with its first `n` bytes, and touched no other block. */
  ghost predicate MovedTo(s: Store, b: Book, u: Store, o: Book, a: nat, new_ptr: nat, n: nat) {
    && Inv(u, o) && u.at == s.at && u.sizes == s.sizes && !IsBlock(b, new_ptr)
    && (forall x :: IsBlock(o, x) <==> (IsBlock(b, x) && x != a) || x == new_ptr)
    && (forall x :: IsBlock(b, x) && x != a ==> Extent(o, x) == Extent(b, x) && Agree(s.mem, u.mem, x, Extent(b, x)))
    && n <= Extent(o, new_ptr) && Carried(s.mem, u.mem, a, new_ptr, Min(n, Extent(b, a)))
  }

  function BookMove(s: Store, b: Book, a: nat, size: nat, page: nat): Book
    requires Built(s) && |b.lists| == |s.sizes| == |b.shapes| && ShapesOk(b.shapes)
  {
    BookFree(BookMalloc(s, b, size, page), a)
  }

  lemma CopyElsewhere(s: Store, b: Book, t: Store, n: Book, new_ptr: nat, len: nat, from: nat)
    requires Grown(s, b, t, n, new_ptr) && len <= Extent(n, new_ptr)
    ensures Untouched(s, b, t.(mem := Copy(t.mem, new_ptr, from, len)), n, new_ptr)
  {
    forall x | IsBlock(b, x) && x != new_ptr
      ensures Clear(x, Extent(n, x), new_ptr, Extent(n, new_ptr)) && Agree(s.mem, t.mem, x, Extent(b, x))
    {
      BlocksDisjoint(t, n, x, new_ptr);
    }
  }

  /** One byte of a copy. */
  lemma CopyByte(m: Memory, k: Memory, from: nat, to: nat, len: nat, had: nat, d: nat)
    requires Agree(m, k, from, had) && d < len && d < had
    ensures Copy(k, to, from, len)(to + d) == m(from + d)
  {
    var y := from + d;
    assert k(y) == m(y);
  }

  lemma CopyBytes(m: Memory, k: Memory, from: nat, to: nat, len: nat, had: nat)
    requires Agree(m, k, from, had)
    ensures Carried(m, Copy(k, to, from, len), from, to, Min(len, had))
  {
    var c := Copy(k, to, from, len);
    forall x: nat | to <= x < to + Min(len, had) ensures c(x) == m(from + (x - to)) {
      var d: nat := x - to;
      CopyByte(m, k, from, to, len, had, d);
      assert x == to + d && from + (x - to) == from + d;
    }
  }

  lemma MoveMoves(s: Store, b: Book, a: nat, size: nat, len: nat, page: nat)
    requires Inv(s, b) && IsBlock(b, a) && size < WORD && len <= size && Supply(s, b, size, page) && Reasonable(s, size)
    ensures |b.lists| == |s.sizes| == |b.shapes|
    ensures var r := Move(s, a, size, len, page);
            && MovedTo(s, b, r.store, BookMove(s, b, a, size, page), a, r.ptr, len)
            && r.ptr == Malloc(s, size, page).1 && r.back == GivenBack(b, a)
  {
    MallocGrows(s, b, size, page);
    MallocKeepsRuns(s, b, size, page, a);
    var (t, new_ptr) := Malloc(s, size, page);
    MoveRest(s, b, t, BookMalloc(s, b, size, page), a, new_ptr, len);
  }

  /** The copy and the free that follow the allocation. */
  lemma MoveRest(s: Store, b: Book, t: Store, n: Book, a: nat, new_ptr: nat, len: nat)
    requires IsBlock(b, a) && Grown(s, b, t, n, new_ptr) && len <= Extent(n, new_ptr)
    requires (a in n.bigs <==> a in b.bigs) && (a in b.bigs ==> n.bigs[a] == b.bigs[a])
    ensures var (u, back) := Free(t.(mem := Copy(t.mem, new_ptr, a, len)), a);
            MovedTo(s, b, u, BookFree(n, a), a, new_ptr, len) && back == GivenBack(b, a)
  {
    var k := Copy(t.mem, new_ptr, a, len);
    var v := t.(mem := k);
    OwnerWrite(t, n, new_ptr, k);
    CopyElsewhere(s, b, t, n, new_ptr, len, a);
    CopyBytes(s.mem, t.mem, a, new_ptr, len, Extent(b, a));
    FreeShrinks(v, n, a);
    SameGivenBack(b, n, a);
    MoveEnds(s, b, v, n, Free(v, a).0, BookFree(n, a), a, new_ptr, len);
  }

  lemma SameGivenBack(b: Book, n: Book, a: nat)
    requires (a in n.bigs <==> a in b.bigs) && (a in b.bigs ==> n.bigs[a] == b.bigs[a])
    ensures GivenBack(n, a) == GivenBack(b, a)
  {
  }

  lemma MallocKeepsRuns(s: Store, b: Book, size: nat, page: nat, a: nat)
    requires Built(s) && |b.lists| == |s.sizes| == |b.shapes| && ShapesOk(b.shapes) && a != Malloc(s, size, page).1
    ensures a in BookMalloc(s, b, size, page).bigs <==> a in b.bigs
    ensures a in b.bigs ==> BookMalloc(s, b, size, page).bigs[a] == b.bigs[a]
  {
    GetSlabFinds(s.sizes, size, 0);
  }

  lemma MoveEnds(s: Store, b: Book, v: Store, n: Book, u: Store, o: Book, a: nat, new_ptr: nat, len: nat)
    requires IsBlock(b, a) && !IsBlock(b, new_ptr) && IsBlock(n, new_ptr) && len <= Extent(n, new_ptr)
    requires forall x :: IsBlock(n, x) <==> IsBlock(b, x) || x == new_ptr
    requires Untouched(s, b, v, n, new_ptr) && Shrunk(v, n, u, o, a) && v.at == s.at && v.sizes == s.sizes
    requires Carried(s.mem, v.mem, a, new_ptr, Min(len, Extent(b, a)))
    ensures MovedTo(s, b, u, o, a, new_ptr, len)
  {
    forall x | IsBlock(b, x) && x != a ensures Extent(o, x) == Extent(b, x) && Agree(s.mem, u.mem, x, Extent(b, x)) {
      assert Agree(s.mem, v.mem, x, Extent(b, x)) && Agree(v.mem, u.mem, x, Extent(n, x));
    }
    assert Agree(v.mem, u.mem, new_ptr, Extent(n, new_ptr));
  }

  /** What the allocator says about a block's size: that of its class, or the size last asked for. */
  function Reported(b: Book, a: nat): nat { if a in b.bigs then b.bigs[a].size else Extent(b, a) }

  lemma AllocSizeIsReported(s: Store, b: Book, a: nat)
    requires Inv(s, b) && IsBlock(b, a)
    ensures AllocSize(s, a) == Reported(b, a)
  {
    DispatchIsRight(s, b, a);
    if a in b.live {
      HeaderNamesSlab(s, b, a);
    } else {
      assert MetaOk(s.mem, a, b.bigs[a]);
    }
  }

  /** A big block whose page count does not change stays where it is. */
  predicate Stays(b: Book, a: nat, size: nat) { a in b.bigs && b.bigs[a].pages == DivRoundup(size, 0x1000) }

  predicate Moves(b: Book, a: nat, size: nat) { !Stays(b, a, size) && size > 0 }

  function Resized(b: Book, a: nat, size: nat): Book
    requires a in b.bigs
  {
    b.(bigs := b.bigs[a := Big(b.bigs[a].pages, size)])
  }

  lemma ResizeBook(b: Book, a: nat, size: nat)
    requires SlotsOk(b) && BigsOk(b) && Stays(b, a, size) && size < WORD
    ensures SlotsOk(Resized(b, a, size)) && BigsOk(Resized(b, a, size))
    ensures forall x :: Extent(Resized(b, a, size), x) == Extent(b, x)
  {
    var n := Resized(b, a, size);
    SlotsSame(b, n);
    forall x | x in n.bigs ensures BigOk(n, x) { ResizedBig(b, a, size, x); }
  }

  lemma ResizedBig(b: Book, a: nat, size: nat, x: nat)
    requires BigsOk(b) && Stays(b, a, size) && size < WORD && x in b.bigs
    ensures BigOk(Resized(b, a, size), x)
  {
    var n := Resized(b, a, size);
    assert BigOk(b, x);
    forall r | r in n.bigs ensures RunEnd(n, r) == RunEnd(b, r) {}
  }

  /** `realloc` in place: the stored size changes, and no byte of any block does. */
  lemma ReallocStays(s: Store, b: Book, a: nat, size: nat, page: nat)
    requires Inv(s, b) && Stays(b, a, size) && size < WORD
    ensures a >= 0x2000
    ensures var r := Realloc(s, a, size, page);
            && r.ptr == 0 && r.back == None && Inv(r.store, Resized(b, a, size))
            && (forall x :: IsBlock(b, x) ==> Agree(s.mem, r.store.mem, x, Extent(b, x)))
  {
    InPlace(s, b, a, size, page);
    var k := WriteWord(s.mem, a - 0x1000 + 8, size);
    WriteWordElsewhere(s.mem, a - 0x1000 + 8, size);
    ResizeBook(b, a, size);
    ResizeKeepsInv(s, b, a, size, k);
    ResizeBlocks(s, b, a, k);
  }

  lemma InPlace(s: Store, b: Book, a: nat, size: nat, page: nat)
    requires Inv(s, b) && Stays(b, a, size)
    ensures a >= 0x2000 && Realloc(s, a, size, page) == Moved(s.(mem := WriteWord(s.mem, a - 0x1000 + 8, size)), 0, None)
  {
    BigAddress(b, a);
    ReallocPath(s, b, a);
  }

  lemma ResizeKeepsInv(s: Store, b: Book, a: nat, size: nat, k: Memory)
    requires Inv(s, b) && Stays(b, a, size) && size < WORD && a >= 0x2000 && k == WriteWord(s.mem, a - 0x1000 + 8, size)
    requires SlotsOk(Resized(b, a, size)) && BigsOk(Resized(b, a, size))
    ensures Inv(s.(mem := k), Resized(b, a, size))
  {
    var n := Resized(b, a, size);
    WriteWordElsewhere(s.mem, a - 0x1000 + 8, size);
    OnlyInWords(s.mem, k, a - 0x1000 + 8, 8);
    ReadWordBack(s.mem, a - 0x1000 + 8, size);
    MetaWriteKeeps(s.mem, s.at, s.heads, b, a, k);
    MetaWriteMetas(s.mem, b, a, size, k);
  }

  lemma MetaWriteKeeps(m: Memory, at: nat, heads: seq<nat>, b: Book, a: nat, k: Memory)
    requires HeadersOk(m, at, b.owned) && ChainsOk(m, heads, b.lists) && SlotsOk(b) && BigsOk(b) && a in b.bigs && a >= 0x2000
    requires WordsKept(m, k, a - 0x1000 + 8, 8)
    ensures HeadersOk(k, at, b.owned) && ChainsOk(k, heads, b.lists)
  {
    assert BigOk(b, a);
    HeadersKept(m, k, at, b.owned, a - 0x1000 + 8, 8);
    RunChains(m, heads, b, a - 0x1000 + 8, 8, k);
  }

  lemma MetaWriteMetas(m: Memory, b: Book, a: nat, size: nat, k: Memory)
    requires MetasOk(m, b.bigs) && BigsOk(b) && a in b.bigs && a >= 0x2000
    requires WordsKept(m, k, a - 0x1000 + 8, 8) && ReadWord(k, a - 0x1000 + 8) == size
    ensures MetasOk(k, Resized(b, a, size).bigs)
  {
    forall q | q in b.bigs ensures q >= 0x2000 && MetaOk(k, q, Resized(b, a, size).bigs[q]) {
      MetasApart(b, a, q);
      assert MetaOk(m, q, b.bigs[q]);
    }
  }

  lemma MetasApart(b: Book, a: nat, q: nat)
    requires BigsOk(b) && a in b.bigs && q in b.bigs
    ensures q >= 0x2000 && (q != a ==> Clear(q - 0x1000, 16, a - 0x1000 + 8, 8))
  {
    assert BigOk(b, q) && BigOk(b, a);
  }

  lemma ResizeBlocks(s: Store, b: Book, a: nat, k: Memory)
    requires Inv(s, b) && a in b.bigs && a >= 0x2000 && OnlyIn(s.mem, k, a - 0x1000 + 8, 8)
    ensures forall x :: IsBlock(b, x) ==> Agree(s.mem, k, x, Extent(b, x))
  {
    forall x | IsBlock(b, x) ensures Clear(a - 0x1000, 16, x, Extent(b, x)) {
      HeadersSafe(s, b, x);
    }
  }

  /** `realloc` to nothing frees. */
  lemma ReallocFrees(s: Store, b: Book, a: nat, page: nat)
    requires Inv(s, b) && IsBlock(b, a) && !Stays(b, a, 0)
    ensures var r := Realloc(s, a, 0, page);
            r.ptr == 0 && r.back == GivenBack(b, a) && Shrunk(s, b, r.store, BookFree(b, a), a)
  {
    ReallocPath(s, b, a);
    FreeShrinks(s, b, a);
  }

  /** The tests that choose the path, and the old size that each path reads. */
  lemma ReallocPath(s: Store, b: Book, a: nat)
    requires Inv(s, b) && IsBlock(b, a)
    ensures a != 0 && (a % 0x1000 == 0 <==> a in b.bigs) && AllocSize(s, a) == Reported(b, a)
    ensures a in b.bigs ==> DivRoundup(Reported(b, a), 0x1000) == b.bigs[a].pages
  {
    DispatchIsRight(s, b, a);
    AllocSizeIsReported(s, b, a);
    if a in b.bigs { assert BigOk(b, a); }
  }

  /** Any other `realloc` moves the block with the first min(old, new) bytes, and frees only the old block. */
  lemma ReallocMoves(s: Store, b: Book, a: nat, size: nat, page: nat)
    requires Inv(s, b) && IsBlock(b, a) && size < WORD && Moves(b, a, size)
    requires Supply(s, b, size, page) && Reasonable(s, size)
    ensures |b.lists| == |s.sizes| == |b.shapes|
    ensures var r := Realloc(s, a, size, page);
            && MovedTo(s, b, r.store, BookMove(s, b, a, size, page), a, r.ptr, Min(size, Reported(b, a)))
            && r.back == GivenBack(b, a)
  {
    ReallocPath(s, b, a);
    var len := Min(size, Reported(b, a));
    assert Realloc(s, a, size, page) == Move(s, a, size, len, page);
    MoveMoves(s, b, a, size, len, page);
  }

  /** A wrapped page count is zero: such a block has no pages at all. */
  lemma UnreasonableIsEmpty(s: Store, size: nat)
    requires size < WORD && !Reasonable(s, size)
    ensures DivRoundup(size, 0x1000) == 0
  {
    var n := size + 0xFFF - WORD;
    assert Add64(size, 0xFFF) == n < 0x1000;
    PageMask(n);
  }

  /** The old block of a move has bytes to copy. */
  lemma MovedHasBytes(s: Store, b: Book, a: nat, size: nat)
    requires Inv(s, b) && IsBlock(b, a) && size < WORD && Moves(b, a, size) && !Reasonable(s, size)
    ensures Min(size, Reported(b, a)) > 0
  {
    UnreasonableIsEmpty(s, size);
    if a in b.bigs {
      assert BigOk(b, a);
      if b.bigs[a].size == 0 { NoPagesForNothing(); }
    } else {
      LiveAddress(b, a);
    }
  }

  lemma NoPagesForNothing()
    ensures DivRoundup(0, 0x1000) == 0
  {
    PageMask(0xFFF);
  }

  lemma UnreasonableExtent(s: Store, b: Book, a: nat, size: nat, page: nat)
    requires Inv(s, b) && IsBlock(b, a) && size < WORD && Supply(s, b, size, page) && !Reasonable(s, size)
    ensures |b.lists| == |s.sizes| == |b.shapes|
    ensures Malloc(s, size, page).1 == page + 0x1000 && a != page + 0x1000
    ensures Extent(BookMove(s, b, a, size, page), page + 0x1000) == 0
  {
    InvSizes(s, b);
    UnreasonableIsEmpty(s, size);
    BlockAndRun(b, a, page, 1);
  }

  /**
   A moving `realloc` hands over the block if and only if the page count of the new size does not wrap:
   otherwise the new block has no pages and the copy overruns it.
   */
  lemma ReallocMovesIff(s: Store, b: Book, a: nat, size: nat, page: nat)
    requires Inv(s, b) && IsBlock(b, a) && size < WORD && Moves(b, a, size) && Supply(s, b, size, page)
    ensures |b.lists| == |s.sizes| == |b.shapes|
    ensures var r := Realloc(s, a, size, page);
            MovedTo(s, b, r.store, BookMove(s, b, a, size, page), a, r.ptr, Min(size, Reported(b, a))) <==> Reasonable(s, size)
  {
    InvSizes(s, b);
    if Reasonable(s, size) {
      ReallocMoves(s, b, a, size, page);
    } else {
      ReallocPath(s, b, a);
      MovedHasBytes(s, b, a, size);
      UnreasonableExtent(s, b, a, size, page);
      UnreasonablePtr(s, b, a, size, page);
    }
  }

  lemma UnreasonablePtr(s: Store, b: Book, a: nat, size: nat, page: nat)
    requires Inv(s, b) && IsBlock(b, a) && Moves(b, a, size) && size < WORD && !Reasonable(s, size)
    ensures Realloc(s, a, size, page).ptr == page + 0x1000
  {
    ReallocPath(s, b, a);
  }

  /** Behind the one page that such a block takes. */
  lemma BehindIsFresh(b: Book, page: nat, big: Big, more: nat)
    requires FreshRun(b, page, more + 1) && big.pages == 0 && more > 0
    ensures FreshRun(b.(bigs := b.bigs[page + 0x1000 := big]), page + 0x1000, more)
  {
    NextPageAligned(page);
  }

  /** The number of bytes that a failed move copies: all those of the old block, which they fit. */
  lemma CopiesAll(s: Store, b: Book, a: nat, size: nat)
    requires Inv(s, b) && IsBlock(b, a) && size < WORD && Moves(b, a, size) && !Reasonable(s, size)
    ensures Min(size, Reported(b, a)) <= Extent(b, a)
  {
    if a in b.bigs {
      assert BigOk(b, a);
      UnreasonableIsEmpty(s, size);
      if b.bigs[a].size + 0xFFF >= WORD {
        assert Add64(b.bigs[a].size, 0xFFF) == b.bigs[a].size + 0xFFF - WORD < 0x1000;
        PageMask(b.bigs[a].size + 0xFFF - WORD);
      }
      DivRoundupCovers(b.bigs[a].size);
    }
  }

  /** A copy into free pages, then the `free` of a block: the copied bytes stay, and so does the account. */
  lemma CopyIntoFree(t: Store, n: Book, a: nat, to: nat, len: nat, more: nat)
    requires Inv(t, n) && IsBlock(n, a) && FreshRun(n, to, more) && len <= more * 0x1000
    ensures var k := Copy(t.mem, to, a, len); var v := t.(mem := k); var u := Free(v, a).0;
            Inv(u, BookFree(n, a)) && forall x: nat :: to <= x < to + len ==> u.mem(x) == k(x)
  {
    var k := Copy(t.mem, to, a, len);
    var v := t.(mem := k);
    OnlyInWords(t.mem, k, to, more * 0x1000);
    RunWrite(t, n, to, more, k);
    assert Inv(v, n);
    FreeShrinks(v, n, a);
    BlockAndRun(n, a, to, more);
    FreeWrites(v, n, a);
  }

  lemma FreeWrites(s: Store, b: Book, a: nat)
    requires Inv(s, b) && IsBlock(b, a)
    ensures OnlyIn(s.mem, Free(s, a).0.mem, a, Extent(b, a))
  {
    DispatchIsRight(s, b, a);
    if a in b.live {
      LiveAddress(b, a);
      HeaderNamesSlab(s, b, a);
      WriteWordElsewhere(s.mem, a, s.heads[b.owned[PageBase(a)]]);
    }
  }

  /**
   A moving `realloc` to a size whose page count wraps: the new block is empty, and all bytes of the old block
   are written behind its data page. Where those pages are free, the bytes stay there, in no block of the account.
   */
  lemma ReallocOverruns(s: Store, b: Book, a: nat, size: nat, page: nat, more: nat)
    requires Inv(s, b) && IsBlock(b, a) && size < WORD && Moves(b, a, size) && !Reasonable(s, size)
    requires Supply(s, b, size, page)
    ensures |b.lists| == |s.sizes| == |b.shapes|
    ensures var r := Realloc(s, a, size, page); var o := BookMove(s, b, a, size, page); var n := Min(size, Reported(b, a));
            && r.ptr == page + 0x1000 && Extent(o, r.ptr) == 0 && n > 0 && !MovedTo(s, b, r.store, o, a, r.ptr, n)
            && (FreshRun(b, page, more + 1) && n <= more * 0x1000 ==>
                  && Carried(s.mem, r.store.mem, a, r.ptr, n)
                  && Inv(r.store, o) && (forall x :: IsBlock(o, x) ==> Clear(x, Extent(o, x), r.ptr, n)))
  {
    InvSizes(s, b);
    ReallocMovesIff(s, b, a, size, page);
    UnreasonableExtent(s, b, a, size, page);
    UnreasonablePtr(s, b, a, size, page);
    MovedHasBytes(s, b, a, size);
    if FreshRun(b, page, more + 1) && Min(size, Reported(b, a)) <= more * 0x1000 {
      OverrunBytes(s, b, a, size, page, more);
      OverrunClear(s, b, a, size, page, more);
    }
  }

  lemma OverrunBytes(s: Store, b: Book, a: nat, size: nat, page: nat, more: nat)
    requires Inv(s, b) && IsBlock(b, a) && size < WORD && Moves(b, a, size) && !Reasonable(s, size)
    requires FreshRun(b, page, more + 1) && 0 < Min(size, Reported(b, a)) <= more * 0x1000
    requires Supply(s, b, size, page)
    ensures |b.lists| == |s.sizes| == |b.shapes|
    ensures var r := Realloc(s, a, size, page);
            Carried(s.mem, r.store.mem, a, page + 0x1000, Min(size, Reported(b, a))) && Inv(r.store, BookMove(s, b, a, size, page))
  {
    InvSizes(s, b);
    OverrunPath(s, b, a, size, page);
    UnreasonableIsEmpty(s, size);
    MallocGrows(s, b, size, page);
    BehindIsFresh(b, page, Big(0, size), more);
    CopiesAll(s, b, a, size);
    OverrunRest(s, b, Malloc(s, size, page).0, BookMalloc(s, b, size, page), a, page + 0x1000, Min(size, Reported(b, a)), more);
  }

  /** Such a `realloc` is the allocation, the copy and the free. */
  lemma OverrunPath(s: Store, b: Book, a: nat, size: nat, page: nat)
    requires Inv(s, b) && IsBlock(b, a) && Moves(b, a, size) && !Reasonable(s, size)
    ensures var t := Malloc(s, size, page).0;
            Built(t) && Realloc(s, a, size, page).store == Free(t.(mem := Copy(t.mem, page + 0x1000, a, Min(size, Reported(b, a)))), a).0
  {
    ReallocPath(s, b, a);
  }

  /** The copy and the free after the allocation of an empty block. */
  lemma OverrunRest(s: Store, b: Book, t: Store, n: Book, a: nat, to: nat, len: nat, more: nat)
    requires IsBlock(b, a) && Grown(s, b, t, n, to) && FreshRun(n, to, more) && len <= more * 0x1000 && len <= Extent(b, a)
    ensures var u := Free(t.(mem := Copy(t.mem, to, a, len)), a).0;
            Carried(s.mem, u.mem, a, to, len) && Inv(u, BookFree(n, a))
  {
    CopyIntoFree(t, n, a, to, len, more);
    CopyBytes(s.mem, t.mem, a, to, len, Extent(b, a));
  }

  lemma OverrunClear(s: Store, b: Book, a: nat, size: nat, page: nat, more: nat)
    requires Inv(s, b) && IsBlock(b, a) && size < WORD && !Reasonable(s, size)
    requires FreshRun(b, page, more + 1) && 0 < Min(size, Reported(b, a)) <= more * 0x1000
    ensures |b.lists| == |s.sizes| == |b.shapes|
    ensures var o := BookMove(s, b, a, size, page);
            forall x :: IsBlock(o, x) ==> Clear(x, Extent(o, x), page + 0x1000, Min(size, Reported(b, a)))
  {
    InvSizes(s, b);
    UnreasonableIsEmpty(s, size);
    var o := BookMove(s, b, a, size, page);
    forall x | x in b.live ensures x !in b.bigs { LiveAddress(b, x); }
    forall x | IsBlock(o, x) ensures Clear(x, Extent(o, x), page + 0x1000, Min(size, Reported(b, a))) {
      OldOrEmpty(s, b, a, size, page, x);
      if x != page + 0x1000 { BlockAndRun(b, x, page, more + 1); }
    }
  }

  /** The blocks after such a move: the empty one, and old ones. */
  lemma OldOrEmpty(s: Store, b: Book, a: nat, size: nat, page: nat, x: nat)
    requires Built(s) && |b.lists| == |s.sizes| == |b.shapes| && ShapesOk(b.shapes) && !Reasonable(s, size)
    requires DivRoundup(size, 0x1000) == 0 && b.live !! b.bigs.Keys && IsBlock(BookMove(s, b, a, size, page), x)
    ensures var o := BookMove(s, b, a, size, page);
            if x == page + 0x1000 then Extent(o, x) == 0 || IsBlock(b, x) else IsBlock(b, x) && Extent(o, x) == Extent(b, x)
  {
  }

  // ---------------------------------------------------------------------------------------------
  // Runs
  // ---------------------------------------------------------------------------------------------

  datatype Op =
    | CallMalloc(size: nat, page: nat)
    | CallFree(ptr: nat)
    | CallRealloc(ptr: nat, size: nat, page: nat)
    | OwnerPut(block: nat, offset: nat, value: Byte)

  /** What the callers and the physical allocator owe: no double free, no write outside a block, fresh pages. */
  ghost predicate Allowed(s: Store, b: Book, op: Op)
    requires |s.heads| == |s.sizes|
  {
    match op
    case CallMalloc(size, page) => size < WORD && Supply(s, b, size, page)
    case CallFree(ptr) => ptr == 0 || IsBlock(b, ptr)
    case CallRealloc(ptr, size, page) =>
      && size < WORD && (ptr == 0 || IsBlock(b, ptr))
      && (ptr == 0 ==> Supply(s, b, size, page))
      && (ptr != 0 && Moves(b, ptr, size) ==> Supply(s, b, size, page) && Reasonable(s, size))
    case OwnerPut(block, offset, value) => IsBlock(b, block) && offset < Extent(b, block)
  }

  function Step(s: Store, op: Op): Store
    requires Built(s)
  {
    match op
    case CallMalloc(size, page) => Malloc(s, size, page).0
    case CallFree(ptr) => Free(s, ptr).0
    case CallRealloc(ptr, size, page) => Realloc(s, ptr, size, page).store
    case OwnerPut(block, offset, value) => s.(mem := Put(s.mem, block + offset, value))
  }

  function BookStep(s: Store, b: Book, op: Op): Book
    requires Built(s) && |b.lists| == |s.sizes| == |b.shapes| && ShapesOk(b.shapes)
  {
    match op
    case CallMalloc(size, page) => BookMalloc(s, b, size, page)
    case CallFree(ptr) => if ptr == 0 then b else BookFree(b, ptr)
    case CallRealloc(ptr, size, page) =>
      if ptr == 0 then BookMalloc(s, b, size, page)
      else if ptr in b.bigs && Stays(b, ptr, size) then Resized(b, ptr, size)
      else if size == 0 then BookFree(b, ptr)
      else BookMove(s, b, ptr, size, page)
    case OwnerPut(_, _, _) => b
  }

  lemma InvSizes(s: Store, b: Book)
    requires Inv(s, b)
    ensures Built(s) && |b.lists| == |s.sizes| == |b.shapes| && ShapesOk(b.shapes)
  {
  }

  /** Block `x` is still there, of the same extent and with the same bytes. */
  ghost predicate Same(s: Store, b: Book, t: Store, n: Book, x: nat) {
    IsBlock(n, x) && Extent(n, x) == Extent(b, x) && Agree(s.mem, t.mem, x, Extent(b, x))
  }

  /** The blocks that an operation acts on. */
  predicate ActsOn(op: Op, x: nat) {
    match op
    case CallMalloc(_, _) => false
    case CallFree(ptr) => ptr == x
    case CallRealloc(ptr, _, _) => ptr == x
    case OwnerPut(block, _, _) => block == x
  }

  /** The account stays right, and every block the operation does not act on stays as it is. */
  ghost predicate StepOk(s: Store, b: Book, t: Store, n: Book, op: Op) {
    Inv(t, n) && forall x :: IsBlock(b, x) && !ActsOn(op, x) ==> Same(s, b, t, n, x)
  }

  lemma MallocOk(s: Store, b: Book, size: nat, page: nat, op: Op)
    requires Inv(s, b) && size < WORD && Supply(s, b, size, page)
    ensures |b.lists| == |s.sizes| == |b.shapes| && StepOk(s, b, Malloc(s, size, page).0, BookMalloc(s, b, size, page), op)
  {
    MallocGrows(s, b, size, page);
  }

  lemma FreeOk(s: Store, b: Book, ptr: nat)
    requires Inv(s, b) && (ptr == 0 || IsBlock(b, ptr))
    ensures StepOk(s, b, Free(s, ptr).0, if ptr == 0 then b else BookFree(b, ptr), CallFree(ptr))
  {
    if ptr != 0 { FreeShrinks(s, b, ptr); }
  }

  lemma PutOk(s: Store, b: Book, block: nat, offset: nat, value: Byte)
    requires Inv(s, b) && IsBlock(b, block) && offset < Extent(b, block)
    ensures StepOk(s, b, s.(mem := Put(s.mem, block + offset, value)), b, OwnerPut(block, offset, value))
  {
    OwnerWrite(s, b, block, Put(s.mem, block + offset, value));
    forall x | IsBlock(b, x) && x != block ensures Clear(x, Extent(b, x), block, Extent(b, block)) {
      BlocksDisjoint(s, b, x, block);
    }
  }

  lemma StepIsOk(s: Store, b: Book, op: Op)
    requires Inv(s, b) && Allowed(s, b, op)
    ensures |b.lists| == |s.sizes| == |b.shapes| && ShapesOk(b.shapes) && StepOk(s, b, Step(s, op), BookStep(s, b, op), op)
  {
    InvSizes(s, b);
    if op.CallRealloc? { ReallocOk(s, b, op.ptr, op.size, op.page); } else { SmallStepOk(s, b, op); }
  }

  lemma SmallStepOk(s: Store, b: Book, op: Op)
    requires Inv(s, b) && Allowed(s, b, op) && !op.CallRealloc?
    ensures |b.lists| == |s.sizes| == |b.shapes| && ShapesOk(b.shapes) && StepOk(s, b, Step(s, op), BookStep(s, b, op), op)
  {
    InvSizes(s, b);
    match op
    case CallMalloc(size, page) => MallocOk(s, b, size, page, op);
    case CallFree(ptr) => FreeOk(s, b, ptr);
    case OwnerPut(block, offset, value) => PutOk(s, b, block, offset, value);
  }

  lemma ReallocOk(s: Store, b: Book, ptr: nat, size: nat, page: nat)
    requires Inv(s, b) && Allowed(s, b, CallRealloc(ptr, size, page))
    ensures |b.lists| == |s.sizes| == |b.shapes| && ShapesOk(b.shapes)
    ensures var op := CallRealloc(ptr, size, page); StepOk(s, b, Step(s, op), BookStep(s, b, op), op)
  {
    InvSizes(s, b);
    if ptr == 0 {
      MallocOk(s, b, size, page, CallRealloc(ptr, size, page));
    } else if Stays(b, ptr, size) {
      ReallocStays(s, b, ptr, size, page);
      ResizeBook(b, ptr, size);
    } else if size == 0 {
      ReallocFrees(s, b, ptr, page);
    } else {
      ReallocMoves(s, b, ptr, size, page);
    }
  }

  function RunSteps(s: Store, ops: seq<Op>): Store
    requires Built(s)
    decreases |ops|
  {
    if ops == [] then s
    else if Built(Step(s, ops[0])) then RunSteps(Step(s, ops[0]), ops[1..])
    else Step(s, ops[0])
  }

  ghost predicate Legal(s: Store, b: Book, ops: seq<Op>)
    requires Inv(s, b)
    decreases |ops|
  {
    ops == [] ||
    (Allowed(s, b, ops[0]) && (StepIsOk(s, b, ops[0]); Legal(Step(s, ops[0]), BookStep(s, b, ops[0]), ops[1..])))
  }

  /** The account after a run: that of each call in turn. */
  ghost function BookRun(s: Store, b: Book, ops: seq<Op>): Book
    requires Inv(s, b) && Legal(s, b, ops)
    decreases |ops|
  {
    if ops == [] then b
    else
      StepIsOk(s, b, ops[0]);
      BookRun(Step(s, ops[0]), BookStep(s, b, ops[0]), ops[1..])
  }

  /** After any legal run the account of the calls made holds. */
  lemma {:induction false} RunKeepsInv(s: Store, b: Book, ops: seq<Op>)
    requires Inv(s, b) && Legal(s, b, ops)
    ensures Inv(RunSteps(s, ops), BookRun(s, b, ops))
    decreases |ops|
  {
    if ops != [] {
      StepIsOk(s, b, ops[0]);
      RunKeepsInv(Step(s, ops[0]), BookStep(s, b, ops[0]), ops[1..]);
    }
  }

  /** After any legal run live blocks are disjoint, and clear of all page headers and data pages. */
  lemma RunKeepsApart(s: Store, b: Book, ops: seq<Op>, x: nat)
    requires Inv(s, b) && Legal(s, b, ops) && IsBlock(BookRun(s, b, ops), x)
    ensures var n := BookRun(s, b, ops);
            && (forall y :: IsBlock(n, y) && y != x ==> Clear(x, Extent(n, x), y, Extent(n, y)))
            && (forall p :: p in n.owned ==> Clear(p, 8, x, Extent(n, x)))
            && (forall q :: q in n.bigs ==> q >= 0x2000 && Clear(q - 0x1000, 16, x, Extent(n, x)))
  {
    var t, n := RunSteps(s, ops), BookRun(s, b, ops);
    RunKeepsInv(s, b, ops);
    forall y | IsBlock(n, y) && y != x ensures Clear(x, Extent(n, x), y, Extent(n, y)) { BlocksDisjoint(t, n, x, y); }
    HeadersSafe(t, n, x);
  }

  /** A block that no call of the run acts on is still there at the end, with the same bytes. */
  lemma {:induction false} RunKeepsBlock(s: Store, b: Book, ops: seq<Op>, x: nat)
    requires Inv(s, b) && Legal(s, b, ops) && IsBlock(b, x) && forall i :: 0 <= i < |ops| ==> !ActsOn(ops[i], x)
    ensures Same(s, b, RunSteps(s, ops), BookRun(s, b, ops), x)
    decreases |ops|
  {
    if ops != [] {
      var t, n := Step(s, ops[0]), BookStep(s, b, ops[0]);
      StepIsOk(s, b, ops[0]);
      assert Same(s, b, t, n, x);
      forall i | 0 <= i < |ops| - 1 ensures !ActsOn(ops[1..][i], x) { assert ops[1..][i] == ops[i + 1]; }
      RunKeepsBlock(t, n, ops[1..], x);
    }
  }
}
