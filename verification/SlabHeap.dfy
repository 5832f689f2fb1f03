/**
 The allocator's entry points on both paths, and runs of them.
 */
module SlabHeap {
  import opened Options
  import opened Numbers
  import opened BitMath
  import opened ByteMemory
  import opened Slots
  import opened SlabSpec
  import opened SlabSteps

  /** `get_slab` from slab `c` on. */
  function GetSlab(sizes: seq<nat>, size: nat, c: nat): Option<nat>
    requires c <= |sizes|
    decreases |sizes| - c
  {
    if c == |sizes| then None else if sizes[c] >= size then Some(c) else GetSlab(sizes, size, c + 1)
  }

  lemma {:induction false} GetSlabFinds(sizes: seq<nat>, size: nat, c: nat)
    requires c <= |sizes|
    ensures match GetSlab(sizes, size, c)
            case Some(k) => c <= k < |sizes| && sizes[k] >= size && forall j :: c <= j < k ==> sizes[j] < size
            case None => forall j :: c <= j < |sizes| ==> sizes[j] < size
    decreases |sizes| - c
  {
    if c < |sizes| { GetSlabFinds(sizes, size, c + 1); }
  }

  function BigMalloc(s: Store, size: nat, run: nat): (Store, nat) {
    var pages := DivRoundup(size, 0x1000);
    var m := WriteWord(Fill(s.mem, run, (pages + 1) * 0x1000, 0), run, pages);
    (s.(mem := WriteWord(m, run + 8, size)), run + 0x1000)
  }

  /** `malloc`; `page` is what the physical allocator returns, if it is asked. */
  function Malloc(s: Store, size: nat, page: nat): (Store, nat)
    requires Built(s)
  {
    GetSlabFinds(s.sizes, size, 0);
    match GetSlab(s.sizes, size, 0)
    case None => BigMalloc(s, size, page)
    case Some(c) => SlabAlloc(s, c, page)
  }

  /** The slab that the header of the pointer's page names. */
  function ClassOf(s: Store, ptr: nat): nat { ClassAt(s.at, ReadWord(s.mem, AlignDown(ptr, 0x1000))) }

  /** A run of pages given back to the physical allocator. */
  datatype Run = Run(at: nat, count: nat)

  function Free(s: Store, ptr: nat): (Store, Option<Run>)
    requires Built(s)
  {
    if ptr == 0 then (s, None)
    else if ptr % 0x1000 == 0 then (s, Some(Run(ptr - 0x1000, ReadWord(s.mem, ptr - 0x1000) + 1)))
    else if ClassOf(s, ptr) < |s.heads| then (SlabFree(s, ClassOf(s, ptr), ptr), None)
    else (s, None)
  }

  /** The new state, the pointer returned, and the run given back. */
  datatype Moved = Moved(store: Store, ptr: nat, back: Option<Run>)

  /** Allocate, copy, free: the end of both `realloc` paths. */
  function Move(s: Store, old_ptr: nat, size: nat, n: nat, page: nat): Moved
    requires Built(s)
  {
    var (t, new_ptr) := Malloc(s, size, page);
    if new_ptr == 0 || !Built(t) then Moved(t, old_ptr, None)
    else
      var (u, back) := Free(t.(mem := Copy(t.mem, new_ptr, old_ptr, n)), old_ptr);
      Moved(u, new_ptr, back)
  }

  function Realloc(s: Store, old_ptr: nat, size: nat, page: nat): Moved
    requires Built(s)
  {
    if old_ptr == 0 then Moved(Malloc(s, size, page).0, Malloc(s, size, page).1, None)
    else if old_ptr % 0x1000 == 0 then
      var old_size := ReadWord(s.mem, old_ptr - 0x1000 + 8);
      if DivRoundup(old_size, 0x1000) == DivRoundup(size, 0x1000) then
        Moved(s.(mem := WriteWord(s.mem, old_ptr - 0x1000 + 8, size)), 0, None)
      else if size == 0 then Moved(Free(s, old_ptr).0, 0, Free(s, old_ptr).1)
      else Move(s, old_ptr, size, if size < old_size then size else old_size, page)
    else
      var c := ClassOf(s, old_ptr);
      var old_size := if c < |s.sizes| then s.sizes[c] else 0;
      if size == 0 then Moved(Free(s, old_ptr).0, 0, Free(s, old_ptr).1)
      else Move(s, old_ptr, size, if size < old_size then size else old_size, page)
  }

  function AllocSize(s: Store, ptr: nat): nat {
    if ptr == 0 then 0
    else if ptr % 0x1000 == 0 then ReadWord(s.mem, ptr - 0x1000 + 8)
    else
      var c := ClassOf(s, ptr);
      if c < |s.sizes| then s.sizes[c] else 0
  }

  // ---------------------------------------------------------------------------------------------
  // Blocks
  // ---------------------------------------------------------------------------------------------

  predicate IsBlock(b: Book, a: nat) { a in b.live || a in b.bigs }

  /** The bytes of a block that its owner may use. */
  function Extent(b: Book, a: nat): nat {
    if a in b.bigs then b.bigs[a].pages * 0x1000
    else if PageBase(a) in b.owned && b.owned[PageBase(a)] < |b.shapes| then b.shapes[b.owned[PageBase(a)]].size
    else 0
  }

  lemma BigAddress(b: Book, q: nat)
    requires BigsOk(b) && q in b.bigs
    ensures q % 0x1000 == 0 && q >= 0x2000 && Extent(b, q) == b.bigs[q].pages * 0x1000
  {
    assert BigOk(b, q);
  }

  lemma LiveAddress(b: Book, a: nat)
    requires SlotsOk(b) && BigsOk(b) && a in b.live
    ensures a % 16 == 0 && a % 0x1000 != 0 && a !in b.bigs && PageBase(a) >= 0x1000 && a + Extent(b, a) <= WORD
    ensures var c := b.owned[PageBase(a)]; IsSlot(b.shapes, b.owned, c, a) && Extent(b, a) == b.shapes[c].size >= 16
  {
    SlotBlock(b.shapes, b.owned, b.owned[PageBase(a)], a);
    if a in b.bigs { BigAddress(b, a); }
    PageAbove(PageBase(a));
  }

  lemma PageAbove(p: nat)
    requires p % 0x1000 == 0
    ensures p > 0 ==> p >= 0x1000
  {
  }

  /** The header of a slab block's page names the slab that issued the block. */
  lemma HeaderNamesSlab(s: Store, b: Book, a: nat)
    requires Inv(s, b) && a in b.live
    ensures AlignDown(a, 0x1000) == PageBase(a) && PageBase(a) in b.owned
    ensures var c := b.owned[PageBase(a)]; ClassOf(s, a) == c && c < |s.sizes| && Extent(b, a) == s.sizes[c]
  {
    var c := b.owned[PageBase(a)];
    LiveAddress(b, a);
    PageMask(a);
    PointerBack(s.at, c);
    BookClass(s, b, c);
  }

  /** The low bits of a block's address tell its path. */
  lemma DispatchIsRight(s: Store, b: Book, a: nat)
    requires Inv(s, b) && IsBlock(b, a)
    ensures a % 16 == 0 && a >= 0x1000 && (a % 0x1000 == 0 <==> a in b.bigs) && (a in b.live <==> a !in b.bigs)
  {
    if a in b.live { LiveAddress(b, a); }
    if a in b.bigs {
      BigAddress(b, a);
      MultipleOfPage(a);
    }
  }

  lemma MultipleOfPage(a: nat)
    requires a % 0x1000 == 0
    ensures a % 16 == 0
  {
    assert a == 16 * (256 * (a / 0x1000));
  }

  lemma PointerBack(at: nat, c: nat)
    ensures ClassAt(at, SlabPointer(at, c)) == c
  {
  }

  /** Live blocks never overlap each other. */
  lemma BlocksDisjoint(s: Store, b: Book, x: nat, y: nat)
    requires Inv(s, b) && IsBlock(b, x) && IsBlock(b, y) && x != y
    ensures Clear(x, Extent(b, x), y, Extent(b, y))
  {
    DispatchIsRight(s, b, x);
    DispatchIsRight(s, b, y);
    if x in b.bigs {
      BigApart(b, x, y);
    } else if y in b.bigs {
      BigApart(b, y, x);
    } else {
      LiveAddress(b, x);
      LiveAddress(b, y);
      BlocksApart(b.shapes, b.owned, b.owned[PageBase(x)], x, b.owned[PageBase(y)], y);
    }
  }

  lemma BigApart(b: Book, q: nat, y: nat)
    requires SlotsOk(b) && BigsOk(b) && q in b.bigs && y != q && (y in b.live || y in b.bigs)
    requires y in b.live ==> y !in b.bigs
    ensures Clear(q, Extent(b, q), y, Extent(b, y))
  {
    assert BigOk(b, q);
    if y in b.bigs {
      assert BigOk(b, y);
    } else {
      LiveAddress(b, y);
      SlotBlock(b.shapes, b.owned, b.owned[PageBase(y)], y);
    }
  }

  /** Nor do they overlap a page header or the data page of a big block. */
  lemma HeadersSafe(s: Store, b: Book, a: nat)
    requires Inv(s, b) && IsBlock(b, a)
    ensures forall p :: p in b.owned ==> Clear(p, 8, a, Extent(b, a))
    ensures forall q :: q in b.bigs ==> q >= 0x2000 && Clear(q - 0x1000, 16, a, Extent(b, a))
  {
    if a in b.live {
      LiveAddress(b, a);
      BlockClear(b, b.owned[PageBase(a)], a);
    } else {
      BigHeadersSafe(b, a);
    }
  }

  lemma BigHeadersSafe(b: Book, a: nat)
    requires BigsOk(b) && a in b.bigs
    ensures forall p :: p in b.owned ==> Clear(p, 8, a, Extent(b, a))
    ensures forall q :: q in b.bigs ==> q >= 0x2000 && Clear(q - 0x1000, 16, a, Extent(b, a))
  {
    assert BigOk(b, a);
    forall q | q in b.bigs ensures q >= 0x2000 && Clear(q - 0x1000, 16, a, Extent(b, a)) {
      assert BigOk(b, q);
    }
  }

  /** An owner may write anything inside its block. */
  lemma OwnerWrite(s: Store, b: Book, a: nat, k: Memory)
    requires Inv(s, b) && IsBlock(b, a) && OnlyIn(s.mem, k, a, Extent(b, a))
    ensures Inv(s.(mem := k), b)
  {
    HeadersSafe(s, b, a);
    OnlyInWords(s.mem, k, a, Extent(b, a));
    HeadersKept(s.mem, k, s.at, b.owned, a, Extent(b, a));
    MetasKept(s.mem, k, b.bigs, a, Extent(b, a));
    OwnerChains(s.mem, s.heads, b, a, k);
  }

  lemma OwnerChains(m: Memory, heads: seq<nat>, b: Book, a: nat, k: Memory)
    requires ChainsOk(m, heads, b.lists) && SlotsOk(b) && BigsOk(b) && IsBlock(b, a) && WordsKept(m, k, a, Extent(b, a))
    ensures ChainsOk(k, heads, b.lists)
  {
    forall c | 0 <= c < |b.lists| ensures Chain(k, heads[c], b.lists[c]) {
      var l := b.lists[c];
      assert ListOk(b, c, l);
      forall i | 0 <= i < |l| ensures Clear(l[i], 8, a, Extent(b, a)) { FreeSlotClear(b, a, c, l[i]); }
      ChainKept(m, k, heads[c], l, a, Extent(b, a));
    }
  }

  lemma FreeSlotClear(b: Book, a: nat, c: nat, x: nat)
    requires SlotsOk(b) && BigsOk(b) && IsBlock(b, a) && IsSlot(b.shapes, b.owned, c, x) && x !in b.live
    ensures Clear(x, 8, a, Extent(b, a))
  {
    if a in b.live {
      LiveAddress(b, a);
      BlockClear(b, b.owned[PageBase(a)], a);
    } else {
      assert BigOk(b, a);
      SlotBlock(b.shapes, b.owned, c, x);
    }
  }

  // ---------------------------------------------------------------------------------------------
  // malloc
  // ---------------------------------------------------------------------------------------------

  /** From `s` to `t` block `a` came into being, and nothing happened to the others. */
  ghost predicate Grown(s: Store, b: Book, t: Store, n: Book, a: nat) {
    && Inv(t, n) && t.at == s.at && t.sizes == s.sizes && a >= 0x1000 && !IsBlock(b, a) && IsBlock(n, a)
    && (forall x :: IsBlock(n, x) <==> IsBlock(b, x) || x == a)
    && Untouched(s, b, t, n, a)
  }

  /** The blocks other than `a` kept their extent and their bytes. */
  ghost predicate Untouched(s: Store, b: Book, t: Store, n: Book, a: nat) {
    forall x :: IsBlock(b, x) && x != a ==> Extent(n, x) == Extent(b, x) && Agree(s.mem, t.mem, x, Extent(b, x))
  }

  lemma TakeGrows(s: Store, b: Book, c: nat, page: nat)
    requires Inv(s, b) && c < |s.heads| && s.heads[c] != 0
    ensures c < |b.lists| && b.lists[c] != []
    ensures Grown(s, b, SlabAlloc(s, c, page).0, TakeSlot(b, c), SlabAlloc(s, c, page).1)
    ensures Extent(TakeSlot(b, c), SlabAlloc(s, c, page).1) == s.sizes[c]
  {
    TakeKeepsInv(s, b, c, page);
    BookClass(s, b, c);
    var t, n, a := SlabAlloc(s, c, page).0, TakeSlot(b, c), b.lists[c][0];
    assert IsSlot(b.shapes, b.owned, c, a);
    SlotBlock(b.shapes, b.owned, c, a);
    PageAbove(PageBase(a));
    forall x | IsBlock(b, x) ensures x != a && Clear(x, Extent(b, x), a, s.sizes[c]) && Extent(n, x) == Extent(b, x) {
      BlockAndSlot(b, x, c, a);
    }
  }

  lemma BlockAndSlot(b: Book, x: nat, c: nat, a: nat)
    requires SlotsOk(b) && BigsOk(b) && IsBlock(b, x) && IsSlot(b.shapes, b.owned, c, a) && a !in b.live
    ensures x != a && Clear(x, Extent(b, x), a, b.shapes[c].size)
  {
    if x in b.live {
      LiveAddress(b, x);
      BlocksApart(b.shapes, b.owned, b.owned[PageBase(x)], x, c, a);
    } else {
      assert BigOk(b, x);
      SlotBlock(b.shapes, b.owned, c, a);
    }
  }

  lemma RunKeepsBlocks(s: Store, b: Book, t: Store, n: Book, run: nat, count: nat, a: nat)
    requires SlotsOk(b) && BigsOk(b) && FreshRun(b, run, count) && OnlyIn(s.mem, t.mem, run, count * 0x1000)
    requires forall x :: IsBlock(b, x) ==> Extent(n, x) == Extent(b, x)
    ensures Untouched(s, b, t, n, a)
  {
    forall x | IsBlock(b, x) ensures Clear(x, Extent(b, x), run, count * 0x1000) {
      BlockAndRun(b, x, run, count);
    }
  }

  lemma InitKeepsBlocks(s: Store, b: Book, c: nat, page: nat, a: nat)
    requires Inv(s, b) && c < |s.heads| && s.heads[c] == 0 && FreshRun(b, page, 1)
    ensures c < |b.lists| && c < |b.shapes| && ShapeOk(b.shapes[c])
    ensures Untouched(s, b, InitSlab(s, c, page), AddPage(b, c, page), a)
  {
    BookClass(s, b, c);
    PageInit(s, c, page);
    ExtentsStay(b, c, page);
    RunKeepsBlocks(s, b, InitSlab(s, c, page), AddPage(b, c, page), page, 1, a);
  }

  lemma ExtentsStay(b: Book, c: nat, page: nat)
    requires SlotsOk(b) && BigsOk(b) && c < |b.lists| && FreshRun(b, page, 1)
    ensures forall x :: IsBlock(b, x) ==> Extent(AddPage(b, c, page), x) == Extent(b, x)
  {
    forall x | IsBlock(b, x) ensures Extent(AddPage(b, c, page), x) == Extent(b, x) {
      BlockAndRun(b, x, page, 1);
    }
  }

  lemma BlockAndRun(b: Book, x: nat, run: nat, n: nat)
    requires SlotsOk(b) && BigsOk(b) && IsBlock(b, x) && FreshRun(b, run, n)
    ensures Clear(x, Extent(b, x), run, n * 0x1000)
    ensures n > 0 ==> x != run + 0x1000 && run !in b.owned && (x in b.live ==> PageBase(x) != run)
  {
    if x in b.live {
      LiveAddress(b, x);
      SlotBlock(b.shapes, b.owned, b.owned[PageBase(x)], x);
    } else {
      assert BigOk(b, x);
    }
  }

  function BookMalloc(s: Store, b: Book, size: nat, page: nat): Book
    requires Built(s) && |b.lists| == |s.sizes| == |b.shapes| && ShapesOk(b.shapes)
  {
    GetSlabFinds(s.sizes, size, 0);
    match GetSlab(s.sizes, size, 0)
    case None => b.(bigs := b.bigs[page + 0x1000 := Big(DivRoundup(size, 0x1000), size)])
    case Some(c) =>
      var n := if s.heads[c] == 0 then AddPage(b, c, page) else b;
      if n.lists[c] == [] then n else TakeSlot(n, c)
  }

  /** What the physical allocator guarantees when it is asked. */
  predicate Supply(s: Store, b: Book, size: nat, page: nat)
    requires |s.heads| == |s.sizes|
  {
    GetSlabFinds(s.sizes, size, 0);
    match GetSlab(s.sizes, size, 0)
    case None => FreshRun(b, page, DivRoundup(size, 0x1000) + 1)
    case Some(c) => s.heads[c] == 0 ==> FreshRun(b, page, 1)
  }

  lemma SlabGrows(s: Store, b: Book, c: nat, page: nat)
    requires Inv(s, b) && c < |s.heads| && (s.heads[c] == 0 ==> FreshRun(b, page, 1))
    ensures c < |b.lists| && c < |b.shapes| && ShapeOk(b.shapes[c])
    ensures var n := if s.heads[c] == 0 then AddPage(b, c, page) else b;
            && n.lists[c] != [] && Grown(s, b, SlabAlloc(s, c, page).0, TakeSlot(n, c), SlabAlloc(s, c, page).1)
            && Extent(TakeSlot(n, c), SlabAlloc(s, c, page).1) == s.sizes[c]
  {
    BookClass(s, b, c);
    if s.heads[c] == 0 {
      InitKeepsInv(s, b, c, page);
      InitKeepsBlocks(s, b, c, page, SlabAlloc(s, c, page).1);
      var t, n := InitSlab(s, c, page), AddPage(b, c, page);
      TakeGrows(t, n, c, page);
      assert SlabAlloc(s, c, page) == SlabAlloc(t, c, page);
      GrowsTrans(s, b, t, n, SlabAlloc(t, c, page).0, TakeSlot(n, c), SlabAlloc(t, c, page).1);
    } else {
      TakeGrows(s, b, c, page);
    }
  }

  lemma GrowsTrans(s: Store, b: Book, t: Store, n: Book, u: Store, o: Book, a: nat)
    requires Untouched(s, b, t, n, a) && n.live == b.live && n.bigs == b.bigs && t.at == s.at && t.sizes == s.sizes
    requires Grown(t, n, u, o, a)
    ensures Grown(s, b, u, o, a)
  {
    UntouchedTrans(s, b, t, n, u, o, a);
    forall x ensures IsBlock(n, x) <==> IsBlock(b, x) {
    }
  }

  lemma UntouchedTrans(s: Store, b: Book, t: Store, n: Book, u: Store, o: Book, a: nat)
    requires Untouched(s, b, t, n, a) && Untouched(t, n, u, o, a) && forall x :: IsBlock(b, x) && x != a ==> IsBlock(n, x)
    ensures Untouched(s, b, u, o, a)
  {
    forall x | IsBlock(b, x) && x != a ensures Extent(o, x) == Extent(b, x) && Agree(s.mem, u.mem, x, Extent(b, x)) {
      assert Agree(s.mem, t.mem, x, Extent(b, x)) && Agree(t.mem, u.mem, x, Extent(n, x));
    }
  }

  lemma BigBook(b: Book, run: nat, big: Big)
    requires SlotsOk(b) && BigsOk(b) && FreshRun(b, run, big.pages + 1)
    requires big.pages == DivRoundup(big.size, 0x1000) && big.size < WORD
    ensures var n := b.(bigs := b.bigs[run + 0x1000 := big]);
            SlotsOk(n) && BigsOk(n) && run >= 0x1000 && run + 0x1000 !in b.bigs && run + 0x1000 !in b.live
  {
    var q := run + 0x1000;
    var n := b.(bigs := b.bigs[q := big]);
    PageAbove(run);
    NextPageAligned(run);
    forall x | IsBlock(b, x) ensures x != q { BlockAndRun(b, x, run, big.pages + 1); }
    forall x | x in n.bigs ensures BigOk(n, x) {
      if x != q { assert BigOk(b, x); }
    }
    assert SlotsOk(n) by { SlotsSame(b, n); }
    assert !IsBlock(b, q);
  }

  lemma SlotsSame(b: Book, n: Book)
    requires SlotsOk(b) && n == b.(bigs := n.bigs)
    ensures SlotsOk(n)
  {
    forall c | 0 <= c < |n.lists| ensures ListOk(n, c, n.lists[c]) { assert ListOk(b, c, b.lists[c]); }
  }

  lemma BigKeepsInv(s: Store, b: Book, big: Big, run: nat, k: Memory)
    requires Inv(s, b) && FreshRun(b, run, big.pages + 1)
    requires big.pages == DivRoundup(big.size, 0x1000) && big.size < WORD && run >= 0x1000
    requires WordsKept(s.mem, k, run, (big.pages + 1) * 0x1000) && MetaOk(k, run + 0x1000, big)
    ensures Inv(s.(mem := k), b.(bigs := b.bigs[run + 0x1000 := big]))
  {
    BigBook(b, run, big);
    RunWrite(s, b, run, big.pages + 1, k);
    BigMetas(k, b.bigs, run + 0x1000, big);
  }

  lemma BigGrows(s: Store, b: Book, size: nat, run: nat)
    requires Inv(s, b) && size < WORD && FreshRun(b, run, DivRoundup(size, 0x1000) + 1)
    ensures var big := Big(DivRoundup(size, 0x1000), size);
            Grown(s, b, BigMalloc(s, size, run).0, b.(bigs := b.bigs[run + 0x1000 := big]), run + 0x1000)
  {
    var big := Big(DivRoundup(size, 0x1000), size);
    var t, n := BigMalloc(s, size, run).0, b.(bigs := b.bigs[run + 0x1000 := big]);
    PagesBounded(size);
    BigWrites(s.mem, run, big);
    PageAbove(run);
    OnlyInWords(s.mem, t.mem, run, (big.pages + 1) * 0x1000);
    BigKeepsInv(s, b, big, run, t.mem);
    BigBlocks(b, run, big);
    RunKeepsBlocks(s, b, t, n, run, big.pages + 1, run + 0x1000);
  }

  lemma BigBlocks(b: Book, run: nat, big: Big)
    requires SlotsOk(b) && BigsOk(b) && FreshRun(b, run, big.pages + 1)
    ensures var n := b.(bigs := b.bigs[run + 0x1000 := big]);
            && !IsBlock(b, run + 0x1000) && (forall x :: IsBlock(n, x) <==> IsBlock(b, x) || x == run + 0x1000)
            && forall x :: IsBlock(b, x) ==> Extent(n, x) == Extent(b, x)
  {
    forall x | IsBlock(b, x) ensures x != run + 0x1000 { BlockAndRun(b, x, run, big.pages + 1); }
  }

  lemma BigMetas(m: Memory, bigs: map<nat, Big>, q: nat, big: Big)
    requires MetasOk(m, bigs) && q >= 0x2000 && MetaOk(m, q, big)
    ensures MetasOk(m, bigs[q := big])
  {
  }

  lemma BigWrites(m: Memory, run: nat, big: Big)
    requires big.pages < WORD && big.size < WORD
    ensures var k := WriteWord(WriteWord(Fill(m, run, (big.pages + 1) * 0x1000, 0), run, big.pages), run + 8, big.size);
            OnlyIn(m, k, run, (big.pages + 1) * 0x1000) && MetaOk(k, run + 0x1000, big)
  {
    var zero := Fill(m, run, (big.pages + 1) * 0x1000, 0);
    TwoWords(zero, run, big.pages, big.size);
  }

  lemma TwoWords(m: Memory, a: nat, v: nat, w: nat)
    requires v < WORD && w < WORD
    ensures var k := WriteWord(WriteWord(m, a, v), a + 8, w);
            OnlyIn(m, k, a, 16) && ReadWord(k, a) == v && ReadWord(k, a + 8) == w
  {
    var one := WriteWord(m, a, v);
    var k := WriteWord(one, a + 8, w);
    WriteWordElsewhere(m, a, v);
    WriteWordElsewhere(one, a + 8, w);
    ReadWordBack(m, a, v);
    ReadWordBack(one, a + 8, w);
    ReadWordAgree(one, k, a);
  }

  lemma PagesBounded(size: nat)
    requires size < WORD
    ensures DivRoundup(size, 0x1000) < WORD
  {
    PageMask(Add64(size, 0xFFF));
  }

  /** `malloc` makes one new block, and it is large enough unless the page count wraps. */
  lemma MallocGrows(s: Store, b: Book, size: nat, page: nat)
    requires Inv(s, b) && size < WORD && Supply(s, b, size, page)
    ensures |b.lists| == |s.sizes| == |b.shapes|
    ensures var n := BookMalloc(s, b, size, page); var (t, a) := Malloc(s, size, page);
            Grown(s, b, t, n, a) && (Extent(n, a) >= size <==> (GetSlab(s.sizes, size, 0).Some? || size + 0xFFF < WORD))
  {
    GetSlabFinds(s.sizes, size, 0);
    match GetSlab(s.sizes, size, 0) {
      case None =>
        BigGrows(s, b, size, page);
        DivRoundupCovers(size);
      case Some(c) => SlabGrows(s, b, c, page);
    }
  }

  /** The largest size: the page count wraps to none, and the block has no byte at all. */
  lemma MallocTooSmall(s: Store, b: Book, page: nat)
    requires Inv(s, b) && GetSlab(s.sizes, WORD - 1, 0) == None && Supply(s, b, WORD - 1, page)
    ensures |b.lists| == |s.sizes| == |b.shapes|
    ensures Extent(BookMalloc(s, b, WORD - 1, page), Malloc(s, WORD - 1, page).1) == 0
  {
    MallocGrows(s, b, WORD - 1, page);
    NoPages();
  }

  lemma NoPages()
    ensures DivRoundup(WORD - 1, 0x1000) == 0
  {
    PageMask(0xFFE);
  }

  /** What `malloc` returns is zeroed, to its full extent. */
  lemma MallocZeroes(s: Store, b: Book, size: nat, page: nat)
    requires Inv(s, b) && size < WORD && Supply(s, b, size, page)
    ensures |b.lists| == |s.sizes| == |b.shapes|
    ensures var n := BookMalloc(s, b, size, page); var (t, a) := Malloc(s, size, page);
            forall x: nat :: a <= x < a + Extent(n, a) ==> t.mem(x) == 0
  {
    GetSlabFinds(s.sizes, size, 0);
    match GetSlab(s.sizes, size, 0) {
      case None => BigZeroes(s, size, page);
      case Some(c) => SlabGrows(s, b, c, page);
    }
  }

  lemma BigZeroes(s: Store, size: nat, run: nat)
    ensures var t := BigMalloc(s, size, run).0;
            forall x: nat :: run + 0x1000 <= x < run + (DivRoundup(size, 0x1000) + 1) * 0x1000 ==> t.mem(x) == 0
  {
    var pages := DivRoundup(size, 0x1000);
    var zero := Fill(s.mem, run, (pages + 1) * 0x1000, 0);
    WriteWordElsewhere(zero, run, pages);
    WriteWordElsewhere(WriteWord(zero, run, pages), run + 8, size);
  }
}
