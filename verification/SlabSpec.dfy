/**
 The slab allocator on bytes: what each operation does to memory and to the list heads, and the
 account of pages, free slots and live blocks that it keeps.
 */
module SlabSpec {
  import opened Numbers
  import opened BitMath
  import opened ByteMemory
  import opened Slots

  /** The allocator's own fields, at address `at`, and the bytes of memory. */
  datatype Store = Store(mem: Memory, at: nat, sizes: seq<nat>, heads: seq<nat>)

  /** Where a slab object lies in the allocator: `initialized` first, then sixteen bytes for each slab. */
  function SlabPointer(at: nat, c: nat): nat { at + 8 + 16 * c }

  function ClassAt(at: nat, pointer: nat): nat { if pointer < at + 8 then 0 else (pointer - at - 8) / 16 }

  /** The linking loop of `init` from slot `i` on: each free slot points to the next, the last to nothing. */
  function Thread(m: Memory, h: Shape, page: nat, i: nat): Memory
    requires ShapeOk(h) && i < Count(h)
    decreases Count(h) - i
  {
    if i + 1 == Count(h) then WriteWord(m, SlotAt(h, page, i), 0)
    else Thread(WriteWord(m, SlotAt(h, page, i), SlotAt(h, page, i + 1)), h, page, i + 1)
  }

  predicate Built(s: Store) {
    |s.heads| == |s.sizes| && forall c :: 0 <= c < |s.sizes| ==> ShapeOk(ShapeOfSize(s.sizes[c]))
  }

  function ShapeOfSize(size: nat): Shape { if size == 0 then Shape(0, 0) else ShapeOf(size) }

  function Shapes(s: Store): seq<Shape> { seq(|s.sizes|, c requires 0 <= c < |s.sizes| => ShapeOfSize(s.sizes[c])) }

  /** `init` on a zeroed page. */
  function InitSlab(s: Store, c: nat, page: nat): Store
    requires Built(s) && c < |s.heads|
  {
    var h := ShapeOfSize(s.sizes[c]);
    CountFits(h);
    var m := WriteWord(Fill(s.mem, page, 0x1000, 0), page, SlabPointer(s.at, c));
    s.(mem := Thread(m, h, page, 0), heads := s.heads[c := page + h.span])
  }

  function SlabAlloc(s: Store, c: nat, page: nat): (Store, nat)
    requires Built(s) && c < |s.heads|
  {
    var t := if s.heads[c] == 0 then InitSlab(s, c, page) else s;
    var a := t.heads[c];
    (t.(mem := Fill(t.mem, a, s.sizes[c], 0), heads := t.heads[c := ReadWord(t.mem, a)]), a)
  }

  function SlabFree(s: Store, c: nat, ptr: nat): Store
    requires c < |s.heads|
  {
    s.(mem := WriteWord(s.mem, ptr, s.heads[c]), heads := s.heads[c := ptr])
  }

  // ---------------------------------------------------------------------------------------------
  // The account
  // ---------------------------------------------------------------------------------------------

  /** A big block: its pages, and the size it was last asked for. */
  datatype Big = Big(pages: nat, size: nat)

  /** Slab pages with their classes, free slots in list order, live blocks, and big blocks. */
  datatype Book = Book(shapes: seq<Shape>, owned: Pages, lists: seq<seq<nat>>, live: set<nat>, bigs: map<nat, Big>)

  /** The free list that starts at `head` goes through exactly `l` and ends in zero. */
  ghost predicate Chain(m: Memory, head: nat, l: seq<nat>)
    decreases |l|
  {
    if l == [] then head == 0 else head == l[0] && head != 0 && Chain(m, ReadWord(m, head), l[1..])
  }

  ghost predicate HeadersOk(m: Memory, at: nat, owned: Pages) {
    forall p :: p in owned ==> ReadWord(m, p) == SlabPointer(at, owned[p])
  }

  ghost predicate ChainsOk(m: Memory, heads: seq<nat>, lists: seq<seq<nat>>) {
    |heads| == |lists| && forall c :: 0 <= c < |lists| ==> Chain(m, heads[c], lists[c])
  }

  /** A listed slot is free, and no list names a slot twice. */
  ghost predicate ListOk(b: Book, c: nat, l: seq<nat>) {
    && (forall k :: 0 <= k < |l| ==> IsSlot(b.shapes, b.owned, c, l[k]) && l[k] !in b.live)
    && (forall j, k :: 0 <= j < k < |l| ==> l[j] != l[k])
  }

  predicate LiveSlot(b: Book, a: nat) { PageBase(a) in b.owned }

  /** Every slot is listed once or live, and every live block is a slot. */
  ghost predicate SlotsOk(b: Book) {
    && PagesOk(b.shapes, b.owned) && |b.lists| == |b.shapes|
    && (forall c :: 0 <= c < |b.lists| ==> ListOk(b, c, b.lists[c]))
    && (forall c: nat, a: nat {:trigger IsSlot(b.shapes, b.owned, c, a)} ::
          IsSlot(b.shapes, b.owned, c, a) ==> a in b.live || a in b.lists[c])
    && (forall a :: a in b.live ==> LiveSlot(b, a) && IsSlot(b.shapes, b.owned, b.owned[PageBase(a)], a))
  }

  /** The run of a big block: a page for its data, then the pages of the block. */
  function RunEnd(b: Book, q: nat): nat
    requires q in b.bigs
  {
    q + b.bigs[q].pages * 0x1000
  }

  predicate BigOk(b: Book, q: nat)
    requires q in b.bigs
  {
    && q % 0x1000 == 0 && q >= 0x2000 && RunEnd(b, q) <= WORD
    && b.bigs[q].pages == DivRoundup(b.bigs[q].size, 0x1000) && b.bigs[q].size < WORD
    && (forall p :: p in b.owned ==> p + 0x1000 <= q - 0x1000 || RunEnd(b, q) <= p)
    && (forall r :: r in b.bigs && r != q ==> RunEnd(b, r) <= q - 0x1000 || RunEnd(b, q) <= r - 0x1000)
  }

  predicate BigsOk(b: Book) { forall q :: q in b.bigs ==> BigOk(b, q) }

  /** The data page of a big block holds its pages and its size. */
  predicate MetaOk(m: Memory, q: nat, big: Big)
    requires q >= 0x1000
  {
    ReadWord(m, q - 0x1000) == big.pages && ReadWord(m, q - 0x1000 + 8) == big.size
  }

  ghost predicate MetasOk(m: Memory, bigs: map<nat, Big>) {
    forall q :: q in bigs ==> q >= 0x2000 && MetaOk(m, q, bigs[q])
  }

  ghost predicate Inv(s: Store, b: Book) {
    && Built(s) && b.shapes == Shapes(s) && SlabPointer(s.at, |s.sizes|) <= WORD
    && HeadersOk(s.mem, s.at, b.owned) && ChainsOk(s.mem, s.heads, b.lists)
    && SlotsOk(b) && BigsOk(b) && MetasOk(s.mem, b.bigs)
  }

  /** A run of free pages, as the physical allocator hands them out. */
  predicate FreshRun(b: Book, run: nat, n: nat) {
    && run % 0x1000 == 0 && 0 < run && run + n * 0x1000 <= WORD
    && (forall p :: p in b.owned ==> p + 0x1000 <= run || run + n * 0x1000 <= p)
    && (forall q :: q in b.bigs ==> RunEnd(b, q) <= run || run + n * 0x1000 <= q - 0x1000)
  }

  // ---------------------------------------------------------------------------------------------
  // What writes leave alone
  // ---------------------------------------------------------------------------------------------

  /** `k` differs from `m` only in the `n` bytes at `lo`. */
  ghost predicate OnlyIn(m: Memory, k: Memory, lo: nat, n: nat) { forall x: nat :: x < lo || x >= lo + n ==> k(x) == m(x) }

  predicate Clear(a: nat, len: nat, lo: nat, n: nat) { a + len <= lo || lo + n <= a }

  lemma WordKept(m: Memory, k: Memory, a: nat, lo: nat, n: nat)
    requires OnlyIn(m, k, lo, n) && Clear(a, 8, lo, n)
    ensures ReadWord(k, a) == ReadWord(m, a)
  {
    ReadWordAgree(m, k, a);
  }

  /** All words clear of the `n` bytes at `lo` read the same. */
  ghost predicate WordsKept(m: Memory, k: Memory, lo: nat, n: nat) {
    forall a: nat {:trigger ReadWord(k, a)} :: Clear(a, 8, lo, n) ==> ReadWord(k, a) == ReadWord(m, a)
  }

  lemma OnlyInWords(m: Memory, k: Memory, lo: nat, n: nat)
    requires OnlyIn(m, k, lo, n)
    ensures WordsKept(m, k, lo, n)
  {
    forall a: nat | Clear(a, 8, lo, n) ensures ReadWord(k, a) == ReadWord(m, a) { WordKept(m, k, a, lo, n); }
  }

  lemma HeadersKept(m: Memory, k: Memory, at: nat, owned: Pages, lo: nat, n: nat)
    requires HeadersOk(m, at, owned) && WordsKept(m, k, lo, n)
    requires forall p :: p in owned ==> Clear(p, 8, lo, n)
    ensures HeadersOk(k, at, owned)
  {
  }

  lemma MetasKept(m: Memory, k: Memory, bigs: map<nat, Big>, lo: nat, n: nat)
    requires MetasOk(m, bigs) && WordsKept(m, k, lo, n)
    requires forall q :: q in bigs ==> q >= 0x2000 && Clear(q - 0x1000, 16, lo, n)
    ensures MetasOk(k, bigs)
  {
  }

  lemma {:induction false} ChainKept(m: Memory, k: Memory, head: nat, l: seq<nat>, lo: nat, n: nat)
    requires Chain(m, head, l) && WordsKept(m, k, lo, n)
    requires forall i :: 0 <= i < |l| ==> Clear(l[i], 8, lo, n)
    ensures Chain(k, head, l)
    decreases |l|
  {
    if l != [] {
      ChainKept(m, k, ReadWord(m, head), l[1..], lo, n);
    }
  }

  /** The block at slot `a` meets no header, no big block's data page, and no other slot's link. */
  lemma BlockClear(b: Book, c: nat, a: nat)
    requires SlotsOk(b) && BigsOk(b) && IsSlot(b.shapes, b.owned, c, a)
    ensures forall p :: p in b.owned ==> Clear(p, 8, a, b.shapes[c].size)
    ensures forall q :: q in b.bigs ==> q >= 0x2000 && Clear(q - 0x1000, 16, a, b.shapes[c].size)
    ensures forall d: nat, x: nat :: IsSlot(b.shapes, b.owned, d, x) && x != a ==> Clear(x, 8, a, b.shapes[c].size)
  {
    SlotBlock(b.shapes, b.owned, c, a);
    var page := PageBase(a);
    forall p | p in b.owned ensures Clear(p, 8, a, b.shapes[c].size) {
      WithinPage(p, 0);
      if p != page { PagesApart(p, a); }
    }
    forall q | q in b.bigs ensures q >= 0x2000 && Clear(q - 0x1000, 16, a, b.shapes[c].size) {
      assert BigOk(b, q);
    }
    forall d: nat, x: nat | IsSlot(b.shapes, b.owned, d, x) && x != a ensures Clear(x, 8, a, b.shapes[c].size) {
      BlocksApart(b.shapes, b.owned, c, a, d, x);
      SlotBlock(b.shapes, b.owned, d, x);
    }
  }

  /** What a write inside the block at `a` keeps: headers, data pages, and all lists that do not name `a`. */
  lemma BlockWrite(s: Store, b: Book, c: nat, a: nat, k: Memory)
    requires Inv(s, b) && IsSlot(b.shapes, b.owned, c, a) && WordsKept(s.mem, k, a, b.shapes[c].size)
    ensures HeadersOk(k, s.at, b.owned) && MetasOk(k, b.bigs)
    ensures forall d, head, l {:trigger Chain(s.mem, head, l), ListOk(b, d, l)} ::
              Chain(s.mem, head, l) && ListOk(b, d, l) && a !in l ==> Chain(k, head, l)
  {
    var n := b.shapes[c].size;
    BlockClear(b, c, a);
    HeadersKept(s.mem, k, s.at, b.owned, a, n);
    MetasKept(s.mem, k, b.bigs, a, n);
    forall d, head, l | Chain(s.mem, head, l) && ListOk(b, d, l) && a !in l ensures Chain(k, head, l) {
      forall i | 0 <= i < |l| ensures Clear(l[i], 8, a, n) {
        assert IsSlot(b.shapes, b.owned, d, l[i]) && l[i] != a;
      }
      ChainKept(s.mem, k, head, l, a, n);
    }
  }
}
