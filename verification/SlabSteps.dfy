/**
 Taking a slot, giving one back, and adding a page keep the account right.
 */
module SlabSteps {
  import opened Numbers
  import opened ByteMemory
  import opened Slots
  import opened SlabSpec

  function TakeSlot(b: Book, c: nat): Book
    requires c < |b.lists| && b.lists[c] != []
  {
    b.(lists := b.lists[c := b.lists[c][1..]], live := b.live + {b.lists[c][0]})
  }

  function GiveSlot(b: Book, c: nat, a: nat): Book
    requires c < |b.lists|
  {
    b.(lists := b.lists[c := [a] + b.lists[c]], live := b.live - {a})
  }

  function AddPage(b: Book, c: nat, page: nat): Book
    requires c < |b.lists| && c < |b.shapes| && ShapeOk(b.shapes[c])
  {
    b.(owned := b.owned[page := c], lists := b.lists[c := SlotsFrom(b.shapes[c], page, 0)])
  }

  // ---------------------------------------------------------------------------------------------
  // The account
  // ---------------------------------------------------------------------------------------------

  lemma TakeBook(b: Book, c: nat)
    requires SlotsOk(b) && c < |b.lists| && b.lists[c] != []
    ensures SlotsOk(TakeSlot(b, c))
  {
    var n, a, l := TakeSlot(b, c), b.lists[c][0], b.lists[c];
    assert ListOk(b, c, l);
    forall d | 0 <= d < |n.lists| ensures ListOk(n, d, n.lists[d]) {
      assert ListOk(b, d, b.lists[d]);
      if d == c {
        assert forall k :: 0 <= k < |l| - 1 ==> l[1..][k] == l[k + 1];
      } else {
        ListsApart(b, c, d, a);
      }
    }
    forall d: nat, x: nat | IsSlot(n.shapes, n.owned, d, x) ensures x in n.live || x in n.lists[d] {
      assert IsSlot(b.shapes, b.owned, d, x);
      if x in b.lists[c] && x != a { Tail(l, x); }
    }
  }

  lemma Tail(l: seq<nat>, x: nat)
    requires x in l && x != l[0]
    ensures x in l[1..]
  {
    var k :| 0 <= k < |l| && l[k] == x;
    assert l[1..][k - 1] == x;
  }

  /** A slot is of one class only. */
  lemma ListsApart(b: Book, c: nat, d: nat, a: nat)
    requires SlotsOk(b) && c < |b.lists| && d < |b.lists| && c != d && a in b.lists[c]
    ensures a !in b.lists[d]
  {
    assert ListOk(b, c, b.lists[c]) && ListOk(b, d, b.lists[d]);
    assert IsSlot(b.shapes, b.owned, c, a);
    forall k | 0 <= k < |b.lists[d]| ensures b.lists[d][k] != a {
      assert IsSlot(b.shapes, b.owned, d, b.lists[d][k]);
    }
  }

  lemma GiveBook(b: Book, c: nat, a: nat)
    requires SlotsOk(b) && a in b.live && c == b.owned[PageBase(a)]
    ensures c < |b.lists| && IsSlot(b.shapes, b.owned, c, a) && SlotsOk(GiveSlot(b, c, a))
  {
    var n := GiveSlot(b, c, a);
    forall d | 0 <= d < |n.lists| ensures ListOk(n, d, n.lists[d]) {
      assert ListOk(b, d, b.lists[d]);
    }
    forall d: nat, x: nat | IsSlot(n.shapes, n.owned, d, x) ensures x in n.live || x in n.lists[d] {
      assert IsSlot(b.shapes, b.owned, d, x);
    }
  }

  lemma PageBook(b: Book, c: nat, page: nat)
    requires SlotsOk(b) && c < |b.lists| && b.lists[c] == [] && FreshRun(b, page, 1)
    ensures ShapeOk(b.shapes[c]) && SlotsOk(AddPage(b, c, page))
  {
    var n, h := AddPage(b, c, page), b.shapes[c];
    WithinPage(page, 0);
    assert page !in b.owned;
    OldSlots(b, n, page);
    PageList(b, n, c, page);
    forall d | 0 <= d < |n.lists| ensures ListOk(n, d, n.lists[d]) {
      if d != c { OldList(b, n, page, d, b.lists[d]); }
    }
    forall d: nat, x: nat | IsSlot(n.shapes, n.owned, d, x) ensures x in n.live || x in n.lists[d] {
      if PageBase(x) == page {
        var i: nat :| i < Count(h) && x == SlotAt(h, page, i);
        SlotsListed(h, page, 0);
        assert n.lists[c][i] == x;
      } else {
        assert IsSlot(b.shapes, b.owned, d, x);
      }
    }
  }

  lemma OldSlots(b: Book, n: Book, page: nat)
    requires n.shapes == b.shapes && page !in b.owned && forall p :: p in b.owned ==> p in n.owned && n.owned[p] == b.owned[p]
    ensures forall d: nat, x: nat :: IsSlot(b.shapes, b.owned, d, x) ==> PageBase(x) != page && IsSlot(n.shapes, n.owned, d, x)
  {
  }

  lemma OldList(b: Book, n: Book, page: nat, d: nat, l: seq<nat>)
    requires ListOk(b, d, l) && n.live == b.live
    requires forall d: nat, x: nat :: IsSlot(b.shapes, b.owned, d, x) ==> PageBase(x) != page && IsSlot(n.shapes, n.owned, d, x)
    ensures ListOk(n, d, l)
  {
  }

  lemma PageList(b: Book, n: Book, c: nat, page: nat)
    requires SlotsOk(b) && c < |b.lists| && FreshRun(b, page, 1) && page !in b.owned
    requires ShapeOk(b.shapes[c]) && n == AddPage(b, c, page)
    ensures ListOk(n, c, n.lists[c])
  {
    var h, l := b.shapes[c], n.lists[c];
    SlotsListed(h, page, 0);
    forall k | 0 <= k < |l| ensures IsSlot(n.shapes, n.owned, c, l[k]) && l[k] !in n.live {
      SlotInPage(h, page, k);
      assert l[k] == SlotAt(h, page, k);
      assert PageBase(l[k]) == page;
      assert InGrid(h, page, l[k]);
    }
    forall j, k | 0 <= j < k < |l| ensures l[j] != l[k] {
      SlotsApart(h, page, j, k);
    }
  }

  // ---------------------------------------------------------------------------------------------
  // Memory
  // ---------------------------------------------------------------------------------------------

  lemma BookClass(s: Store, b: Book, c: nat)
    requires Inv(s, b) && c < |s.heads|
    ensures |b.lists| == |s.heads| == |b.shapes| && b.shapes[c] == ShapeOfSize(s.sizes[c]) && b.shapes[c].size == s.sizes[c]
    ensures Chain(s.mem, s.heads[c], b.lists[c]) && ListOk(b, c, b.lists[c])
  {
    assert ShapeOk(ShapeOfSize(s.sizes[c]));
  }

  /** `alloc` from a list that is not empty. */
  lemma TakeKeepsInv(s: Store, b: Book, c: nat, page: nat)
    requires Inv(s, b) && c < |s.heads| && s.heads[c] != 0
    ensures |b.lists| == |s.heads| && b.lists[c] != [] && SlabAlloc(s, c, page).1 == b.lists[c][0]
    ensures Inv(SlabAlloc(s, c, page).0, TakeSlot(b, c))
  {
    BookClass(s, b, c);
    var a, l := s.heads[c], b.lists[c];
    var t, n := SlabAlloc(s, c, page).0, TakeSlot(b, c);
    assert IsSlot(b.shapes, b.owned, c, l[0]);
    TakeBook(b, c);
    OnlyInWords(s.mem, t.mem, a, s.sizes[c]);
    BlockWrite(s, b, c, a, t.mem);
    TakeChains(s.mem, s.heads, b, c, t.mem);
    assert BigsOk(n) by { BigsUnchanged(b, n); }
  }

  lemma BigsUnchanged(b: Book, n: Book)
    requires BigsOk(b) && n.bigs == b.bigs && n.owned == b.owned
    ensures BigsOk(n)
  {
    forall q | q in n.bigs ensures BigOk(n, q) { assert BigOk(b, q); }
  }

  /** Lists that do not name `a` survive. */
  ghost predicate KeepsOthers(m: Memory, k: Memory, b: Book, a: nat) {
    forall d, head, l {:trigger Chain(m, head, l), ListOk(b, d, l)} ::
      Chain(m, head, l) && ListOk(b, d, l) && a !in l ==> Chain(k, head, l)
  }

  lemma ListTail(b: Book, c: nat, l: seq<nat>)
    requires l != [] && ListOk(b, c, l)
    ensures ListOk(b, c, l[1..]) && l[0] !in l[1..]
  {
    forall k | 0 <= k < |l| - 1 ensures l[1..][k] == l[k + 1] {}
  }

  lemma TakeChains(m: Memory, heads: seq<nat>, b: Book, c: nat, k: Memory)
    requires ChainsOk(m, heads, b.lists) && SlotsOk(b) && c < |heads| && b.lists[c] != []
    requires KeepsOthers(m, k, b, b.lists[c][0])
    ensures ChainsOk(k, heads[c := ReadWord(m, heads[c])], TakeSlot(b, c).lists)
  {
    var l := b.lists[c];
    ListTail(b, c, l);
    assert Chain(m, heads[c], l);
    assert Chain(m, ReadWord(m, heads[c]), l[1..]);
    forall d | 0 <= d < |heads| && d != c ensures Chain(k, heads[d], b.lists[d]) {
      ListsApart(b, c, d, l[0]);
      assert ListOk(b, d, b.lists[d]) && Chain(m, heads[d], b.lists[d]);
    }
  }

  /** `free` of a live slot of class `c`. */
  lemma GiveKeepsInv(s: Store, b: Book, c: nat, a: nat)
    requires Inv(s, b) && a in b.live && c == b.owned[PageBase(a)]
    ensures c < |s.heads| && c < |b.lists| && Inv(SlabFree(s, c, a), GiveSlot(b, c, a))
  {
    GiveBook(b, c, a);
    BookClass(s, b, c);
    var t, n := SlabFree(s, c, a), GiveSlot(b, c, a);
    SlotBlock(b.shapes, b.owned, c, a);
    WriteWordElsewhere(s.mem, a, s.heads[c]);
    OnlyInWords(s.mem, t.mem, a, s.sizes[c]);
    BlockWrite(s, b, c, a, t.mem);
    HeadsAreWords(s, b, c);
    ReadWordBack(s.mem, a, s.heads[c]);
    GiveChains(s.mem, s.heads, b, c, a, t.mem);
    BigsUnchanged(b, n);
  }

  lemma HeadsAreWords(s: Store, b: Book, c: nat)
    requires Inv(s, b) && c < |s.heads|
    ensures s.heads[c] < WORD
  {
    BookClass(s, b, c);
    if b.lists[c] != [] {
      assert IsSlot(b.shapes, b.owned, c, b.lists[c][0]);
      SlotBlock(b.shapes, b.owned, c, b.lists[c][0]);
    }
  }

  lemma GiveChains(m: Memory, heads: seq<nat>, b: Book, c: nat, a: nat, k: Memory)
    requires ChainsOk(m, heads, b.lists) && SlotsOk(b) && a in b.live && c < |heads| && a > 0
    requires ReadWord(k, a) == heads[c] && KeepsOthers(m, k, b, a)
    ensures ChainsOk(k, heads[c := a], GiveSlot(b, c, a).lists)
  {
    forall d | 0 <= d < |b.lists| ensures Chain(k, heads[d], b.lists[d]) {
      assert ListOk(b, d, b.lists[d]) && Chain(m, heads[d], b.lists[d]);
    }
    assert ([a] + b.lists[c])[1..] == b.lists[c];
    assert Chain(k, a, [a] + b.lists[c]);
  }

  // ---------------------------------------------------------------------------------------------
  // A new page
  // ---------------------------------------------------------------------------------------------

  lemma SlotNext(h: Shape, page: nat, i: nat)
    ensures SlotAt(h, page, i + 1) == SlotAt(h, page, i) + h.size
  {
    assert (i + 1) * h.size == i * h.size + h.size;
  }

  /** In `k` the free list `l` starts at `here`, and `k` differs from `m` only from there to `end`. */
  ghost predicate Threaded(m: Memory, k: Memory, here: nat, end: nat, l: seq<nat>) {
    Chain(k, here, l) && forall x: nat :: x < here || x >= end ==> k(x) == m(x)
  }

  /** The linking loop makes the slots from number `i` on a list, and writes nowhere else. */
  lemma {:induction false} ThreadChain(m: Memory, h: Shape, page: nat, i: nat)
    requires ShapeOk(h) && page % 0x1000 == 0 && 0 < page && page + 0x1000 <= WORD && i < Count(h)
    ensures Threaded(m, Thread(m, h, page, i), SlotAt(h, page, i), page + 0x1000, SlotsFrom(h, page, i))
    decreases Count(h) - i
  {
    var here := SlotAt(h, page, i);
    SlotInPage(h, page, i);
    if i + 1 == Count(h) {
      ThreadEnd(m, here, page + 0x1000);
      assert SlotsFrom(h, page, i + 1) == [];
      assert SlotsFrom(h, page, i) == [here];
    } else {
      var next := SlotAt(h, page, i + 1);
      SlotNext(h, page, i);
      SlotInPage(h, page, i + 1);
      var k := WriteWord(m, here, next);
      ThreadChain(k, h, page, i + 1);
      ThreadLink(m, here, next, page + 0x1000, Thread(k, h, page, i + 1), SlotsFrom(h, page, i + 1));
    }
  }

  lemma ThreadEnd(m: Memory, here: nat, end: nat)
    requires 0 < here && here + 8 <= end
    ensures Threaded(m, WriteWord(m, here, 0), here, end, [here])
  {
    WriteWordElsewhere(m, here, 0);
    ReadWordBack(m, here, 0);
    assert Chain(WriteWord(m, here, 0), 0, [here][1..]);
  }

  lemma ThreadLink(m: Memory, here: nat, next: nat, end: nat, k: Memory, rest: seq<nat>)
    requires 0 < here && here + 8 <= next < WORD && next <= end
    requires Threaded(WriteWord(m, here, next), k, next, end, rest)
    ensures Threaded(m, k, here, end, [here] + rest)
  {
    WriteWordElsewhere(m, here, next);
    ReadWordBack(m, here, next);
    ReadWordAgree(WriteWord(m, here, next), k, here);
    assert ([here] + rest)[1..] == rest;
  }

  /** The page after `init`: its header names the slab, its slots form the list, and nothing outside changed. */
  lemma PageInit(s: Store, c: nat, page: nat)
    requires Built(s) && c < |s.heads| && page % 0x1000 == 0 && 0 < page && page + 0x1000 <= WORD && SlabPointer(s.at, c) < WORD
    ensures var t := InitSlab(s, c, page); var h := ShapeOfSize(s.sizes[c]);
            && OnlyIn(s.mem, t.mem, page, 0x1000) && ReadWord(t.mem, page) == SlabPointer(s.at, c)
            && ShapeOk(h) && t.heads[c] != 0 && Chain(t.mem, t.heads[c], SlotsFrom(h, page, 0))
  {
    var h, zero := ShapeOfSize(s.sizes[c]), Fill(s.mem, page, 0x1000, 0);
    CountFits(h);
    var head := WriteWord(zero, page, SlabPointer(s.at, c));
    WriteWordElsewhere(zero, page, SlabPointer(s.at, c));
    ReadWordBack(zero, page, SlabPointer(s.at, c));
    ThreadChain(head, h, page, 0);
    assert SlotAt(h, page, 0) == page + h.span;
    ReadWordAgree(head, InitSlab(s, c, page).mem, page);
  }

  /** `init` for a class whose list is empty. */
  lemma InitKeepsInv(s: Store, b: Book, c: nat, page: nat)
    requires Inv(s, b) && c < |s.heads| && s.heads[c] == 0 && FreshRun(b, page, 1)
    ensures |b.lists| == |s.heads| && ShapeOk(b.shapes[c])
    ensures InitSlab(s, c, page).heads[c] != 0 && Inv(InitSlab(s, c, page), AddPage(b, c, page))
  {
    BookClass(s, b, c);
    var t := InitSlab(s, c, page);
    PageBook(b, c, page);
    var n := AddPage(b, c, page);
    PageInit(s, c, page);
    OnlyInWords(s.mem, t.mem, page, 0x1000);
    RunWrite(s, b, page, 1, t.mem);
    assert HeadersOk(t.mem, t.at, n.owned);
    PageBigs(b, c, page);
  }

  lemma PageBigs(b: Book, c: nat, page: nat)
    requires BigsOk(b) && FreshRun(b, page, 1) && c < |b.lists| && c < |b.shapes| && ShapeOk(b.shapes[c])
    ensures BigsOk(AddPage(b, c, page))
  {
    var n := AddPage(b, c, page);
    forall q | q in n.bigs ensures BigOk(n, q) {
      assert BigOk(b, q);
      assert RunEnd(n, q) == RunEnd(b, q);
    }
  }

  /** What writes inside a fresh run keep: everything. */
  lemma RunWrite(s: Store, b: Book, run: nat, n: nat, k: Memory)
    requires Inv(s, b) && FreshRun(b, run, n) && WordsKept(s.mem, k, run, n * 0x1000)
    ensures HeadersOk(k, s.at, b.owned) && MetasOk(k, b.bigs) && ChainsOk(k, s.heads, b.lists)
  {
    var len := n * 0x1000;
    RunClear(b, run, len);
    HeadersKept(s.mem, k, s.at, b.owned, run, len);
    MetasKept(s.mem, k, b.bigs, run, len);
    RunChains(s.mem, s.heads, b, run, len, k);
  }

  lemma RunClear(b: Book, run: nat, len: nat)
    requires BigsOk(b)
    requires forall p :: p in b.owned ==> p + 0x1000 <= run || run + len <= p
    requires forall q :: q in b.bigs ==> RunEnd(b, q) <= run || run + len <= q - 0x1000
    ensures forall p :: p in b.owned ==> Clear(p, 8, run, len)
    ensures forall q :: q in b.bigs ==> q >= 0x2000 && Clear(q - 0x1000, 16, run, len)
  {
    forall q | q in b.bigs ensures q >= 0x2000 && Clear(q - 0x1000, 16, run, len) { assert BigOk(b, q); }
  }

  lemma RunChains(m: Memory, heads: seq<nat>, b: Book, lo: nat, n: nat, k: Memory)
    requires ChainsOk(m, heads, b.lists) && SlotsOk(b) && WordsKept(m, k, lo, n)
    requires forall p :: p in b.owned ==> p + 0x1000 <= lo || lo + n <= p
    ensures ChainsOk(k, heads, b.lists)
  {
    forall c | 0 <= c < |b.lists| ensures Chain(k, heads[c], b.lists[c]) {
      var l := b.lists[c];
      assert ListOk(b, c, l);
      forall i | 0 <= i < |l| ensures Clear(l[i], 8, lo, n) {
        SlotBlock(b.shapes, b.owned, c, l[i]);
      }
      ChainKept(m, k, heads[c], l, lo, n);
    }
  }
}
