/**
 The layout of a slab page: a header, then slots of one size up to the end of the page.
 */
module Slots {
  import opened Numbers
  import opened BitMath

  /** Slots of `size` bytes from offset `span` on. */
  datatype Shape = Shape(size: nat, span: nat)

  /** Size and header span are multiples of 16, and small enough for three slots. */
  predicate ShapeOk(h: Shape) {
    h.size % 16 == 0 && 16 <= h.size <= 1024 && h.span % 16 == 0 && 16 <= h.span <= 1024
  }

  /** The header takes `align_up(sizeof(slab_header), size)` bytes. */
  function ShapeOf(size: nat): Shape
    requires size > 0
  {
    Shape(size, AlignUp(8, size))
  }

  lemma {:induction false} LowBitBounded(n: nat)
    requires n > 0
    ensures 0 < LowBit(n) <= n
  {
    if n % 2 == 0 { LowBitBounded(n / 2); }
  }

  /** Any multiple of 16 up to 1024 gives a good shape, and its span is the lowest set bit of the size. */
  lemma ShapeFits(size: nat)
    requires size % 16 == 0 && 16 <= size <= 1024
    ensures ShapeOk(ShapeOf(size)) && ShapeOf(size).span == LowBit(size)
  {
    HeaderSpanIsLowBit(size);
    var e := size / 16;
    LowBitBounded(e);
    LowBitOfMultiple(e);
    LowBitBounded(size);
    assert LowBit(size) == 16 * LowBit(e);
  }

  /** The slots of a page. */
  function Count(h: Shape): nat
    requires ShapeOk(h)
  {
    (0x1000 - h.span) / h.size
  }

  lemma Below(i: nat, n: nat, size: nat)
    requires i < n
    ensures i * size + size <= n * size
  {
    assert (i + 1) * size <= n * size;
  }

  lemma DivFloor(room: nat, size: nat)
    requires size > 0
    ensures room / size * size <= room < room / size * size + size
  {
  }

  /** At least three slots fit, and they fit the page. */
  lemma CountFits(h: Shape)
    requires ShapeOk(h)
    ensures Count(h) >= 3 && h.span + Count(h) * h.size <= 0x1000
  {
    DivFloor(0x1000 - h.span, h.size);
    if Count(h) < 3 { Below(Count(h), 3, h.size); }
  }

  /** The address of slot `i` of the page at `page`. */
  function SlotAt(h: Shape, page: nat, i: nat): nat { page + h.span + i * h.size }

  function PageBase(a: nat): nat { a - a % 0x1000 }

  ghost predicate InGrid(h: Shape, page: nat, a: nat) {
    ShapeOk(h) && exists i: nat :: i < Count(h) && a == SlotAt(h, page, i)
  }

  lemma MultipleOf16(i: nat, size: nat)
    requires size % 16 == 0
    ensures (i * size) % 16 == 0
  {
    assert i * size == 16 * (i * (size / 16));
  }

  lemma Sixteens(page: nat, a: nat, b: nat)
    requires page % 0x1000 == 0 && a % 16 == 0 && b % 16 == 0
    ensures (page + a + b) % 16 == 0
  {
    Division(page, 0x1000);
    Division(a, 16);
    Division(b, 16);
    ModUnique(page + a + b, 16, 256 * (page / 0x1000) + a / 16 + b / 16, 0);
  }

  lemma WithinPage(page: nat, o: nat)
    requires page % 0x1000 == 0 && o < 0x1000
    ensures PageBase(page + o) == page && (page + o) % 0x1000 == o
  {
  }

  /** A slot lies in its page after the header, on a 16-byte boundary and never on a page boundary. */
  lemma SlotInPage(h: Shape, page: nat, i: nat)
    requires ShapeOk(h) && page % 0x1000 == 0 && i < Count(h)
    ensures var a := SlotAt(h, page, i);
            && page + 16 <= a && a + h.size <= page + 0x1000 && a % 16 == 0
            && PageBase(a) == page && a % 0x1000 != 0
  {
    CountFits(h);
    var n := i * h.size;
    Below(i, Count(h), h.size);
    MultipleOf16(i, h.size);
    WithinPage(page, h.span + n);
    Sixteens(page, h.span, n);
  }

  /** Two slots of one page do not overlap. */
  lemma SlotsApart(h: Shape, page: nat, i: nat, j: nat)
    requires i != j
    ensures SlotAt(h, page, i) + h.size <= SlotAt(h, page, j) || SlotAt(h, page, j) + h.size <= SlotAt(h, page, i)
  {
    if i < j { Below(i, j, h.size); } else { Below(j, i, h.size); }
  }

  lemma PagesApart(a: nat, b: nat)
    requires PageBase(a) != PageBase(b)
    ensures PageBase(a) + 0x1000 <= PageBase(b) || PageBase(b) + 0x1000 <= PageBase(a)
  {
  }

  // ---------------------------------------------------------------------------------------------
  // The slots of all slab pages
  // ---------------------------------------------------------------------------------------------

  /** The owned pages, each with the number of its class. */
  type Pages = map<nat, nat>

  predicate ShapesOk(shapes: seq<Shape>) { forall c :: 0 <= c < |shapes| ==> ShapeOk(shapes[c]) }

  predicate PagesOk(shapes: seq<Shape>, owned: Pages) {
    ShapesOk(shapes) && forall p :: p in owned ==> p % 0x1000 == 0 && 0 < p && p + 0x1000 <= WORD && owned[p] < |shapes|
  }

  /** `a` is the address of a slot of class `c`. */
  ghost predicate IsSlot(shapes: seq<Shape>, owned: Pages, c: nat, a: nat) {
    c < |shapes| && PageBase(a) in owned && owned[PageBase(a)] == c && InGrid(shapes[c], PageBase(a), a)
  }

  /** The block at any slot: where it lies. */
  lemma SlotBlock(shapes: seq<Shape>, owned: Pages, c: nat, a: nat)
    requires PagesOk(shapes, owned) && IsSlot(shapes, owned, c, a)
    ensures shapes[c].size >= 16 && a % 16 == 0 && a % 0x1000 != 0
    ensures PageBase(a) + 16 <= a && a + shapes[c].size <= PageBase(a) + 0x1000 <= WORD
  {
    var page := PageBase(a);
    var i: nat :| i < Count(shapes[c]) && a == SlotAt(shapes[c], page, i);
    SlotInPage(shapes[c], page, i);
  }

  /** Blocks at different slots do not overlap. */
  lemma BlocksApart(shapes: seq<Shape>, owned: Pages, c: nat, a: nat, d: nat, b: nat)
    requires PagesOk(shapes, owned) && IsSlot(shapes, owned, c, a) && IsSlot(shapes, owned, d, b) && a != b
    ensures a + shapes[c].size <= b || b + shapes[d].size <= a
  {
    SlotBlock(shapes, owned, c, a);
    SlotBlock(shapes, owned, d, b);
    if PageBase(a) == PageBase(b) {
      var h, page := shapes[c], PageBase(a);
      var i: nat :| i < Count(h) && a == SlotAt(h, page, i);
      var j: nat :| j < Count(h) && b == SlotAt(h, page, j);
      SlotsApart(h, page, i, j);
    } else {
      PagesApart(a, b);
    }
  }

  /** The slots of a page from number `i` on. */
  function SlotsFrom(h: Shape, page: nat, i: nat): seq<nat>
    requires ShapeOk(h) && i <= Count(h)
    decreases Count(h) - i
  {
    if i == Count(h) then [] else [SlotAt(h, page, i)] + SlotsFrom(h, page, i + 1)
  }

  lemma {:induction false} SlotsListed(h: Shape, page: nat, i: nat)
    requires ShapeOk(h) && i <= Count(h)
    ensures |SlotsFrom(h, page, i)| == Count(h) - i
    ensures forall k :: 0 <= k < Count(h) - i ==> SlotsFrom(h, page, i)[k] == SlotAt(h, page, i + k)
    decreases Count(h) - i
  {
    if i < Count(h) {
      SlotsListed(h, page, i + 1);
      forall k | 0 < k < Count(h) - i ensures SlotsFrom(h, page, i)[k] == SlotAt(h, page, i + k) {
        assert SlotsFrom(h, page, i)[k] == SlotsFrom(h, page, i + 1)[k - 1];
        assert i + 1 + (k - 1) == i + k;
      }
    }
  }
}
