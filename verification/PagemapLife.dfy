/**
 The birth and death of address spaces: the page-map constructor, and what destroying one leaves.
 */
module PagemapLife {
  import opened Options
  import opened PageEntry
  import opened PageTables
  import opened AddressSpaces
  import opened Pagemap

  // ---------------------------------------------------------------------------------------------
  // The constructor
  // ---------------------------------------------------------------------------------------------

  /** The first page map: a table below every upper-half entry from `i` on. */
  function GrowUpper(h: Heap, top: Table, i: bv64): Outcome<()>
    requires i <= 512
    decreases 512 - i
  {
    if i == 512 then Ret(h, ())
    else
      match NextLevel(h, top, i, true)
      case Panic => Panic
      case Ret(g, _) => GrowUpper(g, top, i + 1)
  }

  /** Later page maps: the upper-half entries of the kernel's top-level table, from `i` on. */
  function CopyUpper(m: Memory, from: Table, to: Table, i: bv64): Memory
    requires i <= 512
    decreases 512 - i
  {
    if i == 512 then m else CopyUpper(Poke(m, Slot(to, i), Read(m, Slot(from, i))), from, to, i + 1)
  }

  /** `new page_table_t` for the top level. */
  function TakeTop(h: Heap): Heap
    requires h.pool != []
  {
    h.(tables := h.tables + {h.pool[0]}, pool := h.pool[1..])
  }

  function NewPagemap(h: Heap, kernel: Option<Table>): Outcome<Table> {
    if h.pool == [] then Panic
    else
      var top, g := h.pool[0], TakeTop(h);
      match kernel
      case None =>
        (match GrowUpper(g, top, 256)
         case Panic => Panic
         case Ret(k, _) => Ret(k, top))
      case Some(k) => Ret(g.(mem := CopyUpper(g.mem, k, top, 256)), top)
  }

  function Copied(m: Memory, from: Table, to: Table, i: bv64, s: Slot): bv64 {
    if s.table == to && i <= s.index && s.index < 512 then Read(m, Slot(from, s.index)) else Read(m, s)
  }

  lemma CopiedStep(m: Memory, from: Table, to: Table, i: bv64, s: Slot)
    requires i < 512 && from != to
    ensures Copied(Poke(m, Slot(to, i), Read(m, Slot(from, i))), from, to, i + 1, s) == Copied(m, from, to, i, s)
  {
    FirstOrLater(i, s.index);
    if s.index == i {
      assert s == Slot(s.table, i);
    } else {
      assert s != Slot(to, i);
    }
  }

  lemma {:induction false} CopiedUpper(m: Memory, from: Table, to: Table, i: bv64, s: Slot)
    requires i <= 512 && from != to
    ensures Read(CopyUpper(m, from, to, i), s) == Copied(m, from, to, i, s)
    ensures CopyUpper(m, from, to, i).gib1 == m.gib1
    decreases 512 - i
  {
    if i < 512 {
      CopiedUpper(Poke(m, Slot(to, i), Read(m, Slot(from, i))), from, to, i + 1, s);
      CopiedStep(m, from, to, i, s);
    }
  }

  lemma FirstOrLater(i: bv64, j: bv64)
    requires i < 512
    ensures i <= j <==> j == i || i + 1 <= j
    ensures j < i + 1 <==> j < i || j == i
  {
  }

  lemma {:induction false} CopiedCells(m: Memory, from: Table, to: Table, i: bv64, s: Slot)
    requires i <= 512 && s in CopyUpper(m, from, to, i).cells
    ensures s in m.cells || s.table == to
    decreases 512 - i
  {
    if i < 512 {
      CopiedCells(Poke(m, Slot(to, i), Read(m, Slot(from, i))), from, to, i + 1, s);
    }
  }

  /** Memories that agree on all placed tables translate alike from them. */
  lemma {:induction false} AgreeOnTables(m: Memory, n: Memory, place: Places, t: Table, path: Path)
    requires Entries(m, place) && t in place && path != [] && |place[t].prefix| + |path| == 4 && n.gib1 == m.gib1
    requires forall x, i {:trigger Slot(x, i)} :: x in place ==> Read(n, Slot(x, i)) == Read(m, Slot(x, i))
    ensures HwWalk(n, t, path) == HwWalk(m, t, path)
    decreases |path|
  {
    var e := Read(m, Slot(t, path[0]));
    if Present(e) && |path| > 1 && !LargeBit(e) {
      Child(m, place, t, path[0]);
      AgreeOnTables(m, n, place, Table(Address(e)), path[1..]);
    }
  }

  /** An empty top-level table joins the heap. */
  lemma TopTaken(h: Heap, place: Places)
    requires Tree(h, place) && h.pool != []
    ensures var top := h.pool[0];
            && top !in place && Tree(TakeTop(h), place[top := Place(Root(top), [])])
            && (forall i {:trigger Slot(top, i)} :: Read(h.mem, Slot(top, i)) == 0)
  {
    var top, g := h.pool[0], TakeTop(h);
    var now := place[top := Place(Root(top), [])];
    assert top !in h.tables;
    forall i ensures Read(h.mem, Slot(top, i)) == 0 {
      assert Slot(top, i).table == top;
    }
    forall t, i | t in now ensures EntryOk(g.mem, now, now[t], i, Read(g.mem, Slot(t, i))) {
      if t != top { assert EntryOk(h.mem, place, place[t], i, Read(h.mem, Slot(t, i))); }
    }
    forall k | 0 <= k < |g.pool| ensures g.pool[k] == h.pool[k + 1] && h.pool[k + 1] != h.pool[0] {
    }
  }

  function PlacesUpper(h: Heap, place: Places, top: Table, i: bv64): Places
    requires i <= 512 && top in place
    decreases 512 - i
  {
    if i == 512 then place
    else
      match NextLevel(h, top, i, true)
      case Panic => place
      case Ret(g, _) =>
        var now := if Present(Read(h.mem, Slot(top, i))) then place else Planted(h, place, Slot(top, i));
        if top in now then PlacesUpper(g, now, top, i + 1) else now
  }

  /** The upper-half entries below `i` all have tables. */
  ghost predicate UpperDone(m: Memory, top: Table, i: bv64) {
    forall j {:trigger Slot(top, j)} :: 256 <= j < i ==> Present(Read(m, Slot(top, j)))
  }

  lemma UpperStep(m: Memory, n: Memory, top: Table, i: bv64)
    requires 256 <= i < 512 && UpperDone(m, top, i) && Present(Read(n, Slot(top, i)))
    requires forall s {:trigger Read(n, s)} :: Read(m, s) != 0 ==> Read(n, s) == Read(m, s)
    ensures UpperDone(n, top, i + 1)
  {
    forall j | 256 <= j < i + 1 ensures Present(Read(n, Slot(top, j))) {
      FirstOrLater(i, j);
    }
  }

  ghost predicate UpperOk(h: Heap, place: Places, top: Table, i: bv64)
    requires i <= 512 && top in place
  {
    var r := GrowUpper(h, top, i);
    r.Ret? ==> Grown(h, place, r.heap, PlacesUpper(h, place, top, i)) && UpperDone(r.heap.mem, top, 512)
  }

  lemma UpperOkNew(h: Heap, place: Places, top: Table, i: bv64)
    requires Tree(h, place) && top in place && i < 512 && h.pool != [] && CanGrow(h, place, Slot(top, i))
    requires var s := Slot(top, i); top in Planted(h, place, s) && UpperOk(Grow(h, s), Planted(h, place, s), top, i + 1)
    ensures UpperOk(h, place, top, i)
  {
    var s := Slot(top, i);
    var g, now := Grow(h, s), Planted(h, place, s);
    GrownOnce(h, place, s);
    var r := GrowUpper(g, top, i + 1);
    if r.Ret? {
      GrownTrans(h, place, g, now, r.heap, PlacesUpper(g, now, top, i + 1));
    }
  }

  lemma UpperOkEnd(h: Heap, place: Places, top: Table)
    requires UpperReady(h, place, top, 512)
    ensures UpperOk(h, place, top, 512)
  {
  }

  lemma UpperOkPresent(h: Heap, place: Places, top: Table, i: bv64)
    requires i < 512 && top in place && Present(Read(h.mem, Slot(top, i))) && UpperOk(h, place, top, i + 1)
    ensures UpperOk(h, place, top, i)
  {
  }

  lemma GrownUpperEntry(h: Heap, place: Places, s: Slot)
    requires Tree(h, place) && h.pool != [] && CanGrow(h, place, s)
    ensures Present(Read(Grow(h, s).mem, s)) && Tree(Grow(h, s), Planted(h, place, s)) && h.pool[0] !in place
    ensures forall c {:trigger Read(Grow(h, s).mem, c)} :: Read(h.mem, c) != 0 ==> Read(Grow(h, s).mem, c) == Read(h.mem, c)
  {
    GrownOnce(h, place, s);
    TableEntryShape(h.pool[0].at);
    assert h.pool[0] !in h.tables;
  }

  ghost predicate UpperReady(h: Heap, place: Places, top: Table, i: bv64) {
    Tree(h, place) && top in place && place[top].prefix == [] && 256 <= i <= 512 && UpperDone(h.mem, top, i)
  }

  lemma UpperReadyNew(h: Heap, place: Places, top: Table, i: bv64)
    requires UpperReady(h, place, top, i) && i < 512 && h.pool != [] && CanGrow(h, place, Slot(top, i))
    ensures UpperReady(Grow(h, Slot(top, i)), Planted(h, place, Slot(top, i)), top, i + 1)
  {
    GrownUpperEntry(h, place, Slot(top, i));
    UpperStep(h.mem, Grow(h, Slot(top, i)).mem, top, i);
  }

  lemma {:induction false} UpperGrown(h: Heap, place: Places, top: Table, i: bv64)
    requires UpperReady(h, place, top, i)
    ensures UpperOk(h, place, top, i)
    decreases 512 - i
  {
    if i < 512 {
      var s := Slot(top, i);
      assert EntryOk(h.mem, place, place[top], i, Read(h.mem, s));
      if Present(Read(h.mem, s)) {
        UpperStep(h.mem, h.mem, top, i);
        UpperGrown(h, place, top, i + 1);
        UpperOkPresent(h, place, top, i);
      } else if h.pool != [] {
        UpperReadyNew(h, place, top, i);
        UpperGrown(Grow(h, s), Planted(h, place, s), top, i + 1);
        UpperOkNew(h, place, top, i);
      }
    } else {
      UpperOkEnd(h, place, top);
    }
  }

  function PlacesNew(h: Heap, place: Places, kernel: Option<Table>): Places
    requires h.pool != []
  {
    var top := h.pool[0];
    var now := place[top := Place(Root(top), [])];
    if kernel.None? then PlacesUpper(TakeTop(h), now, top, 256) else now
  }

  /** The first page map: the whole upper half has tables, and nothing is mapped. */
  lemma FirstPagemap(h: Heap, place: Places)
    requires Inv(h, place, {}) && h.pool != []
    ensures var r := NewPagemap(h, None);
            r.Ret? ==>
              && Inv(r.heap, PlacesNew(h, place, None), {r.value})
              && forall path {:trigger HwWalk(r.heap.mem, r.value, path)} ::
                   IsPath(path) ==> HwWalk(r.heap.mem, r.value, path) == NotMapped
  {
    var top, g := h.pool[0], TakeTop(h);
    var now := place[top := Place(Root(top), [])];
    TopTaken(h, place);
    UpperGrown(g, now, top, 256);
    var r := GrowUpper(g, top, 256);
    if r.Ret? {
      FirstInv(g, now, top, r.heap, PlacesUpper(g, now, top, 256), place);
      FirstEmpty(g, now, top, r.heap, PlacesUpper(g, now, top, 256));
    }
  }

  lemma FirstEmpty(g: Heap, now: Places, top: Table, end: Heap, last: Places)
    requires Grown(g, now, end, last) && top in now && now[top].prefix == []
    requires forall i {:trigger Slot(top, i)} :: Read(g.mem, Slot(top, i)) == 0
    ensures forall path {:trigger HwWalk(end.mem, top, path)} :: IsPath(path) ==> HwWalk(end.mem, top, path) == NotMapped
  {
    forall path | IsPath(path) ensures HwWalk(end.mem, top, path) == NotMapped {
      var i := Slot(top, path[0]).index;
      assert Read(g.mem, Slot(top, i)) == 0;
      EmptyWalk(g.mem, top, path);
      SameWalk(g.mem, end.mem, now, top, path);
    }
  }

  lemma EmptyWalk(m: Memory, t: Table, path: Path)
    requires path != [] && Read(m, Slot(t, path[0])) == 0
    ensures HwWalk(m, t, path) == NotMapped
  {
    assert HwWalk(m, t, path) == HwStep(m, 0, path);
  }

  lemma SameWalk(m: Memory, n: Memory, place: Places, t: Table, path: Path)
    requires SameWalks(m, n, place) && t in place && path != [] && |place[t].prefix| + |path| == 4
    ensures HwWalk(n, t, path) == HwWalk(m, t, path)
  {
  }

  lemma FirstInv(g: Heap, now: Places, top: Table, end: Heap, last: Places, place: Places)
    requires Grown(g, now, end, last) && UpperDone(end.mem, top, 512)
    requires RootsOk(place, {}) && now == place[top := Place(Root(top), [])]
    ensures Inv(end, last, {top})
  {
    assert RootsOk(last, {top});
    assert Shared(end.mem, {top});
  }

  /** A later page map: its upper half is the kernel's, its lower half is empty, and no other address space changes. */
  lemma LaterPagemap(h: Heap, place: Places, roots: set<Table>, k: Table)
    requires Inv(h, place, roots) && k in roots && h.pool != []
    ensures var r := NewPagemap(h, Some(k));
            && r.Ret? && r.value !in roots && r.heap.mem.gib1 == h.mem.gib1
            && Inv(r.heap, PlacesNew(h, place, Some(k)), roots + {r.value})
            && SameTranslation(h.mem, r.heap.mem, roots)
            && forall path {:trigger HwWalk(r.heap.mem, r.value, path)} :: IsPath(path) ==>
                 HwWalk(r.heap.mem, r.value, path) == if path[0] >= 256 then HwWalk(h.mem, k, path) else NotMapped
  {
    var top, g := h.pool[0], TakeTop(h);
    var now := place[top := Place(Root(top), [])];
    var n := CopyUpper(g.mem, k, top, 256);
    TopTaken(h, place);
    forall s ensures Read(n, s) == Copied(h.mem, k, top, 256, s) {
      CopiedUpper(g.mem, k, top, 256, s);
    }
    LaterTree(h, place, roots, k, n);
    CopiedUpper(g.mem, k, top, 256, Slot(top, 0));
    forall r, path | r in roots && IsPath(path) ensures HwWalk(n, r, path) == HwWalk(h.mem, r, path) {
      AgreeOnTables(h.mem, n, place, r, path);
    }
    forall path | IsPath(path)
      ensures HwWalk(n, top, path) == if path[0] >= 256 then HwWalk(h.mem, k, path) else NotMapped
    {
      if path[0] >= 256 {
        assert Read(n, Slot(top, path[0])) == Read(n, Slot(k, path[0]));
        assert HwWalk(n, top, path) == HwWalk(n, k, path);
      } else {
        assert Read(n, Slot(top, path[0])) == 0;
      }
    }
  }

  lemma LaterTree(h: Heap, place: Places, roots: set<Table>, k: Table, n: Memory)
    requires Inv(h, place, roots) && k in roots && h.pool != [] && h.pool[0] !in place
    requires n == CopyUpper(h.mem, k, h.pool[0], 256)
    requires Tree(TakeTop(h), place[h.pool[0] := Place(Root(h.pool[0]), [])])
    requires forall i {:trigger Slot(h.pool[0], i)} :: Read(h.mem, Slot(h.pool[0], i)) == 0
    requires forall s {:trigger Read(n, s)} :: Read(n, s) == Copied(h.mem, k, h.pool[0], 256, s)
    ensures Inv(TakeTop(h).(mem := n), place[h.pool[0] := Place(Root(h.pool[0]), [])], roots + {h.pool[0]})
  {
    var top, g := h.pool[0], TakeTop(h);
    var now := place[top := Place(Root(top), [])];
    CopiedUpper(h.mem, k, top, 256, Slot(top, 0));
    forall s | s in n.cells ensures s.table in g.tables { CopiedCells(h.mem, k, top, 256, s); }
    LaterEntries(h, place, k, top, n);
    assert Tree(g.(mem := n), now);
    LaterShared(h.mem, roots, k, top, n);
    LaterRoots(place, roots, top);
  }

  lemma LaterRoots(place: Places, roots: set<Table>, top: Table)
    requires RootsOk(place, roots) && top !in place
    ensures RootsOk(place[top := Place(Root(top), [])], roots + {top})
  {
  }

  lemma LaterShared(m: Memory, roots: set<Table>, k: Table, top: Table, n: Memory)
    requires Shared(m, roots) && k in roots && top !in roots
    requires forall s {:trigger Read(n, s)} :: Read(n, s) == Copied(m, k, top, 256, s)
    ensures Shared(n, roots + {top})
  {
    forall r, i | r in roots + {top} && 256 <= i < 512 ensures Read(n, Slot(r, i)) == Read(m, Slot(k, i)) {
      assert Slot(r, i).table == r && Slot(r, i).index == i;
      if r != top { assert Read(m, Slot(r, i)) == Read(m, Slot(k, i)); }
    }
  }

  lemma LaterEntries(h: Heap, place: Places, k: Table, top: Table, n: Memory)
    requires Entries(h.mem, place) && k in place && place[k] == Place(Root(k), []) && top !in place
    requires n.gib1 == h.mem.gib1
    requires forall i {:trigger Slot(top, i)} :: Read(h.mem, Slot(top, i)) == 0
    requires forall s {:trigger Read(n, s)} :: Read(n, s) == Copied(h.mem, k, top, 256, s)
    ensures Entries(n, place[top := Place(Root(top), [])])
  {
    var now := place[top := Place(Root(top), [])];
    forall t, i | t in now ensures EntryOk(n, now, now[t], i, Read(n, Slot(t, i))) {
      if t != top {
        assert EntryOk(h.mem, place, place[t], i, Read(h.mem, Slot(t, i)));
      } else if 256 <= i < 512 {
        assert EntryOk(h.mem, place, place[k], i, Read(h.mem, Slot(k, i)));
      }
    }
  }
}
