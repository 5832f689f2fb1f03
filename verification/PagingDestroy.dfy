/**
 Destroying an address space as it runs: depth first, each table deleted after the tables below it.
 */
module PagingDestroy {
  import opened PageEntry
  import opened PageTables
  import opened AddressSpaces
  import opened PagemapDestroy
  import opened Paging

  // ---------------------------------------------------------------------------------------------
  // Deleting tables only unmaps
  // ---------------------------------------------------------------------------------------------

  lemma WithoutMore(h: Heap, a: set<Table>, b: set<Table>)
    ensures Without(Without(h, a), b) == Without(h, a + b)
  {
    assert Erase(Erase(h.mem, a), b).cells == Erase(h.mem, a + b).cells;
    assert h.tables - a - b == h.tables - (a + b);
  }

  lemma WithoutNone(h: Heap)
    ensures Without(h, {}) == h
  {
    assert Erase(h.mem, {}).cells == h.mem.cells;
  }

  lemma {:induction false} ErasedWalk(m: Memory, gone: set<Table>, t: Table, path: Path)
    requires path != []
    ensures HwWalk(Erase(m, gone), t, path) == NotMapped || HwWalk(Erase(m, gone), t, path) == HwWalk(m, t, path)
    decreases |path|
  {
    var e := Read(m, Slot(t, path[0]));
    if t !in gone && Present(e) && |path| > 1 && !LargeBit(e) {
      ErasedWalk(m, gone, Table(Address(e)), path[1..]);
    }
  }

  lemma ErasedSound(m: Memory, gone: set<Table>, place: Places, t: Table, level: nat)
    requires Sound(m, place, t, level)
    ensures Sound(Erase(m, gone), place, t, level)
  {
    var n := Erase(m, gone);
    forall x, i | x in place ensures EntryOk(n, place, place[x], i, Read(n, Slot(x, i))) {
      assert EntryOk(m, place, place[x], i, Read(m, Slot(x, i)));
    }
    forall path: Path | path != [] && |path| == level && (level == 4 ==> path[0] < 256)
      ensures !IsLarge(HwWalk(n, t, path))
    {
      ErasedWalk(m, gone, t, path);
      assert !IsLarge(HwWalk(m, t, path));
    }
  }

  // ---------------------------------------------------------------------------------------------
  // No table is met twice
  // ---------------------------------------------------------------------------------------------

  lemma TableApart(m: Memory, place: Places, t: Table, i: bv64, level: nat)
    requires Sound(m, place, t, level) && (place[t].prefix != [] || i <= 256)
    ensures t !in Reach(m, t, i, level)
  {
    if t in Reach(m, t, i, level) {
      ReachDeeper(m, place, t, i, level, t);
    }
  }

  lemma ReachDeeper(m: Memory, place: Places, t: Table, i: bv64, level: nat, y: Table)
    requires Sound(m, place, t, level) && (place[t].prefix != [] || i <= 256) && y in Reach(m, t, i, level)
    ensures y in place && |place[y].prefix| > |place[t].prefix|
  {
    var j := ReachUnder(m, place, t, i, level, y);
  }

  lemma ChildUnder(m: Memory, place: Places, t: Table, i: bv64, level: nat, y: Table)
    requires Sound(m, place, t, level) && (place[t].prefix != [] || i < 256)
    requires y in SubtreeAt(m, Read(m, Slot(t, i)), level - 1)
    ensures Under(place, t, i, y)
  {
    var c := LastChild(m, place, t, i, level, y);
    if y != c {
      var k := ReachUnder(m, place, c, 512, level - 1, y);
      UnderChild(place, t, i, c, k, y);
    }
  }

  lemma SiblingsApart(m: Memory, place: Places, t: Table, i: bv64, level: nat)
    requires Sound(m, place, t, level) && i < 512 && (place[t].prefix != [] || i < 256)
    ensures SubtreeAt(m, Read(m, Slot(t, i)), level - 1) !! Reach(m, t, i, level)
  {
    forall y | y in SubtreeAt(m, Read(m, Slot(t, i)), level - 1) ensures y !in Reach(m, t, i, level) {
      if y in Reach(m, t, i, level) {
        var j := ReachUnder(m, place, t, i, level, y);
        ChildUnder(m, place, t, i, level, y);
        SameIndex(place[t].prefix, i, j, place[y].prefix);
        NotVisited(i, i);
      }
    }
  }

  lemma SameIndex(p: Path, i: bv64, j: bv64, q: Path)
    requires p + [i] <= q && p + [j] <= q
    ensures i == j
  {
    assert (p + [i])[|p|] == q[|p|] && (p + [j])[|p|] == q[|p|];
  }

  /** The deletions below entry `i` are the same after those below the earlier entries. */
  lemma SubtreeStable(m: Memory, place: Places, t: Table, i: bv64, level: nat)
    requires Sound(m, place, t, level) && i < 512 && (place[t].prefix != [] || i < 256)
    ensures var n := Erase(m, Reach(m, t, i, level)); var e := Read(m, Slot(t, i));
            && Read(n, Slot(t, i)) == e
            && SubtreeAt(n, e, level - 1) == SubtreeAt(m, e, level - 1)
  {
    var gone, e := Reach(m, t, i, level), Read(m, Slot(t, i));
    var n := Erase(m, gone);
    TableApart(m, place, t, i, level);
    SiblingsApart(m, place, t, i, level);
    if Present(e) && level > 1 {
      var c := Table(Address(e));
      assert SubtreeAt(m, e, level - 1) == {c} + Reach(m, c, 512, level - 1);
      ReachStable(m, n, c, 512, level - 1);
    }
  }

  // ---------------------------------------------------------------------------------------------
  // destroy_level
  // ---------------------------------------------------------------------------------------------

  /** `delete`: the table must be allocated. */
  method Delete(p: PageMemory, t: Table)
    requires t in p.tables
    modifies p`cells, p`tables
    ensures p.H() == Without(old(p.H()), {t})
  {
    p.cells := map s | s in p.cells && s.table !in {t} :: p.cells[s];
    p.tables := p.tables - {t};
  }

  ghost predicate Ready(h: Heap, place: Places, t: Table, end: bv64, level: nat) {
    level > 0 ==>
      && Sound(h.mem, place, t, level) && end <= 512 && (place[t].prefix != [] || end <= 256)
      && {t} + Reach(h.mem, t, end, level) <= h.tables
  }

  ghost function Gone(m: Memory, t: Table, end: bv64, level: nat): set<Table> {
    if level == 0 then {} else {t} + Reach(m, t, end, level)
  }

  lemma ReadyBelow(h: Heap, place: Places, t: Table, i: bv64, end: bv64, level: nat)
    requires level > 0 && Ready(h, place, t, end, level) && i < end
    ensures var g := Without(h, Reach(h.mem, t, i, level)); var e := Read(h.mem, Slot(t, i));
            && Read(g.mem, Slot(t, i)) == e
            && (Present(e) ==>
                  && Ready(g, place, Table(Address(e)), 512, level - 1)
                  && Gone(g.mem, Table(Address(e)), 512, level - 1) == SubtreeAt(h.mem, e, level - 1))
  {
    var gone, e := Reach(h.mem, t, i, level), Read(h.mem, Slot(t, i));
    SubtreeStable(h.mem, place, t, i, level);
    if Present(e) && level > 1 {
      ChildSound(h.mem, place, t, level, i);
      ErasedSound(h.mem, gone, place, Table(Address(e)), level - 1);
      SiblingsApart(h.mem, place, t, i, level);
      BelowIsVisited(end, i);
      EntryReached(h.mem, t, end, level, i);
    }
  }

  lemma EntryGone(h: Heap, g: Heap, t: Table, i: bv64, level: nat)
    requires level > 0 && i < 512
    requires var e := Read(h.mem, Slot(t, i)); var before := Without(h, Reach(h.mem, t, i, level));
             g == if Present(e) then Without(before, SubtreeAt(h.mem, e, level - 1)) else before
    ensures g == Without(h, Reach(h.mem, t, i + 1, level))
  {
    assert i + 1 != 0 && i + 1 - 1 == i;
    WithoutMore(h, Reach(h.mem, t, i, level), SubtreeAt(h.mem, Read(h.mem, Slot(t, i)), level - 1));
  }

  lemma EntryCounter(i: bv64, end: bv64)
    requires i <= end <= 512
    ensures i < end || i == end
    ensures i < end ==> i + 1 <= end && 512 - (i + 1) < 512 - i
  {
  }

  /** The loop of `destroy_level`: each table below the entries of `pml` is deleted exactly once. */
  method DestroyEntries(p: PageMemory, pml: Table, start: bv64, end: bv64, level: nat, ghost place: Places)
    requires start == 0 && level > 0 && Ready(p.H(), place, pml, end, level)
    modifies p`cells, p`tables
    ensures p.H() == Without(old(p.H()), Reach(old(p.H()).mem, pml, end, level))
    decreases level, 0
  {
    ghost var h := p.H();
    WithoutNone(h);
    var i := start;
    while i < end
      invariant i <= end <= 512 && p.H() == Without(h, Reach(h.mem, pml, i, level))
      decreases 512 - i
    {
      EntryCounter(i, end);
      ReadyBelow(h, place, pml, i, end, level);
      var e := Read(p.H().mem, Slot(pml, i));
      if Present(e) { DestroyLevel(p, Table(Address(e)), 0, 512, level - 1, place); }
      EntryGone(h, p.H(), pml, i, level);
      i := i + 1;
    }
    EntryCounter(i, end);
  }

  /** The tables below `pml`, then `pml` itself; nothing else is touched. */
  method DestroyLevel(p: PageMemory, pml: Table, start: bv64, end: bv64, level: nat, ghost place: Places)
    requires start == 0 && Ready(p.H(), place, pml, end, level)
    modifies p`cells, p`tables
    ensures p.H() == Without(old(p.H()), Gone(old(p.H()).mem, pml, end, level))
    decreases level, 1
  {
    if level == 0 {
      WithoutNone(p.H());
      return;
    }
    ghost var h := p.H();
    DestroyEntries(p, pml, start, end, level, place);
    TableApart(h.mem, place, pml, end, level);
    Delete(p, pml);
    WithoutMore(h, Reach(h.mem, pml, end, level), {pml});
  }

  /** `destroy_pagemap` on an address space without large pages in its lower half. */
  method DestroyPagemap(p: PageMemory, top: Table, ghost place: Places, ghost roots: set<Table>)
    requires Inv(p.H(), place, roots) && top in roots && NoLarge(p.H().mem, top, 4)
    modifies p`cells, p`tables
    ensures p.H() == DestroyHeap(old(p.H()), top)
  {
    forall y | y in Doomed(p.H().mem, top) ensures y in p.tables { DoomedIsOwn(p.H(), place, roots, top, y); }
    assert place[top] == Place(Root(top), []);
    DestroyLevel(p, top, 0, 256, 4, place);
  }
}
