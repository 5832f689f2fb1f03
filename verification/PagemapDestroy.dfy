/**
 The tables that destroying an address space deletes, and what it leaves to the others.
 */
module PagemapDestroy {
  import opened Options
  import opened PageEntry
  import opened PageTables
  import opened AddressSpaces
  import opened Pagemap
  import opened PagemapLife

  /** The tables that `destroy_level` deletes at and below the table of entry `e`; at level 0 it returns at once. */
  function SubtreeAt(m: Memory, e: bv64, level: nat): set<Table>
    decreases level, 1, 0 as bv64
  {
    if !Present(e) || level == 0 then {} else {Table(Address(e))} + Reach(m, Table(Address(e)), 512, level)
  }

  /** The tables it deletes below the entries of `t` before `i`. */
  function Reach(m: Memory, t: Table, i: bv64, level: nat): set<Table>
    requires level > 0
    decreases level, 0, i
  {
    if i == 0 then {} else Reach(m, t, i - 1, level) + SubtreeAt(m, Read(m, Slot(t, i - 1)), level - 1)
  }

  /** No address that `destroy_level` visits from table `t` lies in a large page. */
  ghost predicate NoLarge(m: Memory, t: Table, level: nat) {
    forall path: Path {:trigger HwWalk(m, t, path)} ::
      path != [] && |path| == level && (level == 4 ==> path[0] < 256) ==> !IsLarge(HwWalk(m, t, path))
  }

  /** Table `y` hangs below entry `j` of table `t`. */
  predicate Under(place: Places, t: Table, j: bv64, y: Table)
    requires t in place
  {
    y in place && place[y].owner == place[t].owner && place[t].prefix + [j] <= place[y].prefix
  }

  ghost predicate Sound(m: Memory, place: Places, t: Table, level: nat) {
    Entries(m, place) && t in place && level > 0 && |place[t].prefix| + level == 4 && NoLarge(m, t, level)
  }

  lemma ChildSound(m: Memory, place: Places, t: Table, level: nat, i: bv64)
    requires Sound(m, place, t, level) && level > 1 && (place[t].prefix != [] || i < 256)
    ensures var e := Read(m, Slot(t, i));
            Present(e) ==>
              && !LargeBit(e) && Sound(m, place, Table(Address(e)), level - 1)
              && place[Table(Address(e))] == Place(place[t].owner, place[t].prefix + [i])
  {
    var e := Read(m, Slot(t, i));
    if Present(e) {
      assert EntryOk(m, place, place[t], i, e);
      var any: Path := if level == 2 then [i, 0] else if level == 3 then [i, 0, 0] else [i, 0, 0, 0];
      assert HwWalk(m, t, any) == HwStep(m, e, any);
      assert !IsLarge(HwWalk(m, t, any));
      assert !LargeBit(e);
      var c := Table(Address(e));
      forall path: Path | path != [] && |path| == level - 1 ensures !IsLarge(HwWalk(m, c, path)) {
        assert ([i] + path)[1..] == path;
        assert HwWalk(m, c, path) == HwWalk(m, t, [i] + path);
      }
    }
  }

  lemma LastChild(m: Memory, place: Places, t: Table, j: bv64, level: nat, y: Table) returns (c: Table)
    requires Sound(m, place, t, level) && (place[t].prefix != [] || j < 256)
    requires y in SubtreeAt(m, Read(m, Slot(t, j)), level - 1)
    ensures level > 1 && Sound(m, place, c, level - 1) && place[c] == Place(place[t].owner, place[t].prefix + [j])
    ensures y == c || y in Reach(m, c, 512, level - 1)
  {
    c := Table(Address(Read(m, Slot(t, j))));
    ChildSound(m, place, t, level, j);
  }

  /** What is deleted hangs below the entries that were visited. */
  lemma {:induction false} ReachUnder(m: Memory, place: Places, t: Table, i: bv64, level: nat, y: Table) returns (j: bv64)
    requires Sound(m, place, t, level) && (place[t].prefix != [] || i <= 256) && y in Reach(m, t, i, level)
    ensures Visited(i, j) && Under(place, t, j, y)
    decreases level, i
  {
    Predecessor(i);
    if y in Reach(m, t, i - 1, level) {
      j := ReachUnder(m, place, t, i - 1, level, y);
    } else {
      j := i - 1;
      var c := LastChild(m, place, t, j, level, y);
      if y != c {
        var k := ReachUnder(m, place, c, 512, level - 1, y);
        UnderChild(place, t, j, c, k, y);
      }
    }
  }

  lemma UnderChild(place: Places, t: Table, j: bv64, c: Table, k: bv64, y: Table)
    requires t in place && c in place && place[c] == Place(place[t].owner, place[t].prefix + [j]) && Under(place, c, k, y)
    ensures Under(place, t, j, y)
  {
    assert place[t].prefix + [j] <= place[t].prefix + [j] + [k];
  }

  /** Entry `j` comes before entry `i` in the loop. */
  predicate Visited(i: bv64, j: bv64)
    decreases i
  {
    i != 0 && (j == i - 1 || Visited(i - 1, j))
  }

  lemma {:induction false} NotVisited(i: bv64, j: bv64)
    requires i <= j && i <= 512
    ensures !Visited(i, j)
    decreases i
  {
    if i != 0 {
      BeforePredecessor(i, j);
      NotVisited(i - 1, j);
    }
  }

  lemma BeforePredecessor(i: bv64, j: bv64)
    requires i != 0 && i <= j && i <= 512
    ensures i - 1 <= j && i - 1 != j && i - 1 < i && i - 1 <= 512
  {
  }

  lemma Predecessor(i: bv64)
    requires i != 0
    ensures i - 1 < i && (i <= 256 ==> i - 1 < 256)
  {
  }

  /** The deletions read only tables that they delete, so they are the same in any memory that agrees on those. */
  lemma {:induction false} ReachStable(m: Memory, n: Memory, t: Table, i: bv64, level: nat)
    requires level > 0
    requires forall x, j {:trigger Slot(x, j)} ::
               x == t || x in Reach(m, t, i, level) ==> Read(n, Slot(x, j)) == Read(m, Slot(x, j))
    ensures Reach(n, t, i, level) == Reach(m, t, i, level)
    decreases level, i
  {
    if i != 0 {
      var e := Read(m, Slot(t, i - 1));
      assert Read(n, Slot(t, i - 1)) == e;
      Predecessor(i);
      assert SubtreeAt(m, e, level - 1) <= Reach(m, t, i, level);
      if Present(e) && level > 1 {
        var c := Table(Address(e));
        assert SubtreeAt(m, e, level - 1) == {c} + Reach(m, c, 512, level - 1);
        ReachStable(m, n, c, 512, level - 1);
      }
      assert Reach(m, t, i - 1, level) <= Reach(m, t, i, level);
      ReachStable(m, n, t, i - 1, level);
      assert SubtreeAt(n, e, level - 1) == SubtreeAt(m, e, level - 1);
    }
  }

  // ---------------------------------------------------------------------------------------------
  // Deleted means reachable
  // ---------------------------------------------------------------------------------------------

  /** The table that present entries at the indices `p` lead to. */
  function TableAt(m: Memory, t: Table, p: Path): Option<Table>
    decreases |p|
  {
    if p == [] then Some(t)
    else if Present(Read(m, Slot(t, p[0]))) then TableAt(m, Table(Address(Read(m, Slot(t, p[0])))), p[1..])
    else None
  }

  /** The indices of a table below `t`, the first of them before `i`. */
  predicate TableIndices(p: Path, i: bv64, level: nat) {
    0 < |p| < level && Visited(i, p[0]) && forall k :: 1 <= k < |p| ==> Visited(512, p[k])
  }

  lemma {:induction false} ReachPath(m: Memory, t: Table, i: bv64, level: nat, y: Table) returns (p: Path)
    requires level > 0 && y in Reach(m, t, i, level)
    ensures TableIndices(p, i, level) && TableAt(m, t, p) == Some(y)
    decreases level, i
  {
    Predecessor(i);
    if y in Reach(m, t, i - 1, level) {
      p := ReachPath(m, t, i - 1, level, y);
    } else {
      var e := Read(m, Slot(t, i - 1));
      var c := Table(Address(e));
      if y == c {
        p := [i - 1];
        assert p[1..] == [];
      } else {
        var q := ReachPath(m, c, 512, level - 1, y);
        p := [i - 1] + q;
        assert p[1..] == q;
      }
    }
  }

  lemma ReachLast(m: Memory, t: Table, i: bv64, level: nat)
    requires level > 0 && i != 0
    ensures SubtreeAt(m, Read(m, Slot(t, i - 1)), level - 1) <= Reach(m, t, i, level)
    ensures Reach(m, t, i - 1, level) <= Reach(m, t, i, level)
  {
  }

  lemma {:induction false} EntryReached(m: Memory, t: Table, i: bv64, level: nat, j: bv64)
    requires level > 0 && Visited(i, j)
    ensures SubtreeAt(m, Read(m, Slot(t, j)), level - 1) <= Reach(m, t, i, level)
    decreases i
  {
    Predecessor(i);
    ReachLast(m, t, i, level);
    if j != i - 1 { EntryReached(m, t, i - 1, level, j); }
  }

  lemma {:induction false} PathReached(m: Memory, t: Table, i: bv64, level: nat, p: Path)
    requires level > 0 && TableIndices(p, i, level)
    ensures match TableAt(m, t, p) case None => true case Some(y) => y in Reach(m, t, i, level)
    decreases level
  {
    EntryReached(m, t, i, level, p[0]);
    var e := Read(m, Slot(t, p[0]));
    if Present(e) {
      if |p| == 1 {
        assert TableAt(m, t, p) == TableAt(m, Table(Address(e)), []);
      } else {
        assert p[1..][0] == p[1];
        assert forall k :: 1 <= k < |p| - 1 ==> p[1..][k] == p[k + 1];
        PathReached(m, Table(Address(e)), 512, level - 1, p[1..]);
      }
    }
  }

  lemma {:induction false} BelowIsVisited(i: bv64, j: bv64)
    requires i <= 512
    ensures Visited(i, j) <==> j < i
    decreases i
  {
    if j < i {
      StillBelow(i, j);
      if j != i - 1 { BelowIsVisited(i - 1, j); }
    } else {
      NotVisited(i, j);
    }
  }

  lemma StillBelow(i: bv64, j: bv64)
    requires j < i <= 512
    ensures i != 0 && i - 1 < i && i - 1 <= 512 && (j == i - 1 || j < i - 1)
  {
  }

  /** `destroy_pagemap` deletes the top table and exactly the tables that entries 0 to 255 lead to. */
  lemma DoomedIsReachable(m: Memory, top: Table, y: Table)
    ensures y in Doomed(m, top) <==>
            y == top || exists p: Path ::
              && 1 <= |p| <= 3 && p[0] < 256 && (forall k :: 1 <= k < |p| ==> p[k] < 512)
              && TableAt(m, top, p) == Some(y)
  {
    forall i: bv64, j: bv64 | i == 256 || i == 512 ensures Visited(i, j) <==> j < i { BelowIsVisited(i, j); }
    if y in Reach(m, top, 256, 4) {
      var p := ReachPath(m, top, 256, 4, y);
      assert 1 <= |p| <= 3 && p[0] < 256;
    }
    forall p: Path | 1 <= |p| <= 3 && p[0] < 256 && (forall k :: 1 <= k < |p| ==> p[k] < 512) && TableAt(m, top, p) == Some(y)
      ensures y in Doomed(m, top)
    {
      PathReached(m, top, 256, 4, p);
    }
  }

  /** Everything deleted with address space `top`. */
  function Doomed(m: Memory, top: Table): set<Table> { {top} + Reach(m, top, 256, 4) }

  /** None of it belongs to the kernel half or to another address space. */
  lemma DoomedIsOwn(h: Heap, place: Places, roots: set<Table>, top: Table, y: Table)
    requires Inv(h, place, roots) && top in roots && NoLarge(h.mem, top, 4) && y in Doomed(h.mem, top)
    ensures y in h.tables && y in place && place[y].owner == Root(top) && (y == top || y !in roots)
  {
    assert place[top] == Place(Root(top), []);
    if y != top { var j := ReachUnder(h.mem, place, top, 256, 4, y); }
  }

  function Survivors(place: Places, top: Table): Places {
    map t | t in place && place[t].owner != Root(top) :: place[t]
  }

  /** The heap after address space `top` went: its tables are gone, the rest reads as before. */
  ghost predicate Destroyed(h: Heap, top: Table, g: Heap) {
    && g.tables == h.tables - Doomed(h.mem, top) && g.pool == h.pool && g.mem.gib1 == h.mem.gib1
    && (forall s: Slot :: s in g.mem.cells ==> s in h.mem.cells && s.table !in Doomed(h.mem, top))
    && (forall s: Slot {:trigger Read(g.mem, s)} :: s.table !in Doomed(h.mem, top) ==> Read(g.mem, s) == Read(h.mem, s))
  }

  /** The heap without the tables in `gone`. */
  function Without(h: Heap, gone: set<Table>): Heap {
    h.(mem := Erase(h.mem, gone), tables := h.tables - gone)
  }

  function Erase(m: Memory, gone: set<Table>): Memory {
    m.(cells := map s | s in m.cells && s.table !in gone :: m.cells[s])
  }

  function DestroyHeap(h: Heap, top: Table): (g: Heap)
    ensures Destroyed(h, top, g)
  {
    Without(h, Doomed(h.mem, top))
  }

  lemma SurvivorsAgree(h: Heap, place: Places, roots: set<Table>, top: Table, g: Heap)
    requires Inv(h, place, roots) && top in roots && NoLarge(h.mem, top, 4) && Destroyed(h, top, g)
    ensures Survivors(place, top).Keys <= g.tables
    ensures forall t, i {:trigger Slot(t, i)} :: t in Survivors(place, top) ==> Read(g.mem, Slot(t, i)) == Read(h.mem, Slot(t, i))
  {
    var now := Survivors(place, top);
    forall t | t in now ensures t !in Doomed(h.mem, top) {
      if t in Doomed(h.mem, top) { DoomedIsOwn(h, place, roots, top, t); }
    }
  }

  /** After the deletion the other address spaces are whole and translate as before. */
  lemma DestroyKeepsOthers(h: Heap, place: Places, roots: set<Table>, top: Table, g: Heap)
    requires Inv(h, place, roots) && top in roots && NoLarge(h.mem, top, 4) && Destroyed(h, top, g)
    ensures Inv(g, Survivors(place, top), roots - {top})
    ensures SameTranslation(h.mem, g.mem, roots - {top})
  {
    var now := Survivors(place, top);
    SurvivorsAgree(h, place, roots, top, g);
    SurvivorEntries(h.mem, g.mem, place, roots, top);
    SurvivorShared(h.mem, g.mem, roots, roots - {top});
    assert Inv(g, now, roots - {top});
    forall r, path | r in roots - {top} && IsPath(path) ensures HwWalk(g.mem, r, path) == HwWalk(h.mem, r, path) {
      AgreeOnTables(h.mem, g.mem, now, r, path);
    }
  }

  lemma SurvivorShared(m: Memory, n: Memory, roots: set<Table>, rest: set<Table>)
    requires Shared(m, roots) && rest <= roots
    requires forall r, i {:trigger Slot(r, i)} :: r in rest ==> Read(n, Slot(r, i)) == Read(m, Slot(r, i))
    ensures Shared(n, rest)
  {
  }

  lemma SurvivorEntries(m: Memory, n: Memory, place: Places, roots: set<Table>, top: Table)
    requires Entries(m, place) && RootsOk(place, roots) && n.gib1 == m.gib1
    requires forall t, i {:trigger Slot(t, i)} :: t in Survivors(place, top) ==> Read(n, Slot(t, i)) == Read(m, Slot(t, i))
    ensures Entries(n, Survivors(place, top)) && Entries(m, Survivors(place, top))
  {
    var now := Survivors(place, top);
    forall t, i | t in now ensures EntryOk(m, now, now[t], i, Read(m, Slot(t, i))) {
      assert EntryOk(m, place, place[t], i, Read(m, Slot(t, i)));
    }
    forall t, i | t in now ensures EntryOk(n, now, now[t], i, Read(n, Slot(t, i))) {
      assert EntryOk(m, now, now[t], i, Read(m, Slot(t, i)));
    }
  }
}
