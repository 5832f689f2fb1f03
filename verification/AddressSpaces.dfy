/**
 Address spaces that share their upper half, and what a write to one leaf does to all of them.
 */
module AddressSpaces {
  import opened Options
  import opened PageEntry
  import opened PageTables

  // ---------------------------------------------------------------------------------------------
  // A write is seen only through the slot it writes
  // ---------------------------------------------------------------------------------------------

  /** Inside one half of one address space, a write off the path changes nothing on it. */
  lemma {:induction false} FrameBelow(m: Memory, place: Places, s: Slot, v: bv64, t: Table, path: Path)
    requires Entries(m, place) && s.table in place && t in place && path != []
    requires |place[t].prefix| + |path| == 4 && (place[t].prefix != [] || path[0] < 256)
    requires place[t].owner != place[s.table].owner ||
             !(place[s.table].prefix + [s.index] <= place[t].prefix + path)
    ensures HwWalk(Poke(m, s, v), t, path) == HwWalk(m, t, path)
    decreases |path|
  {
    var i := path[0];
    assert place[t].prefix + [i] <= place[t].prefix + path;
    assert Slot(t, i) != s;
    var e := Read(m, Slot(t, i));
    assert Read(Poke(m, s, v), Slot(t, i)) == e;
    if Present(e) && |path| > 1 && !LargeBit(e) {
      Child(m, place, t, i);
      assert place[t].prefix + [i] + path[1..] == place[t].prefix + path;
      FrameBelow(m, place, s, v, Table(Address(e)), path[1..]);
    }
  }

  /** The owner of the tables below the top level that address space `r` uses for `path`. */
  function OwnerFor(r: Table, path: Path): Owner
    requires path != []
  {
    if path[0] >= 256 then Kernel else Root(r)
  }

  /** A write below the top level that is not on the path, or not in the same half, changes nothing. */
  lemma FrameRoot(m: Memory, place: Places, s: Slot, v: bv64, r: Table, path: Path)
    requires Entries(m, place) && s.table in place && r in place && |path| == 4
    requires place[r] == Place(Root(r), []) && place[s.table].prefix != []
    requires place[s.table].owner != OwnerFor(r, path) || !(place[s.table].prefix + [s.index] <= path)
    ensures HwWalk(Poke(m, s, v), r, path) == HwWalk(m, r, path)
  {
    var e := Read(m, Slot(r, path[0]));
    assert s.table != r;
    assert Read(Poke(m, s, v), Slot(r, path[0])) == e;
    if Present(e) && !LargeBit(e) {
      Child(m, place, r, path[0]);
      assert [] + [path[0]] + path[1..] == path;
      FrameBelow(m, place, s, v, Table(Address(e)), path[1..]);
    }
  }

  lemma DownOne(h: Heap, s: Slot, t: Table, path: Path, k: nat)
    requires 2 <= k <= |path| && WalkDown(h, t, path[..k], false) == Ret(h, Some(s)) && Clean(h.mem, t, path[..k])
    ensures var e := Read(h.mem, Slot(t, path[0])); var child, rest := Table(Address(e)), path[1..][..k - 1];
            && Present(e) && !LargeBit(e) && WalkDown(h, child, rest, false) == Ret(h, Some(s)) && Clean(h.mem, child, rest)
  {
    assert path[..k][0] == path[0] && path[..k][1..] == path[1..][..k - 1];
  }

  lemma WalkOne(m: Memory, t: Table, path: Path, e: bv64)
    requires |path| > 1 && Read(m, Slot(t, path[0])) == e && Present(e) && !LargeBit(e)
    ensures HwWalk(m, t, path) == HwWalk(m, Table(Address(e)), path[1..])
  {
  }

  /** A walk that comes to the slot sees what was written. */
  lemma {:induction false} HitBelow(h: Heap, place: Places, s: Slot, v: bv64, t: Table, path: Path, k: nat)
    requires Entries(h.mem, place) && t in place && |place[t].prefix| + |path| == 4 && 1 <= k <= |path|
    requires WalkDown(h, t, path[..k], false) == Ret(h, Some(s)) && Clean(h.mem, t, path[..k])
    requires s.table in place && |place[s.table].prefix| == |place[t].prefix| + k - 1
    ensures HwWalk(Poke(h.mem, s, v), t, path) == HwStep(Poke(h.mem, s, v), v, path[k - 1..])
    decreases k
  {
    var m := Poke(h.mem, s, v);
    if k == 1 {
      assert path[0..] == path;
    } else {
      var e := Read(h.mem, Slot(t, path[0]));
      DownOne(h, s, t, path, k);
      Child(h.mem, place, t, path[0]);
      assert s.table != t;
      WalkOne(m, t, path, e);
      HitBelow(h, place, s, v, Table(Address(e)), path[1..], k - 1);
      assert path[1..][k - 2..] == path[k - 1..];
    }
  }

  // ---------------------------------------------------------------------------------------------
  // The system of address spaces
  // ---------------------------------------------------------------------------------------------

  /** The top-level tables are exactly the tables with no index above them. */
  predicate RootsOk(place: Places, roots: set<Table>) {
    && (forall r :: r in roots ==> r in place && place[r] == Place(Root(r), []))
    && (forall t :: t in place && place[t].prefix == [] ==> t in roots)
  }

  /** All address spaces have the same upper-half top-level entries, and those are all present. */
  ghost predicate Shared(m: Memory, roots: set<Table>) {
    && (forall r, q, i {:trigger Slot(r, i), Slot(q, i)} ::
          r in roots && q in roots && 256 <= i < 512 ==> Read(m, Slot(r, i)) == Read(m, Slot(q, i)))
    && (forall r, i {:trigger Slot(r, i)} :: r in roots && 256 <= i < 512 ==> Present(Read(m, Slot(r, i))))
  }

  ghost predicate Inv(h: Heap, place: Places, roots: set<Table>) {
    Tree(h, place) && RootsOk(place, roots) && Shared(h.mem, roots)
  }

  /** A full path of a virtual address. */
  predicate IsPath(path: Path) { |path| == 4 && path[0] < 512 }

  /** Address space `r` uses, for `path`, the entry that address space `top` has at `prefix`. */
  predicate Affects(top: Table, prefix: Path, r: Table, path: Path) {
    prefix <= path && path != [] && (r == top || path[0] >= 256)
  }

  /** A leaf word of the level that `prefix` reaches, or nothing. */
  predicate LeafWord(m: Memory, prefix: Path, v: bv64) {
    2 <= |prefix| <= 4 &&
    (v == 0 || (Present(v) && (|prefix| == 4 || (LargeBit(v) && (|prefix| == 3 || m.gib1)))))
  }

  function LeafOf(prefix: Path, v: bv64): Leaf
    requires |prefix| <= 4
  {
    if v == 0 then NotMapped else Leaf(5 - |prefix|, v)
  }

  /** The kernel's walk from `top` ends at slot `s`. */
  ghost predicate At(h: Heap, place: Places, top: Table, prefix: Path, s: Slot) {
    && prefix != [] && top in place
    && WalkDown(h, top, prefix, false) == Ret(h, Some(s)) && Clean(h.mem, top, prefix)
    && s.table in place && place[s.table] == Place(OwnerAt(place[top], prefix), prefix[..|prefix| - 1])
    && s.index == prefix[|prefix| - 1]
  }

  lemma LeafHit(h: Heap, place: Places, roots: set<Table>, top: Table, prefix: Path, s: Slot, v: bv64, path: Path)
    requires Inv(h, place, roots) && top in roots && IsPath(path) && prefix <= path
    requires At(h, place, top, prefix, s) && LeafWord(h.mem, prefix, v)
    ensures HwWalk(Poke(h.mem, s, v), top, path) == LeafOf(prefix, v)
  {
    var k := |prefix|;
    assert place[top] == Place(Root(top), []);
    assert path[..k] == prefix;
    HitBelow(h, place, s, v, top, path, k);
  }

  /** In the upper half, a walk from another address space goes the same way. */
  lemma LeafHitShared(h: Heap, place: Places, roots: set<Table>, top: Table, s: Slot, v: bv64, r: Table, path: Path)
    requires Inv(h, place, roots) && top in roots && r in roots && IsPath(path) && path[0] >= 256
    requires s.table in place && place[s.table].prefix != []
    ensures HwWalk(Poke(h.mem, s, v), r, path) == HwWalk(Poke(h.mem, s, v), top, path)
  {
    assert s.table != r && s.table != top;
    assert Slot(r, path[0]) != s && Slot(top, path[0]) != s;
    assert Read(h.mem, Slot(r, path[0])) == Read(h.mem, Slot(top, path[0]));
  }

  lemma LeafMiss(h: Heap, place: Places, roots: set<Table>, top: Table, prefix: Path, s: Slot, v: bv64, r: Table, path: Path)
    requires Inv(h, place, roots) && top in roots && r in roots && IsPath(path) && |prefix| >= 2
    requires At(h, place, top, prefix, s) && !Affects(top, prefix, r, path)
    ensures HwWalk(Poke(h.mem, s, v), r, path) == HwWalk(h.mem, r, path)
  {
    assert place[top] == Place(Root(top), []) && place[r] == Place(Root(r), []);
    assert prefix[..|prefix| - 1] + [s.index] == prefix;
    if prefix <= path { assert prefix[0] == path[0]; }
    FrameRoot(h.mem, place, s, v, r, path);
  }

  /** Writing a leaf changes the translation of exactly the pages below it, through every table that shares it. */
  lemma LeafSeen(h: Heap, place: Places, roots: set<Table>, top: Table, prefix: Path, s: Slot, v: bv64, r: Table, path: Path)
    requires Inv(h, place, roots) && top in roots && r in roots && IsPath(path)
    requires At(h, place, top, prefix, s) && LeafWord(h.mem, prefix, v)
    ensures HwWalk(Poke(h.mem, s, v), r, path) ==
            if Affects(top, prefix, r, path) then LeafOf(prefix, v) else HwWalk(h.mem, r, path)
  {
    if Affects(top, prefix, r, path) {
      LeafHit(h, place, roots, top, prefix, s, v, path);
      if r != top { LeafHitShared(h, place, roots, top, s, v, r, path); }
    } else {
      LeafMiss(h, place, roots, top, prefix, s, v, r, path);
    }
  }

  lemma LeafKeepsInv(h: Heap, place: Places, roots: set<Table>, s: Slot, v: bv64)
    requires Inv(h, place, roots) && s.table in place && place[s.table].prefix != []
    requires LeafWord(h.mem, place[s.table].prefix + [s.index], v)
    ensures Inv(h.(mem := Poke(h.mem, s, v)), place, roots)
  {
    var m := Poke(h.mem, s, v);
    forall t, i | t in place ensures EntryOk(m, place, place[t], i, Read(m, Slot(t, i))) {
      assert EntryOk(h.mem, place, place[t], i, Read(h.mem, Slot(t, i)));
    }
    forall r, i | r in roots ensures Read(m, Slot(r, i)) == Read(h.mem, Slot(r, i)) {
      assert Slot(r, i).table == r;
    }
  }
}
