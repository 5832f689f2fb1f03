/** What the range operations do to the pages: the runs that `PagingRanges` names, on the simple maps. */
module PagingRangeEffects {
  import opened Options
  import opened PageEntry
  import opened PageTables
  import opened AddressSpaces
  import opened Pagemap
  import opened HugePages
  import opened PagemapRun
  import opened PagingRanges

  /** The pages at some offsets behind `va`. */
  predicate Among(va: bv64, offs: seq<bv64>, path: Path) { exists n :: 0 <= n < |offs| && PathOf(Plus(va, offs[n])) == path }

  /** A page below `top` is also a page of `r`. */
  predicate Shares(top: Table, r: Table, path: Path)
    requires path != []
  {
    r == top || path[0] >= 256
  }

  lemma AmongStep(va: bv64, offs: seq<bv64>, path: Path)
    requires offs != []
    ensures Among(va, offs, path) <==> PathOf(Plus(va, offs[0])) == path || Among(va, offs[1..], path)
  {
    if Among(va, offs[1..], path) {
      var n :| 0 <= n < |offs[1..]| && PathOf(Plus(va, offs[1..][n])) == path;
      assert offs[n + 1] == offs[1..][n];
    }
    if Among(va, offs, path) {
      var n :| 0 <= n < |offs| && PathOf(Plus(va, offs[n])) == path;
      if n > 0 { assert offs[1..][n - 1] == offs[n]; }
    }
  }

  lemma LegalFirst(h: Heap, k: Table, a: Spaces, op: Op, rest: seq<Op>)
    requires Allowed(h, k, a, op)
    requires var r := PagemapRun.Exec(h, k, op); r.Ret? ==> Legal(r.heap, k, Simple(a, op), rest)
    ensures Legal(h, k, a, [op] + rest)
    ensures var r := PagemapRun.Exec(h, k, op);
            && ExecAll(h, k, [op] + rest) == (if r.Panic? then Panic else ExecAll(r.heap, k, rest))
            && (r.Ret? ==> SimpleAll(h, k, a, [op] + rest) == SimpleAll(r.heap, k, Simple(a, op), rest))
  {
    assert ([op] + rest)[1..] == rest;
  }

  // ---------------------------------------------------------------------------------------------
  // Unmapping
  // ---------------------------------------------------------------------------------------------

  ghost predicate NoneLarge(a: Spaces, top: Table, va: bv64, offs: seq<bv64>)
    requires top in a.user
  {
    forall path: Path {:trigger Among(va, offs, path)} ::
      IsPath(path) && Among(va, offs, path) ==> !IsLarge(Look(a, top, path))
  }

  /** The pages are gone, and all others are as they were. */
  ghost predicate Unmapped(a: Spaces, b: Spaces, top: Table, va: bv64, offs: seq<bv64>) {
    && b.user.Keys == a.user.Keys
    && forall r, path: Path {:trigger Look(b, r, path)} :: r in a.user && IsPath(path) ==>
         Look(b, r, path) == if Among(va, offs, path) && Shares(top, r, path) then NotMapped else Look(a, r, path)
  }

  lemma NoneLargeNext(a: Spaces, top: Table, va: bv64, offs: seq<bv64>)
    requires top in a.user && offs != [] && NoneLarge(a, top, va, offs)
    ensures !IsLarge(Look(a, top, PathOf(Plus(va, offs[0]))))
    ensures NoneLarge(Simple(a, Unmap(top, Plus(va, offs[0]))), top, va, offs[1..])
  {
    var p, b := PathOf(Plus(va, offs[0])), Simple(a, Unmap(top, Plus(va, offs[0])));
    IndexSmall(Plus(va, offs[0]));
    AmongStep(va, offs, p);
    forall path: Path | IsPath(path) && Among(va, offs[1..], path) ensures !IsLarge(Look(b, top, path)) {
      AmongStep(va, offs, path);
      PutLook(a, top, p, NotMapped, top, path);
    }
  }

  lemma UnmappedFirst(a: Spaces, mid: Spaces, b: Spaces, top: Table, va: bv64, offs: seq<bv64>)
    requires top in a.user && offs != []
    requires mid == Simple(a, Unmap(top, Plus(va, offs[0]))) && Unmapped(mid, b, top, va, offs[1..])
    ensures Unmapped(a, b, top, va, offs)
  {
    var p := PathOf(Plus(va, offs[0]));
    IndexSmall(Plus(va, offs[0]));
    forall r, path: Path | r in a.user && IsPath(path)
      ensures Look(b, r, path) == if Among(va, offs, path) && Shares(top, r, path) then NotMapped else Look(a, r, path)
    {
      AmongStep(va, offs, path);
      PutLook(a, top, p, NotMapped, r, path);
    }
  }

  /** With no large page among them, unmapping some pages is legal, never fails, and unmaps just these pages. */
  lemma {:induction false} UnmapOpsEffect(h: Heap, place: Places, k: Table, a: Spaces, top: Table, va: bv64, offs: seq<bv64>)
    requires Refines(h, place, k, a) && top in a.user && NoneLarge(a, top, va, offs)
    ensures var ops := UnmapOps(top, va, offs);
            && Legal(h, k, a, ops) && ExecAll(h, k, ops).Ret?
            && Refines(ExecAll(h, k, ops).heap, place, k, SimpleAll(h, k, a, ops))
            && Unmapped(a, SimpleAll(h, k, a, ops), top, va, offs)
    decreases |offs|
  {
    if offs != [] {
      var op := Unmap(top, Plus(va, offs[0]));
      var mid := Simple(a, op);
      NoneLargeNext(a, top, va, offs);
      UnmapRefines(h, place, k, a, top, Plus(va, offs[0]));
      var g := PagemapRun.Exec(h, k, op).heap;
      UnmapOpsEffect(g, place, k, mid, top, va, offs[1..]);
      LegalFirst(h, k, a, op, UnmapOps(top, va, offs[1..]));
      UnmappedFirst(a, mid, SimpleAll(g, k, mid, UnmapOps(top, va, offs[1..])), top, va, offs);
    }
  }

  // ---------------------------------------------------------------------------------------------
  // Moving
  // ---------------------------------------------------------------------------------------------

  /** A page that can move: mapped, not large, at an aligned canonical address, to where no large page is. */
  predicate CanMove(a: Spaces, top: Table, from: bv64, to: bv64)
    requires top in a.user
  {
    && Look(a, top, PathOf(from)).Leaf? && !IsLarge(Look(a, top, PathOf(from))) && Canonical(from) && from & 0xFFF == 0
    && !IsLarge(Look(a, top, PathOf(to)))
  }

  predicate AllMove(a: Spaces, top: Table, va: bv64, new_va: bv64, offs: seq<bv64>)
    requires top in a.user
  {
    forall n :: 0 <= n < |offs| ==> CanMove(a, top, Plus(va, offs[n]), Plus(new_va, offs[n]))
  }

  /** Old and new pages are all different. */
  predicate Apart(va: bv64, new_va: bv64, offs: seq<bv64>) {
    && (forall m, n :: 0 <= m < |offs| && 0 <= n < |offs| ==> PathOf(Plus(va, offs[m])) != PathOf(Plus(new_va, offs[n])))
    && (forall m, n :: 0 <= m < n < |offs| ==>
          PathOf(Plus(va, offs[m])) != PathOf(Plus(va, offs[n])) && PathOf(Plus(new_va, offs[m])) != PathOf(Plus(new_va, offs[n])))
  }

  /** The leaf that `from` leaves at `to`: its own frame, with the flags and the caching asked for. */
  function MovedLeaf(a: Spaces, top: Table, from: bv64, to: bv64, flags: bv64, cache: Caching): Leaf
    requires top in a.user
  {
    MapLeaf(Look(a, top, PathOf(to)), Address(EntryOf(Look(a, top, PathOf(from)))), flags, cache)
  }

  /** Every page moved: its frame is at the new place, the old place is empty, and all other pages are as they were. */
  ghost predicate Moved(a: Spaces, b: Spaces, top: Table, va: bv64, new_va: bv64, flags: bv64, cache: Caching, offs: seq<bv64>)
    requires top in a.user
  {
    && b.user.Keys == a.user.Keys
    && (forall n :: 0 <= n < |offs| ==>
          && Look(b, top, PathOf(Plus(va, offs[n]))) == NotMapped
          && Look(b, top, PathOf(Plus(new_va, offs[n]))) == MovedLeaf(a, top, Plus(va, offs[n]), Plus(new_va, offs[n]), flags, cache))
    && (forall r, path: Path {:trigger Look(b, r, path)} :: r in a.user && IsPath(path) ==>
          (Shares(top, r, path) && (Among(va, offs, path) || Among(new_va, offs, path))) || Look(b, r, path) == Look(a, r, path))
  }

  /** `mid` is `a` after one page has moved. */
  ghost predicate OneMoved(a: Spaces, mid: Spaces, top: Table, from: bv64, to: bv64, flags: bv64, cache: Caching)
    requires top in a.user
  {
    && mid.user.Keys == a.user.Keys
    && forall r, path: Path {:trigger Look(mid, r, path)} :: r in a.user && IsPath(path) ==>
         Look(mid, r, path) ==
           if path == PathOf(to) && Shares(top, r, path) then MovedLeaf(a, top, from, to, flags, cache)
           else if path == PathOf(from) && Shares(top, r, path) then NotMapped
           else Look(a, r, path)
  }

  lemma MoveOne(a: Spaces, top: Table, from: bv64, to: bv64, flags: bv64, cache: Caching)
    requires top in a.user && PathOf(from) != PathOf(to)
    ensures OneMoved(a, Simple(a, Remap(top, from, to, flags, cache)), top, from, to, flags, cache)
  {
    IndexSmall(from);
    IndexSmall(to);
    var b := Put(a, top, PathOf(from), NotMapped);
    var leaf := MovedLeaf(a, top, from, to, flags, cache);
    PutLook(a, top, PathOf(from), NotMapped, top, PathOf(to));
    assert Simple(a, Remap(top, from, to, flags, cache)) == Put(b, top, PathOf(to), leaf);
    PutTwice(a, b, top, PathOf(from), PathOf(to), leaf);
  }

  lemma PutTwice(a: Spaces, b: Spaces, top: Table, p: Path, q: Path, leaf: Leaf)
    requires top in a.user && IsPath(p) && IsPath(q) && b == Put(a, top, p, NotMapped)
    ensures b.user.Keys == a.user.Keys == Put(b, top, q, leaf).user.Keys
    ensures forall r, path: Path {:trigger Look(Put(b, top, q, leaf), r, path)} :: r in a.user && IsPath(path) ==>
              Look(Put(b, top, q, leaf), r, path) ==
                if path == q && Shares(top, r, path) then leaf
                else if path == p && Shares(top, r, path) then NotMapped
                else Look(a, r, path)
  {
    forall r, path: Path | r in a.user && IsPath(path)
      ensures Look(Put(b, top, q, leaf), r, path) ==
                if path == q && Shares(top, r, path) then leaf
                else if path == p && Shares(top, r, path) then NotMapped
                else Look(a, r, path)
    {
      PutLook(a, top, p, NotMapped, r, path);
      PutLook(b, top, q, leaf, r, path);
    }
  }

  /** What is still to move is as it was. */
  lemma OthersStay(a: Spaces, mid: Spaces, top: Table, va: bv64, new_va: bv64, flags: bv64, cache: Caching, offs: seq<bv64>, n: nat)
    requires top in a.user && 0 < n < |offs|
    requires OneMoved(a, mid, top, Plus(va, offs[0]), Plus(new_va, offs[0]), flags, cache)
    requires Apart(va, new_va, offs)
    ensures var from, to := PathOf(Plus(va, offs[n])), PathOf(Plus(new_va, offs[n]));
            Look(mid, top, from) == Look(a, top, from) && Look(mid, top, to) == Look(a, top, to)
  {
    IndexSmall(Plus(va, offs[n]));
    IndexSmall(Plus(new_va, offs[n]));
  }

  lemma AllMoveNext(a: Spaces, mid: Spaces, top: Table, va: bv64, new_va: bv64, flags: bv64, cache: Caching, offs: seq<bv64>)
    requires top in a.user && offs != [] && AllMove(a, top, va, new_va, offs)
    requires OneMoved(a, mid, top, Plus(va, offs[0]), Plus(new_va, offs[0]), flags, cache)
    requires Apart(va, new_va, offs)
    ensures AllMove(mid, top, va, new_va, offs[1..]) && Apart(va, new_va, offs[1..])
  {
    forall n | 0 <= n < |offs[1..]| ensures CanMove(mid, top, Plus(va, offs[1..][n]), Plus(new_va, offs[1..][n])) {
      OthersStay(a, mid, top, va, new_va, flags, cache, offs, n + 1);
      assert CanMove(a, top, Plus(va, offs[n + 1]), Plus(new_va, offs[n + 1]));
    }
  }

  /** The first page, once it has moved, is none of those that move later. */
  lemma FirstIsApart(va: bv64, new_va: bv64, offs: seq<bv64>)
    requires offs != [] && Apart(va, new_va, offs)
    ensures var from, to := PathOf(Plus(va, offs[0])), PathOf(Plus(new_va, offs[0]));
            && !Among(va, offs[1..], from) && !Among(new_va, offs[1..], from)
            && !Among(va, offs[1..], to) && !Among(new_va, offs[1..], to)
  {
    forall n | 0 <= n < |offs[1..]| ensures offs[1..][n] == offs[n + 1] {}
  }

  lemma MovedPage(a: Spaces, mid: Spaces, b: Spaces, top: Table, va: bv64, new_va: bv64, flags: bv64, cache: Caching, offs: seq<bv64>, n: nat)
    requires top in a.user && n < |offs|
    requires OneMoved(a, mid, top, Plus(va, offs[0]), Plus(new_va, offs[0]), flags, cache)
    requires Moved(mid, b, top, va, new_va, flags, cache, offs[1..])
    requires Apart(va, new_va, offs)
    ensures Look(b, top, PathOf(Plus(va, offs[n]))) == NotMapped
    ensures Look(b, top, PathOf(Plus(new_va, offs[n]))) == MovedLeaf(a, top, Plus(va, offs[n]), Plus(new_va, offs[n]), flags, cache)
  {
    IndexSmall(Plus(va, offs[n]));
    IndexSmall(Plus(new_va, offs[n]));
    if n == 0 {
      FirstIsApart(va, new_va, offs);
    } else {
      OthersStay(a, mid, top, va, new_va, flags, cache, offs, n);
      assert offs[1..][n - 1] == offs[n];
    }
  }

  lemma MovedFirst(a: Spaces, mid: Spaces, b: Spaces, top: Table, va: bv64, new_va: bv64, flags: bv64, cache: Caching, offs: seq<bv64>)
    requires top in a.user && offs != []
    requires OneMoved(a, mid, top, Plus(va, offs[0]), Plus(new_va, offs[0]), flags, cache)
    requires Moved(mid, b, top, va, new_va, flags, cache, offs[1..])
    requires Apart(va, new_va, offs)
    ensures Moved(a, b, top, va, new_va, flags, cache, offs)
  {
    forall n | 0 <= n < |offs|
      ensures Look(b, top, PathOf(Plus(va, offs[n]))) == NotMapped
      ensures Look(b, top, PathOf(Plus(new_va, offs[n]))) == MovedLeaf(a, top, Plus(va, offs[n]), Plus(new_va, offs[n]), flags, cache)
    {
      MovedPage(a, mid, b, top, va, new_va, flags, cache, offs, n);
    }
    forall r, path: Path | r in a.user && IsPath(path)
      ensures (Shares(top, r, path) && (Among(va, offs, path) || Among(new_va, offs, path))) || Look(b, r, path) == Look(a, r, path)
    {
      AmongStep(va, offs, path);
      AmongStep(new_va, offs, path);
      assert r in mid.user;
      var _ := Look(mid, r, path);
    }
  }

  lemma RemapStep(h: Heap, place: Places, k: Table, a: Spaces, top: Table, from: bv64, to: bv64, flags: bv64, cache: Caching)
    returns (mid: Spaces, now: Places)
    requires Refines(h, place, k, a) && top in a.user && SizeOf(flags).Small?
    requires CanMove(a, top, from, to) && PathOf(from) != PathOf(to)
    ensures var op := Remap(top, from, to, flags, cache);
            && Allowed(h, k, a, op) && mid == Simple(a, op)
            && (PagemapRun.Exec(h, k, op).Ret? ==> Refines(PagemapRun.Exec(h, k, op).heap, now, k, mid))
    ensures OneMoved(a, mid, top, from, to, flags, cache)
  {
    now := RemapRefines(h, place, k, a, top, from, to, flags, cache);
    mid := Simple(a, Remap(top, from, to, flags, cache));
    MoveOne(a, top, from, to, flags, cache);
  }

  lemma RemapOpsFirst(top: Table, va: bv64, new_va: bv64, flags: bv64, cache: Caching, offs: seq<bv64>)
    requires offs != []
    ensures RemapOps(top, va, new_va, flags, cache, offs) ==
            [Remap(top, Plus(va, offs[0]), Plus(new_va, offs[0]), flags, cache)] + RemapOps(top, va, new_va, flags, cache, offs[1..])
  {
  }

  lemma RemapFirst(
    h: Heap, place: Places, k: Table, a: Spaces, top: Table, va: bv64, new_va: bv64, flags: bv64, cache: Caching, offs: seq<bv64>)
    returns (mid: Spaces, now: Places)
    requires Refines(h, place, k, a) && top in a.user && SizeOf(flags).Small? && offs != []
    requires AllMove(a, top, va, new_va, offs) && Apart(va, new_va, offs)
    ensures var op := Remap(top, Plus(va, offs[0]), Plus(new_va, offs[0]), flags, cache);
            && Allowed(h, k, a, op) && mid == Simple(a, op) && top in mid.user
            && (PagemapRun.Exec(h, k, op).Ret? ==> Refines(PagemapRun.Exec(h, k, op).heap, now, k, mid))
    ensures OneMoved(a, mid, top, Plus(va, offs[0]), Plus(new_va, offs[0]), flags, cache)
    ensures AllMove(mid, top, va, new_va, offs[1..]) && Apart(va, new_va, offs[1..])
  {
    assert CanMove(a, top, Plus(va, offs[0]), Plus(new_va, offs[0]));
    mid, now := RemapStep(h, place, k, a, top, Plus(va, offs[0]), Plus(new_va, offs[0]), flags, cache);
    AllMoveNext(a, mid, top, va, new_va, flags, cache, offs);
  }

  lemma LegalRest(h: Heap, k: Table, a: Spaces, op: Op, rest: seq<Op>)
    requires Legal(h, k, a, [op] + rest)
    ensures var r := PagemapRun.Exec(h, k, op); r.Ret? ==> Legal(r.heap, k, Simple(a, op), rest)
  {
    assert ([op] + rest)[1..] == rest;
  }

  /** Moving some pages, all of them different from where they go, is legal. */
  lemma {:induction false} RemapOpsLegal(
    h: Heap, place: Places, k: Table, a: Spaces, top: Table, va: bv64, new_va: bv64, flags: bv64, cache: Caching, offs: seq<bv64>)
    requires Refines(h, place, k, a) && top in a.user && SizeOf(flags).Small?
    requires AllMove(a, top, va, new_va, offs) && Apart(va, new_va, offs)
    ensures Legal(h, k, a, RemapOps(top, va, new_va, flags, cache, offs))
    decreases |offs|
  {
    if offs != [] {
      var op := Remap(top, Plus(va, offs[0]), Plus(new_va, offs[0]), flags, cache);
      var mid, now := RemapFirst(h, place, k, a, top, va, new_va, flags, cache, offs);
      var r := PagemapRun.Exec(h, k, op);
      if r.Ret? { RemapOpsLegal(r.heap, now, k, mid, top, va, new_va, flags, cache, offs[1..]); }
      LegalFirst(h, k, a, op, RemapOps(top, va, new_va, flags, cache, offs[1..]));
      RemapOpsFirst(top, va, new_va, flags, cache, offs);
    }
  }

  /** Unless memory for tables runs out, every page has moved and no other page has changed. */
  lemma {:induction false} RemapOpsEffect(
    h: Heap, place: Places, k: Table, a: Spaces, top: Table, va: bv64, new_va: bv64, flags: bv64, cache: Caching, offs: seq<bv64>)
    requires Refines(h, place, k, a) && top in a.user && SizeOf(flags).Small?
    requires AllMove(a, top, va, new_va, offs) && Apart(va, new_va, offs)
    requires var ops := RemapOps(top, va, new_va, flags, cache, offs); Legal(h, k, a, ops) && ExecAll(h, k, ops).Ret?
    ensures Moved(a, SimpleAll(h, k, a, RemapOps(top, va, new_va, flags, cache, offs)), top, va, new_va, flags, cache, offs)
    decreases |offs|
  {
    if offs != [] {
      var op := Remap(top, Plus(va, offs[0]), Plus(new_va, offs[0]), flags, cache);
      var rest := RemapOps(top, va, new_va, flags, cache, offs[1..]);
      var mid, now := RemapFirst(h, place, k, a, top, va, new_va, flags, cache, offs);
      RemapOpsFirst(top, va, new_va, flags, cache, offs);
      LegalRest(h, k, a, op, rest);
      LegalFirst(h, k, a, op, rest);
      var g := PagemapRun.Exec(h, k, op).heap;
      RemapOpsEffect(g, now, k, mid, top, va, new_va, flags, cache, offs[1..]);
      MovedFirst(a, mid, SimpleAll(g, k, mid, rest), top, va, new_va, flags, cache, offs);
    }
  }

  // ---------------------------------------------------------------------------------------------
  // The offsets of a range
  // ---------------------------------------------------------------------------------------------

  lemma NextAligned(i: bv64)
    requires i & 0xFFF == 0
    ensures Next(i) & 0xFFF == 0
  {
  }

  lemma {:induction false} OffsetInside(size: bv64, i: bv64, j: bv64)
    requires size <= MAX_RANGE && i & 0xFFF == 0 && j in Offsets(size, i)
    ensures j < size && j & 0xFFF == 0
    decreases |Offsets(size, i)|
  {
    if j != i {
      OffsetsFirst(size, i);
      NextAligned(i);
      OffsetInside(size, Next(i), j);
    }
  }

  lemma PageBefore(i: bv64, size: bv64) returns (before: bv64)
    requires i & 0xFFF == 0 && i != 0 && i < size
    ensures before < i && before < size && before & 0xFFF == 0 && Next(before) == i
  {
    before := i - 0x1000;
  }

  lemma InTail(size: bv64, before: bv64, i: bv64, j: bv64)
    requires size <= MAX_RANGE && before < size && Next(before) == i && j in Offsets(size, i)
    ensures j in Offsets(size, before)
  {
    OffsetsFirst(size, before);
  }

  lemma {:induction false} OffsetFromStart(size: bv64, i: bv64, j: bv64)
    requires size <= MAX_RANGE && i & 0xFFF == 0 && i < size && j in Offsets(size, i)
    ensures j in Offsets(size, 0)
    decreases i
  {
    if i != 0 {
      var before := PageBefore(i, size);
      InTail(size, before, i, j);
      OffsetFromStart(size, before, j);
    }
  }

  /** The offsets are the multiples of the page size below `size`. */
  lemma OffsetsAre(size: bv64, j: bv64)
    requires size <= MAX_RANGE
    ensures j in Offsets(size, 0) <==> j < size && j & 0xFFF == 0
  {
    if j in Offsets(size, 0) { OffsetInside(size, 0, j); }
    if j < size && j & 0xFFF == 0 {
      OffsetsFirst(size, j);
      OffsetFromStart(size, j, j);
    }
  }

  lemma {:induction false} Suffix(size: bv64, i: bv64, j: bv64)
    requires size <= MAX_RANGE && j in Offsets(size, i)
    ensures |Offsets(size, j)| <= |Offsets(size, i)|
    decreases |Offsets(size, i)|
  {
    if j != i {
      OffsetsFirst(size, i);
      Suffix(size, Next(i), j);
    }
  }

  /** No offset comes twice. */
  lemma {:induction false} OffsetsDistinct(size: bv64, i: bv64, m: nat, n: nat)
    requires size <= MAX_RANGE && m < n < |Offsets(size, i)|
    ensures Offsets(size, i)[m] != Offsets(size, i)[n]
    decreases m
  {
    OffsetsFirst(size, i);
    var rest := Offsets(size, Next(i));
    if m > 0 {
      OffsetsDistinct(size, Next(i), m - 1, n - 1);
    } else if rest[n - 1] == i {
      Suffix(size, Next(i), i);
    }
  }

  // ---------------------------------------------------------------------------------------------
  // Ranges of canonical addresses
  // ---------------------------------------------------------------------------------------------

  function Floor(w: bv64): bv64 { w & 0xFFFF_FFFF_FFFF_F000 }

  function Minus(a: bv64, b: bv64): bv64 { a - b }

  lemma MinusSum(a: bv64, b: bv64)
    ensures Minus(a + b, a) == b
  {
  }

  lemma MinusPlus(a: bv64, b: bv64)
    ensures Minus(Plus(a, b), a) == b
  {
    MinusSum(a, b);
  }

  lemma FloorAligned(w: bv64)
    ensures w & 0xFFF == 0 ==> Floor(w) == w
    ensures Floor(w) & 0xFFF == 0 && Floor(Floor(w)) == Floor(w)
  {
  }

  lemma OffsetAligned(a: bv64, b: bv64)
    requires a & 0xFFF == 0 && b & 0xFFF == 0
    ensures Plus(a, b) & 0xFFF == 0
  {
  }

  /** A range that starts on a page and whose pages all have canonical addresses. */
  predicate CanonicalRange(va: bv64, size: bv64)
    requires size <= MAX_RANGE
  {
    va & 0xFFF == 0 && forall j :: j in Offsets(size, 0) ==> Canonical(Plus(va, j))
  }

  lemma FloorOf(x: bv64, w: bv64)
    requires x & 0xFFFF_FFFF_FFFF_F000 == w & 0xFFFF_FFFF_FFFF_F000
    ensures Floor(x) == Floor(w)
  {
  }

  lemma FloorBits(x: bv64, w: bv64)
    requires Floor(x) == Floor(w)
    ensures x & 0xFFFF_FFFF_FFFF_F000 == w & 0xFFFF_FFFF_FFFF_F000
  {
  }

  lemma PathNamesFloor(x: bv64, w: bv64)
    requires Canonical(x) && Canonical(w)
    ensures PathOf(x) == PathOf(w) <==> Floor(x) == Floor(w)
  {
    PathNamesPage(x, w);
    if PathOf(x) == PathOf(w) { FloorOf(x, w); }
    if Floor(x) == Floor(w) { FloorBits(x, w); }
  }

  lemma PageAt(x: bv64, w: bv64)
    requires Floor(x) == x && Canonical(x) && Canonical(w)
    ensures PathOf(x) == PathOf(w) <==> x == Floor(w)
  {
    PathNamesFloor(x, w);
  }

  lemma OffsetFloor(va: bv64, size: bv64, j: bv64)
    requires size <= MAX_RANGE && va & 0xFFF == 0 && j in Offsets(size, 0)
    ensures Floor(Plus(va, j)) == Plus(va, j)
  {
    OffsetInside(size, 0, j);
    OffsetAligned(va, j);
    FloorAligned(Plus(va, j));
  }

  lemma PageOfOffset(va: bv64, size: bv64, j: bv64) returns (x: bv64)
    requires size <= MAX_RANGE && CanonicalRange(va, size) && j in Offsets(size, 0)
    ensures x == Plus(va, j) && Canonical(x) && Floor(x) == x
  {
    OffsetFloor(va, size, j);
    x := Plus(va, j);
  }

  lemma PageAtOffset(va: bv64, size: bv64, j: bv64, w: bv64) returns (x: bv64)
    requires size <= MAX_RANGE && CanonicalRange(va, size) && Canonical(w) && j in Offsets(size, 0)
    ensures x == Plus(va, j) && (PathOf(x) == PathOf(w) <==> x == Floor(w))
  {
    x := PageOfOffset(va, size, j);
    PageAt(x, w);
  }

  lemma AmongAt(va: bv64, offs: seq<bv64>, j: bv64, path: Path)
    requires j in offs && PathOf(Plus(va, j)) == path
    ensures Among(va, offs, path)
  {
    var n :| 0 <= n < |offs| && offs[n] == j;
  }

  lemma AmongWhere(va: bv64, offs: seq<bv64>, path: Path) returns (j: bv64)
    requires Among(va, offs, path)
    ensures j in offs && PathOf(Plus(va, j)) == path
  {
    var n :| 0 <= n < |offs| && PathOf(Plus(va, offs[n])) == path;
    j := offs[n];
  }

  lemma BackAligned(va: bv64, back: bv64)
    requires va & 0xFFF == 0 && Plus(va, back) & 0xFFF == 0
    ensures back & 0xFFF == 0
  {
  }

  lemma AmongAtBack(va: bv64, size: bv64, w: bv64, back: bv64)
    requires size <= MAX_RANGE && CanonicalRange(va, size) && Canonical(w) && Plus(va, back) == Floor(w)
    ensures Among(va, Offsets(size, 0), PathOf(w)) <==> back in Offsets(size, 0)
  {
    var offs := Offsets(size, 0);
    if Among(va, offs, PathOf(w)) {
      var j := AmongWhere(va, offs, PathOf(w));
      var _ := PageAtOffset(va, size, j, w);
      MinusPlus(va, j);
      MinusPlus(va, back);
    }
    if back in offs {
      var _ := PageAtOffset(va, size, back, w);
      AmongAt(va, offs, back, PathOf(w));
    }
  }

  /** A canonical address whose page begins `back` bytes behind `va` lies in the range exactly when `back` is below its size. */
  lemma AmongIff(va: bv64, size: bv64, w: bv64, back: bv64)
    requires size <= MAX_RANGE && CanonicalRange(va, size) && Canonical(w) && Plus(va, back) == Floor(w)
    ensures Among(va, Offsets(size, 0), PathOf(w)) <==> back < size
  {
    FloorAligned(w);
    BackAligned(va, back);
    OffsetsAre(size, back);
    AmongAtBack(va, size, w, back);
  }

  lemma PagesDiffer(va: bv64, new_va: bv64, size: bv64, j: bv64, l: bv64)
    requires size <= MAX_RANGE && CanonicalRange(va, size) && CanonicalRange(new_va, size)
    requires j in Offsets(size, 0) && l in Offsets(size, 0) && Plus(va, j) != Plus(new_va, l)
    ensures PathOf(Plus(va, j)) != PathOf(Plus(new_va, l))
  {
    OffsetInside(size, 0, l);
    OffsetAligned(new_va, l);
    FloorAligned(Plus(new_va, l));
    var _ := PageAtOffset(va, size, j, Plus(new_va, l));
  }

  lemma SameRangeDiffers(va: bv64, size: bv64, m: nat, n: nat)
    requires size <= MAX_RANGE && CanonicalRange(va, size) && m < n < |Offsets(size, 0)|
    ensures var offs := Offsets(size, 0); PathOf(Plus(va, offs[m])) != PathOf(Plus(va, offs[n]))
  {
    var offs := Offsets(size, 0);
    OffsetsDistinct(size, 0, m, n);
    MinusPlus(va, offs[m]);
    MinusPlus(va, offs[n]);
    PagesDiffer(va, va, size, offs[m], offs[n]);
  }

  /** Two canonical ranges without a page in common are what moving asks for. */
  lemma RangesApart(va: bv64, new_va: bv64, size: bv64, offs: seq<bv64>)
    requires size <= MAX_RANGE && CanonicalRange(va, size) && CanonicalRange(new_va, size) && offs == Offsets(size, 0)
    requires forall j, l :: j in offs && l in offs ==> Plus(va, j) != Plus(new_va, l)
    ensures Apart(va, new_va, offs)
  {
    forall m, n | 0 <= m < |offs| && 0 <= n < |offs| ensures PathOf(Plus(va, offs[m])) != PathOf(Plus(new_va, offs[n])) {
      PagesDiffer(va, new_va, size, offs[m], offs[n]);
    }
    forall m, n | 0 <= m < n < |offs|
      ensures PathOf(Plus(va, offs[m])) != PathOf(Plus(va, offs[n])) && PathOf(Plus(new_va, offs[m])) != PathOf(Plus(new_va, offs[n]))
    {
      SameRangeDiffers(va, size, m, n);
      SameRangeDiffers(new_va, size, m, n);
    }
  }

  lemma UnmapOpsWalk(h: Heap, place: Places, k: Table, a: Spaces, top: Table, va: bv64, offs: seq<bv64>, g: Heap, r: Table, path: Path)
    requires Refines(h, place, k, a) && top in a.user && r in a.user && IsPath(path)
    requires NoneLarge(a, top, va, offs) && ExecAll(h, k, UnmapOps(top, va, offs)) == Ret(g, ())
    ensures HwWalk(g.mem, r, path) == if Among(va, offs, path) && Shares(top, r, path) then NotMapped else HwWalk(h.mem, r, path)
  {
    UnmapOpsEffect(h, place, k, a, top, va, offs);
    UnmappedWalk(h, g, place, k, a, SimpleAll(h, k, a, UnmapOps(top, va, offs)), top, va, offs, r, path);
  }

  lemma TranslateBy(m: Memory, n: Memory, r: Table, w: bv64, gone: bool)
    requires Canonical(w) && HwWalk(n, r, PathOf(w)) == if gone then NotMapped else HwWalk(m, r, PathOf(w))
    ensures Translate(n, r, w) == if gone then None else Translate(m, r, w)
  {
  }

  /**
   After `unmap_range` over a canonical range without large pages, the hardware translates no address of
   the range, and every other address, in every address space, as before.
   */
  lemma UnmapRangeMeans(
    h: Heap, place: Places, k: Table, a: Spaces, top: Table, va: bv64, size: bv64, offs: seq<bv64>, g: Heap, r: Table, w: bv64, back: bv64)
    requires Refines(h, place, k, a) && top in a.user && r in a.user
    requires size <= MAX_RANGE && CanonicalRange(va, size) && offs == Offsets(size, 0) && NoneLarge(a, top, va, offs)
    requires ExecAll(h, k, UnmapOps(top, va, offs)) == Ret(g, ())
    requires Canonical(w) && Plus(va, back) == Floor(w)
    ensures Translate(g.mem, r, w) == if back < size && Shares(top, r, PathOf(w)) then None else Translate(h.mem, r, w)
  {
    IndexSmall(w);
    AmongIff(va, size, w, back);
    UnmapOpsWalk(h, place, k, a, top, va, offs, g, r, PathOf(w));
    TranslateBy(h.mem, g.mem, r, w, Among(va, offs, PathOf(w)) && Shares(top, r, PathOf(w)));
  }

  lemma UnmappedWalk(h: Heap, g: Heap, place: Places, k: Table, a: Spaces, b: Spaces, top: Table, va: bv64, offs: seq<bv64>, r: Table, path: Path)
    requires Refines(h, place, k, a) && Refines(g, place, k, b) && Unmapped(a, b, top, va, offs) && r in a.user && IsPath(path)
    ensures HwWalk(g.mem, r, path) == if Among(va, offs, path) && Shares(top, r, path) then NotMapped else HwWalk(h.mem, r, path)
  {
    assert HwWalk(g.mem, r, path) == Look(b, r, path);
    assert HwWalk(h.mem, r, path) == Look(a, r, path);
  }
}
