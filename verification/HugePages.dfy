/**
 `map` at all three page sizes, with the fallback that maps a gigabyte as 512 pages of 2 MiB.
 */
module HugePages {
  import opened Options
  import opened PageEntry
  import opened PageTables
  import opened AddressSpaces
  import opened Pagemap

  function Plus(a: bv64, b: bv64): bv64 { a + b }

  /** The offset of chunk `n` in a gigabyte. */
  function Offset(n: bv64): bv64 { n << 21 }

  /** The address of chunk `n` of a gigabyte. */
  function Chunk(a: bv64, n: bv64): bv64 { Plus(a, Offset(n)) }

  /** 1 GiB requests become 2 MiB requests. */
  function FallbackFlags(flags: bv64): bv64 { (flags & !64) | 32 }

  /** The chunks of a gigabyte from `n` on. */
  function MapChunks(h: Heap, top: Table, va: bv64, pa: bv64, flags: bv64, cache: Caching, n: bv64): Outcome<bool>
    requires n <= 512
    decreases 512 - n
  {
    if n == 512 then Ret(h, true)
    else
      match MapOne(h, top, Chunk(va, n), Chunk(pa, n), flags, cache, Large)
      case Panic => Panic
      case Ret(g, ok) => if ok then MapChunks(g, top, va, pa, flags, cache, n + 1) else Ret(g, false)
  }

  function MapPage(h: Heap, top: Table, va: bv64, pa: bv64, flags: bv64, cache: Caching): Outcome<bool> {
    if SizeOf(flags).Huge? && !h.mem.gib1 then MapChunks(h, top, va, pa, FallbackFlags(flags), cache, 0)
    else MapOne(h, top, va, pa, flags, cache, SizeOf(flags))
  }

  predicate GigAligned(a: bv64) { a & 0x3FFF_FFFF == 0 }

  // ---------------------------------------------------------------------------------------------
  // One chunk
  // ---------------------------------------------------------------------------------------------

  lemma ChunkIndices(va: bv64, n: bv64)
    requires GigAligned(va) && n < 512
    ensures Index4(Chunk(va, n)) == Index4(va) && Index3(Chunk(va, n)) == Index3(va) && Index2(Chunk(va, n)) == n
  {
    ChunkJoins(va, n);
  }

  lemma ChunkJoins(va: bv64, n: bv64)
    requires GigAligned(va) && n < 512
    ensures Chunk(va, n) == va | (n << 21)
  {
  }

  lemma ChunkPrefix(va: bv64, n: bv64)
    requires GigAligned(va) && n < 512
    ensures Prefix(Chunk(va, n), Large) == Prefix(va, Huge) + [n]
  {
    ChunkIndices(va, n);
  }

  lemma ChunkSized(pa: bv64, n: bv64)
    requires GigAligned(pa) && IsFrame(pa) && n < 512
    ensures Sized(2, Chunk(pa, n))
  {
    ChunkJoins(pa, n);
    ChunkFrame(pa, n);
    ChunkLowBits(pa, n);
  }

  lemma ChunkLowBits(pa: bv64, n: bv64)
    requires GigAligned(pa)
    ensures (pa | (n << 21)) & 0x1F_F000 == 0
  {
  }

  lemma GigSized(pa: bv64)
    requires GigAligned(pa) && IsFrame(pa)
    ensures Sized(3, pa)
  {
  }

  lemma ChunkFrame(pa: bv64, n: bv64)
    requires GigAligned(pa) && IsFrame(pa) && n < 512
    ensures IsFrame(Chunk(pa, n)) && Chunk(pa, n) & 0x000F_FFFF_FFE0_0000 == pa | (n << 21)
  {
    ChunkJoins(pa, n);
    JoinedFrame(Chunk(pa, n), pa, n);
  }

  lemma JoinedFrame(x: bv64, pa: bv64, n: bv64)
    requires GigAligned(pa) && IsFrame(pa) && n < 512 && x == pa | (n << 21)
    ensures IsFrame(x) && x & 0x000F_FFFF_FFE0_0000 == x
  {
  }

  /** The frame of chunk `n` of an aligned gigabyte. */
  function ChunkAt(pa: bv64, n: bv64): bv64 { Join(pa, n << 21) }

  /** The frame of a 2 MiB leaf. */
  function FrameOf(e: bv64): bv64 { e & 0x000F_FFFF_FFE0_0000 }

  /** The leaf of chunk `n` of the gigabyte at `pa`. */
  predicate ChunkLeaf(leaf: Leaf, pa: bv64, n: bv64) {
    leaf.Leaf? && leaf.level == 2 && FrameOf(leaf.entry) == ChunkAt(pa, n)
  }

  lemma ChunkEntry(e: bv64, pa: bv64, n: bv64, flags: bv64, cache: Caching)
    requires GigAligned(pa) && IsFrame(pa) && n < 512
    ensures ChunkLeaf(Leaf(2, MapEntry(e, Chunk(pa, n), LeafFlags(flags, cache, true))), pa, n)
  {
    ChunkFrame(pa, n);
    LeafFlagsShape(flags, cache, true);
    MappedBits(e, Chunk(pa, n), LeafFlags(flags, cache, true), 0x000F_FFFF_FFE0_0000);
  }

  /** The chunks of the gigabyte below `prefix` from `n` on are mapped to `pa`; nothing else changed. */
  ghost predicate ChunksFrom(m: Memory, g: Memory, roots: set<Table>, top: Table, prefix: Path, pa: bv64, n: bv64)
    requires n <= 512
  {
    forall r, path {:trigger HwWalk(g, r, path)} :: r in roots && IsPath(path) ==>
      ChunkSeen(Affects(top, prefix, r, path), HwWalk(m, r, path), HwWalk(g, r, path), pa, n, path[2])
  }

  lemma NextChunk(n: bv64, j: bv64)
    requires n < 512
    ensures n <= j < 512 <==> j == n || n + 1 <= j < 512
  {
  }

  lemma ChunkAffects(top: Table, prefix: Path, n: bv64, r: Table, path: Path)
    requires |prefix| == 2 && IsPath(path)
    ensures Affects(top, prefix + [n], r, path) <==> Affects(top, prefix, r, path) && path[2] == n
  {
    if prefix <= path && path[2] == n { assert path[..3] == prefix + [n]; }
    if prefix + [n] <= path {
      assert path[..2] == (prefix + [n])[..2];
      assert path[2] == (prefix + [n])[2];
    }
  }

  /** Chunk `j` is one of the chunks from `n` on. */
  predicate Left(n: bv64, j: bv64)
    requires n <= 512
    decreases 512 - n
  {
    n != 512 && (j == n || Left(n + 1, j))
  }

  lemma {:induction false} LeftIff(n: bv64, j: bv64)
    requires n <= 512
    ensures Left(n, j) <==> n <= j < 512
    decreases 512 - n
  {
    if n < 512 {
      LeftIff(n + 1, j);
      NextChunk(n, j);
    }
  }

  /** What chunks from `n` on give to one path. */
  predicate ChunkSeen(hit: bool, before: Leaf, after: Leaf, pa: bv64, n: bv64, j: bv64)
    requires n <= 512
  {
    if hit && Left(n, j) then ChunkLeaf(after, pa, j) else after == before
  }

  lemma ChunkSeenStep(hit: bool, before: Leaf, next: Leaf, after: Leaf, leaf: Leaf, pa: bv64, n: bv64, j: bv64)
    requires n < 512 && ChunkLeaf(leaf, pa, n)
    requires next == if hit && j == n then leaf else before
    requires ChunkSeen(hit, next, after, pa, n + 1, j)
    ensures ChunkSeen(hit, before, after, pa, n, j)
  {
  }

  lemma ChunksStep(m: Memory, h: Memory, g: Memory, roots: set<Table>, top: Table, prefix: Path, pa: bv64, n: bv64, next: bv64, leaf: Leaf)
    requires |prefix| == 2 && n < 512 && next == n + 1 && ChunkLeaf(leaf, pa, n)
    requires Updated(m, h, roots, top, prefix + [n], leaf)
    requires ChunksFrom(h, g, roots, top, prefix, pa, next)
    ensures ChunksFrom(m, g, roots, top, prefix, pa, n)
  {
    forall r, path | r in roots && IsPath(path)
      ensures ChunkSeen(Affects(top, prefix, r, path), HwWalk(m, r, path), HwWalk(g, r, path), pa, n, path[2])
    {
      ChunkAffects(top, prefix, n, r, path);
      assert HwWalk(h, r, path) == if Affects(top, prefix + [n], r, path) then leaf else HwWalk(m, r, path);
      ChunkSeenStep(Affects(top, prefix, r, path), HwWalk(m, r, path), HwWalk(h, r, path), HwWalk(g, r, path), leaf, pa, n, path[2]);
    }
  }

  /** Without 1 GiB pages no walk to a 2 MiB leaf can meet a large page. */
  lemma CleanWithoutGiant(h: Heap, place: Places, roots: set<Table>, top: Table, prefix: Path)
    requires Inv(h, place, roots) && top in roots && (|prefix| == 2 || (|prefix| == 3 && !h.mem.gib1))
    ensures Clean(h.mem, top, prefix)
  {
    assert place[top] == Place(Root(top), []);
    var e := Read(h.mem, Slot(top, prefix[0]));
    assert EntryOk(h.mem, place, place[top], prefix[0], e);
    if Present(e) && |prefix| == 3 {
      Child(h.mem, place, top, prefix[0]);
      var t := Table(Address(e));
      assert EntryOk(h.mem, place, place[t], prefix[1], Read(h.mem, Slot(t, prefix[1])));
    }
  }

  ghost predicate ChunksOk(h: Heap, r: Outcome<bool>, roots: set<Table>, top: Table, prefix: Path, pa: bv64, n: bv64, now: Places)
    requires n <= 512
  {
    r.Ret? ==>
      && r.value && Inv(r.heap, now, roots) && r.heap.mem.gib1 == h.mem.gib1
      && ChunksFrom(h.mem, r.heap.mem, roots, top, prefix, pa, n)
  }

  lemma OneChunk(h: Heap, place: Places, roots: set<Table>, top: Table, va: bv64, pa: bv64, flags: bv64, cache: Caching, n: bv64)
    returns (leaf: Leaf)
    requires Inv(h, place, roots) && top in roots && !h.mem.gib1 && n < 512
    requires GigAligned(va) && GigAligned(pa) && IsFrame(pa) && LPage(flags)
    ensures var r := MapOne(h, top, Chunk(va, n), Chunk(pa, n), flags, cache, Large);
            r.Ret? ==>
              && r.value && Inv(r.heap, PlacesOf(h, place, top, Prefix(va, Huge) + [n]), roots)
              && !r.heap.mem.gib1 && ChunkLeaf(leaf, pa, n)
              && Updated(h.mem, r.heap.mem, roots, top, Prefix(va, Huge) + [n], leaf)
  {
    ChunkPrefix(va, n);
    ChunkFrame(pa, n);
    ChunkSized(pa, n);
    CleanWithoutGiant(h, place, roots, top, Prefix(va, Huge) + [n]);
    var e := MapEffect(h, place, roots, top, Chunk(va, n), Chunk(pa, n), flags, cache, Large);
    ChunkEntry(e, pa, n, flags, cache);
    leaf := Leaf(2, MapEntry(e, Chunk(pa, n), LeafFlags(flags, cache, true)));
  }

  lemma ChunksCons(h: Heap, g: Heap, r: Outcome<bool>, roots: set<Table>, top: Table, prefix: Path, pa: bv64, n: bv64, next: bv64, leaf: Leaf, now: Places)
    requires |prefix| == 2 && n < 512 && next == n + 1 && g.mem.gib1 == h.mem.gib1 && ChunkLeaf(leaf, pa, n)
    requires Updated(h.mem, g.mem, roots, top, prefix + [n], leaf)
    requires ChunksOk(g, r, roots, top, prefix, pa, next, now)
    ensures ChunksOk(h, r, roots, top, prefix, pa, n, now)
  {
    if r.Ret? { ChunksStep(h.mem, g.mem, r.heap.mem, roots, top, prefix, pa, n, next, leaf); }
  }

  ghost predicate ChunksDone(h: Heap, roots: set<Table>, top: Table, va: bv64, pa: bv64, flags: bv64, cache: Caching, n: bv64, now: Places)
    requires n <= 512
  {
    ChunksOk(h, MapChunks(h, top, va, pa, flags, cache, n), roots, top, Prefix(va, Huge), pa, n, now)
  }

  lemma NoChunks(h: Heap, roots: set<Table>, top: Table, va: bv64, pa: bv64, flags: bv64, cache: Caching, place: Places)
    requires Inv(h, place, roots)
    ensures ChunksDone(h, roots, top, va, pa, flags, cache, 512, place)
  {
    assert !Left(512, 0);
  }

  lemma MoreChunks(h: Heap, g: Heap, roots: set<Table>, top: Table, va: bv64, pa: bv64, flags: bv64, cache: Caching, n: bv64, leaf: Leaf, now: Places)
    requires n < 512 && MapOne(h, top, Chunk(va, n), Chunk(pa, n), flags, cache, Large) == Ret(g, true)
    requires g.mem.gib1 == h.mem.gib1 && ChunkLeaf(leaf, pa, n)
    requires Updated(h.mem, g.mem, roots, top, Prefix(va, Huge) + [n], leaf)
    requires ChunksDone(g, roots, top, va, pa, flags, cache, n + 1, now)
    ensures ChunksDone(h, roots, top, va, pa, flags, cache, n, now)
  {
    var q := MapChunks(g, top, va, pa, flags, cache, n + 1);
    ChunksCons(h, g, q, roots, top, Prefix(va, Huge), pa, n, n + 1, leaf, now);
    assert MapChunks(h, top, va, pa, flags, cache, n) == q;
  }

  lemma {:induction false} ChunksMapped(h: Heap, place: Places, roots: set<Table>, top: Table, va: bv64, pa: bv64, flags: bv64, cache: Caching, n: bv64)
    returns (now: Places)
    requires Inv(h, place, roots) && top in roots && !h.mem.gib1 && n <= 512
    requires GigAligned(va) && GigAligned(pa) && IsFrame(pa) && LPage(flags)
    ensures ChunksDone(h, roots, top, va, pa, flags, cache, n, now)
    decreases 512 - n
  {
    now := place;
    if n == 512 {
      NoChunks(h, roots, top, va, pa, flags, cache, place);
    } else {
      var leaf := OneChunk(h, place, roots, top, va, pa, flags, cache, n);
      var r := MapOne(h, top, Chunk(va, n), Chunk(pa, n), flags, cache, Large);
      if r.Ret? {
        now := PlacesOf(h, place, top, Prefix(va, Huge) + [n]);
        now := ChunksMapped(r.heap, now, roots, top, va, pa, flags, cache, n + 1);
        MoreChunks(h, r.heap, roots, top, va, pa, flags, cache, n, leaf, now);
      }
    }
  }

  // ---------------------------------------------------------------------------------------------
  // The whole gigabyte
  // ---------------------------------------------------------------------------------------------

  predicate SameGig(va: bv64, w: bv64) { va & 0xFFFF_FFFF_C000_0000 == w & 0xFFFF_FFFF_C000_0000 }

  /** Address `w`, seen from `r`, lies in the gigabyte at `va` of address space `top`. */
  predicate InGig(top: Table, va: bv64, r: Table, w: bv64) {
    Canonical(w) && SameGig(va, w) && (r == top || va >= 0xFFFF_8000_0000_0000)
  }

  lemma GigPrefix(top: Table, va: bv64, r: Table, w: bv64)
    requires Canonical(va) && Canonical(w)
    ensures Affects(top, Prefix(va, Huge), r, PathOf(w)) <==> InGig(top, va, r, w)
  {
    GigIndices(va, w);
    var p, q := PathOf(va), PathOf(w);
    assert Prefix(va, Huge) <= q <==> p[0] == q[0] && p[1] == q[1];
  }

  lemma GigIndices(va: bv64, w: bv64)
    requires Canonical(va) && Canonical(w)
    ensures Index4(va) == Index4(w) && Index3(va) == Index3(w) <==> SameGig(va, w)
    ensures Index4(w) >= 256 <==> w >= 0xFFFF_8000_0000_0000
  {
    UpperHalf(w);
    if SameGig(va, w) {
      SameGigIndices(va, w);
    } else if Index4(va) == Index4(w) && Index3(va) == Index3(w) {
      SameIndicesGig(va, w);
    }
  }

  lemma SameIndicesGig(va: bv64, w: bv64)
    requires Canonical(va) && Canonical(w) && Index4(va) == Index4(w) && Index3(va) == Index3(w)
    ensures SameGig(va, w)
  {
  }

  lemma SameGigIndices(va: bv64, w: bv64)
    requires SameGig(va, w)
    ensures Index4(va) == Index4(w) && Index3(va) == Index3(w)
  {
  }

  lemma UpperHalf(w: bv64)
    requires Canonical(w)
    ensures Index4(w) >= 256 <==> w >= 0xFFFF_8000_0000_0000
  {
  }

  /** All 512 chunks together translate like one 1 GiB leaf. */
  lemma ChunkTranslates(leaf: Leaf, pa: bv64, w: bv64)
    requires GigAligned(pa) && ChunkLeaf(leaf, pa, Index2(w))
    ensures Physical(leaf, w) == Some(pa | (w & 0x3FFF_FFFF))
  {
    ChunkOffset(pa, w);
    LargeAddress(leaf.entry, w);
  }

  lemma LargeAddress(e: bv64, w: bv64)
    ensures PhysicalAddress(2, e, w) == Join(FrameOf(e), w & 0x1F_FFFF)
  {
  }

  lemma ChunkBits(w: bv64)
    ensures Index2(w) << 21 == w & 0x3FE0_0000
  {
  }

  lemma ChunkOffset(pa: bv64, w: bv64)
    ensures Join(ChunkAt(pa, Index2(w)), w & 0x1F_FFFF) == pa | (w & 0x3FFF_FFFF)
  {
    ChunkBits(w);
    OffsetBits(pa, w);
  }

  lemma OffsetBits(pa: bv64, w: bv64)
    ensures Join(Join(pa, w & 0x3FE0_0000), w & 0x1F_FFFF) == pa | (w & 0x3FFF_FFFF)
  {
  }

  lemma GiantTranslates(e: bv64, pa: bv64, flags: bv64, cache: Caching, w: bv64)
    requires GigAligned(pa) && IsFrame(pa)
    ensures PhysicalAddress(3, MapEntry(e, pa, LeafFlags(flags, cache, true)), w) == pa | (w & 0x3FFF_FFFF)
  {
    LeafFlagsShape(flags, cache, true);
    MappedBits(e, pa, LeafFlags(flags, cache, true), 0x000F_FFFF_C000_0000);
    GigFrame(pa);
  }

  lemma GigFrame(pa: bv64)
    requires GigAligned(pa) && IsFrame(pa)
    ensures pa & 0x000F_FFFF_C000_0000 == pa
  {
  }

  /** The gigabyte at `va` goes to `pa`, in every address space that shares it, and nothing else changes. */
  ghost predicate GigMapped(m: Memory, n: Memory, roots: set<Table>, top: Table, va: bv64, pa: bv64) {
    forall r, w {:trigger Translate(n, r, w)} {:trigger HwWalk(n, r, PathOf(w))} :: r in roots ==>
      GigSeen(m, n, top, va, pa, r, w)
  }

  predicate GigSeen(m: Memory, n: Memory, top: Table, va: bv64, pa: bv64, r: Table, w: bv64) {
    if InGig(top, va, r, w) then Translate(n, r, w) == Some(pa | (w & 0x3FFF_FFFF))
    else Translate(n, r, w) == Translate(m, r, w) && (Canonical(w) ==> HwWalk(n, r, PathOf(w)) == HwWalk(m, r, PathOf(w)))
  }

  lemma GigByChunks(m: Memory, n: Memory, roots: set<Table>, top: Table, va: bv64, pa: bv64)
    requires Canonical(va) && GigAligned(pa) && ChunksFrom(m, n, roots, top, Prefix(va, Huge), pa, 0)
    ensures GigMapped(m, n, roots, top, va, pa)
  {
    forall r, w | r in roots ensures GigSeen(m, n, top, va, pa, r, w) {
      if Canonical(w) {
        IndexSmall(w);
        GigPrefix(top, va, r, w);
        ChunkIndexSmall(w);
        LeftIff(0, PathOf(w)[2]);
        if InGig(top, va, r, w) { ChunkTranslates(HwWalk(n, r, PathOf(w)), pa, w); }
      }
    }
  }

  lemma ChunkIndexSmall(w: bv64)
    ensures 0 <= PathOf(w)[2] < 512
  {
    assert Index2(w) < 512;
  }

  lemma GigByLeaf(m: Memory, n: Memory, roots: set<Table>, top: Table, va: bv64, pa: bv64, e: bv64, flags: bv64, cache: Caching)
    requires Canonical(va) && GigAligned(pa) && IsFrame(pa)
    requires Updated(m, n, roots, top, Prefix(va, Huge), Leaf(3, MapEntry(e, pa, LeafFlags(flags, cache, true))))
    ensures GigMapped(m, n, roots, top, va, pa)
  {
    forall r, w | r in roots ensures GigSeen(m, n, top, va, pa, r, w) {
      if Canonical(w) {
        IndexSmall(w);
        GigPrefix(top, va, r, w);
        GiantTranslates(e, pa, flags, cache, w);
      }
    }
  }

  /**
   A 1 GiB request gives the same translation whether or not the processor has 1 GiB pages, at every
   offset, and changes no address outside the gigabyte.
   */
  lemma HugeMapped(h: Heap, place: Places, roots: set<Table>, top: Table, va: bv64, pa: bv64, flags: bv64, cache: Caching)
    returns (now: Places)
    requires Inv(h, place, roots) && top in roots && LLPage(flags)
    requires Canonical(va) && GigAligned(va) && GigAligned(pa) && IsFrame(pa)
    ensures var r := MapPage(h, top, va, pa, flags, cache);
            r.Ret? ==>
              && r.value && Inv(r.heap, now, roots) && r.heap.mem.gib1 == h.mem.gib1
              && GigMapped(h.mem, r.heap.mem, roots, top, va, pa)
  {
    var r := MapPage(h, top, va, pa, flags, cache);
    if h.mem.gib1 {
      CleanWithoutGiant(h, place, roots, top, Prefix(va, Huge));
      GigSized(pa);
      var e := MapEffect(h, place, roots, top, va, pa, flags, cache, Huge);
      now := PlacesOf(h, place, top, Prefix(va, Huge));
      if r.Ret? { GigByLeaf(h.mem, r.heap.mem, roots, top, va, pa, e, flags, cache); }
    } else {
      FallbackIsLarge(flags);
      now := ChunksMapped(h, place, roots, top, va, pa, FallbackFlags(flags), cache, 0);
      if r.Ret? { GigByChunks(h.mem, r.heap.mem, roots, top, va, pa); }
    }
  }

  lemma FallbackIsLarge(flags: bv64)
    ensures LPage(FallbackFlags(flags)) && !LLPage(FallbackFlags(flags))
  {
  }
}
