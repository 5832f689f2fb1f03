/**
 The page-map operations as they run: tables written in place, allocated on the way and deleted.
 */
module Paging {
  import opened Options
  import opened PageEntry
  import opened PageTables
  import opened Pagemap
  import opened PagemapLife
  import opened HugePages
  import PagemapRun

  /** A call that runs out of memory halts the system; any other returns. */
  datatype Reply<T> = Halted | Done(value: T)

  /** A call did what its specification says. */
  ghost predicate Does<T(!new)>(o: Outcome<T>, g: Heap, r: Reply<T>) {
    if o.Panic? then r == Halted else r == Done(o.value) && g == o.heap
  }

  class PageMemory {
    var cells: map<Slot, bv64>
    var tables: set<Table>
    var pool: seq<Table>
    const gib1: bool
    /** The top level of the kernel page map, once there is one. */
    var kernel: Option<Table>

    function H(): Heap
      reads this
    {
      Heap(Memory(cells, gib1), tables, pool)
    }

    constructor (frames: seq<Table>, gib1: bool)
      ensures H() == Heap(Memory(map[], gib1), {}, frames) && kernel == None
    {
      this.cells, this.tables, this.pool, this.gib1, this.kernel := map[], {}, frames, gib1, None;
    }

    method Set(s: Slot, v: bv64)
      modifies this`cells
      ensures H() == old(H()).(mem := Poke(old(H()).mem, s, v))
    {
      cells := cells[s := v];
    }

    method NewTable() returns (r: Reply<Table>)
      modifies this`tables, this`pool
      ensures if old(pool) == [] then r == Halted else r == Done(old(pool)[0]) && H() == TakeTop(old(H()))
    {
      if pool == [] { return Halted; }
      r := Done(pool[0]);
      tables := tables + {pool[0]};
      pool := pool[1..];
    }

    method GetNextLevel(t: Table, i: bv64, allocate: bool) returns (r: Reply<Option<Table>>)
      modifies this`cells, this`tables, this`pool
      ensures Does(NextLevel(old(H()), t, i, allocate), H(), r)
    {
      var s := Slot(t, i);
      var e := Read(H().mem, s);
      if Present(e) { return Done(Some(Table(Address(e)))); }
      if !allocate { return Done(None); }
      var made := NewTable();
      if made.Halted? { return Halted; }
      Set(s, SetAddress(e, made.value.at));
      Set(s, SetFlags(SetAddress(e, made.value.at), 7));
      r := Done(Some(made.value));
    }

    method VirtualToEntry(top: Table, va: bv64, allocate: bool, size: PageSize) returns (r: Reply<Option<Slot>>)
      modifies this`cells, this`tables, this`pool
      ensures Does(WalkDown(old(H()), top, Prefix(va, size), allocate), H(), r)
    {
      ghost var path := Prefix(va, size);
      var next := GetNextLevel(top, Index4(va), allocate);
      Descend(old(H()), top, path, allocate, H(), next);
      if next.Halted? { return Halted; }
      if next.value == None { return Done(None); }
      if size.Huge? { return Done(Some(Slot(next.value.value, Index3(va)))); }
      ghost var h, t := H(), next.value.value;
      next := GetNextLevel(next.value.value, Index3(va), allocate);
      Descend(h, t, path[1..], allocate, H(), next);
      if next.Halted? { return Halted; }
      if next.value == None { return Done(None); }
      if size.Large? { return Done(Some(Slot(next.value.value, Index2(va)))); }
      h, t := H(), next.value.value;
      next := GetNextLevel(next.value.value, Index2(va), allocate);
      Descend(h, t, path[1..][1..], allocate, H(), next);
      if next.Halted? { return Halted; }
      if next.value == None { return Done(None); }
      r := Done(Some(Slot(next.value.value, Index1(va))));
    }

    method MapOne(top: Table, va: bv64, pa: bv64, flags: bv64, cache: Caching, size: PageSize) returns (r: Reply<bool>)
      modifies this`cells, this`tables, this`pool
      ensures Does(Pagemap.MapOne(old(H()), top, va, pa, flags, cache, size), H(), r)
    {
      var entry := VirtualToEntry(top, va, true, size);
      if entry.Halted? { return Halted; }
      if entry.value == None { return Done(false); }
      var s := entry.value.value;
      var bits := LeafFlags(flags, cache, !size.Small?);
      ghost var g := H();
      var e := Read(H().mem, s);
      Set(s, SetAddress(e, pa));
      Set(s, SetFlags(SetAddress(e, pa), bits));
      PokeTwice(g.mem, s, SetAddress(e, pa), MapEntry(e, pa, bits));
      r := Done(true);
    }

    /** The gigabyte, chunk by chunk. */
    method MapFallback(top: Table, va: bv64, pa: bv64, flags: bv64, cache: Caching) returns (r: Reply<bool>)
      modifies this`cells, this`tables, this`pool
      ensures Does(MapChunks(old(H()), top, va, pa, flags, cache, 0), H(), r)
    {
      ghost var n: bv64 := 0;
      var i: bv64 := 0;
      while i < 0x4000_0000
        invariant n <= 512 && i == Offset(n)
        invariant MapChunks(H(), top, va, pa, flags, cache, n) == MapChunks(old(H()), top, va, pa, flags, cache, 0)
        decreases 512 - n
      {
        ChunkCounter(n);
        ghost var h := H();
        r := MapOne(top, Plus(va, i), Plus(pa, i), flags, cache, Large);
        ChunkDone(h, H(), top, va, pa, flags, cache, n, r);
        if r.Halted? || !r.value { return; }
        n := n + 1;
        i := i + 0x20_0000;
      }
      ChunkCounter(n);
      r := Done(true);
    }

    method Map(top: Table, va: bv64, pa: bv64, flags: bv64, cache: Caching) returns (r: Reply<bool>)
      modifies this`cells, this`tables, this`pool
      ensures Does(MapPage(old(H()), top, va, pa, flags, cache), H(), r)
    {
      if SizeOf(flags) == Huge && !gib1 {
        r := MapFallback(top, va, pa, FallbackFlags(flags), cache);
      } else {
        r := MapOne(top, va, pa, flags, cache, SizeOf(flags));
      }
    }

    method UnmapOne(top: Table, va: bv64) returns (ok: bool)
      modifies this`cells, this`tables, this`pool
      ensures Pagemap.UnmapOne(old(H()), top, va) == Ret(H(), ok)
    {
      StaysPut(H(), top, PathOf(va));
      var entry := VirtualToEntry(top, va, false, Small);
      if entry.value == None { return false; }
      Set(entry.value.value, 0);
      ok := true;
    }

    method Unmap(top: Table, va: bv64, flags: bv64) returns (ok: bool)
      modifies this`cells, this`tables, this`pool
      ensures UnmapPage(old(H()), top, va, flags) == Ret(H(), ok)
    {
      if SizeOf(flags) == Huge && !gib1 {
        ghost var n: bv64 := 0;
        var i: bv64 := 0;
        while i < 0x4000_0000
          invariant n <= 512 && i == Offset(n)
          invariant UnmapChunks(H(), top, va, n) == UnmapChunks(old(H()), top, va, 0)
          decreases 512 - n
        {
          ChunkCounter(n);
          ghost var before := H();
          ok := UnmapOne(top, Plus(va, i));
          if !ok { return; }
          assert UnmapChunks(before, top, va, n) == UnmapChunks(H(), top, va, n + 1);
          n := n + 1;
          i := i + 0x20_0000;
        }
        ChunkCounter(n);
        return true;
      }
      ok := UnmapOne(top, va);
    }

    /** The page-map constructor: the upper half gets tables, or those of the kernel. */
    method NewPagemap() returns (r: Reply<Table>)
      modifies this`cells, this`tables, this`pool
      ensures Does(PagemapLife.NewPagemap(old(H()), kernel), H(), r)
    {
      r := NewTable();
      if r.Halted? { return; }
      var top := r.value;
      ghost var h := H();
      var i: bv64 := 256;
      if kernel == None {
        while i < 512
          invariant 256 <= i <= 512 && GrowUpper(H(), top, i) == GrowUpper(h, top, 256)
          decreases 512 - i
        {
          ghost var g := H();
          var next := GetNextLevel(top, i, true);
          GrownEntry(g, H(), top, i, next);
          if next.Halted? { return Halted; }
          i := i + 1;
        }
      } else {
        while i < 512
          invariant 256 <= i <= 512 && H() == h.(mem := H().mem)
          invariant CopyUpper(H().mem, kernel.value, top, i) == CopyUpper(h.mem, kernel.value, top, 256)
          decreases 512 - i
        {
          Set(Slot(top, i), Read(H().mem, Slot(kernel.value, i)));
          i := i + 1;
        }
      }
    }

    method SetPageFlags(top: Table, va: bv64, flags: bv64, cache: Caching) returns (r: Reply<bool>)
      modifies this`cells, this`tables, this`pool
      ensures Does(FlagOne(old(H()), top, va, flags, cache), H(), r)
    {
      var size := SizeOf(flags);
      var entry := VirtualToEntry(top, va, true, size);
      if entry.Halted? { return Halted; }
      if entry.value == None { return Done(false); }
      var s := entry.value.value;
      var bits := LeafFlags(flags, cache, !size.Small?);
      ghost var g := H();
      var address := Address(Read(H().mem, s));
      Set(s, 0);
      Set(s, SetAddress(0, address));
      Set(s, SetFlags(SetAddress(0, address), bits));
      PokeTwice(g.mem, s, 0, SetAddress(0, address));
      PokeTwice(g.mem, s, SetAddress(0, address), SetFlags(SetAddress(0, address), bits));
      r := Done(true);
    }

    method VirtualToPhysical(top: Table, va: bv64, flags: bv64) returns (pa: bv64)
      modifies this`cells, this`tables, this`pool
      ensures H() == old(H()) && pa == VirtToPhys(H(), top, va, flags)
    {
      var size := SizeOf(flags);
      StaysPut(H(), top, Prefix(va, size));
      var entry := VirtualToEntry(top, va, false, size);
      if entry.value == None { return INVALID; }
      var e := Read(H().mem, entry.value.value);
      if !Present(e) { return INVALID; }
      pa := SoftAddress(Address(e), va, size);
    }

    method Remap(top: Table, va: bv64, new_va: bv64, flags: bv64, cache: Caching) returns (r: Reply<bool>)
      requires SizeOf(flags).Small?
      modifies this`cells, this`tables, this`pool
      ensures Does(PagemapRun.RemapOne(old(H()), top, va, new_va, flags, cache), H(), r)
    {
      var pa := VirtualToPhysical(top, va, flags);
      var _ := Unmap(top, va, flags);
      r := Map(top, new_va, pa, flags, cache);
    }
  }

  function UnmapChunks(h: Heap, top: Table, va: bv64, n: bv64): Outcome<bool>
    requires n <= 512
    decreases 512 - n
  {
    if n == 512 then Ret(h, true)
    else
      match Pagemap.UnmapOne(h, top, Chunk(va, n))
      case Panic => Panic
      case Ret(g, ok) => if ok then UnmapChunks(g, top, va, n + 1) else Ret(g, false)
  }

  function UnmapPage(h: Heap, top: Table, va: bv64, flags: bv64): Outcome<bool> {
    if SizeOf(flags).Huge? && !h.mem.gib1 then UnmapChunks(h, top, va, 0) else Pagemap.UnmapOne(h, top, va)
  }

  lemma Descend(h: Heap, t: Table, path: Path, allocate: bool, g: Heap, r: Reply<Option<Table>>)
    requires |path| > 1 && Does(NextLevel(h, t, path[0], allocate), g, r)
    ensures WalkDown(h, t, path, allocate) ==
            if r.Halted? then Panic
            else if r.value == None then Ret(g, None)
            else WalkDown(g, r.value.value, path[1..], allocate)
  {
  }

  lemma ChunkDone(h: Heap, g: Heap, top: Table, va: bv64, pa: bv64, flags: bv64, cache: Caching, n: bv64, r: Reply<bool>)
    requires n < 512 && Does(Pagemap.MapOne(h, top, Chunk(va, n), Chunk(pa, n), flags, cache, Large), g, r)
    ensures MapChunks(h, top, va, pa, flags, cache, n) ==
            if r.Halted? then Panic else if r.value then MapChunks(g, top, va, pa, flags, cache, n + 1) else Ret(g, false)
  {
  }

  lemma GrownEntry(h: Heap, g: Heap, top: Table, i: bv64, r: Reply<Option<Table>>)
    requires i < 512 && Does(NextLevel(h, top, i, true), g, r)
    ensures GrowUpper(h, top, i) == if r.Halted? then Panic else GrowUpper(g, top, i + 1)
  {
  }

  lemma PokeTwice(m: Memory, s: Slot, v: bv64, w: bv64)
    ensures Poke(Poke(m, s, v), s, w) == Poke(m, s, w)
  {
  }

  lemma ChunkCounter(n: bv64)
    requires n <= 512
    ensures Offset(n) < 0x4000_0000 <==> n < 512
    ensures n < 512 ==> n + 1 <= 512 && Offset(n + 1) == Offset(n) + 0x20_0000
  {
  }

  /** A walk that does not allocate changes nothing and cannot fail for memory. */
  lemma {:induction false} StaysPut(h: Heap, t: Table, path: Path)
    requires path != []
    ensures WalkDown(h, t, path, false).Ret? && WalkDown(h, t, path, false).heap == h
    decreases |path|
  {
    var e := Read(h.mem, Slot(t, path[0]));
    if |path| > 1 && Present(e) { StaysPut(h, Table(Address(e)), path[1..]); }
  }
}
