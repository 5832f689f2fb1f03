/**
 The range operations: page by page, they are runs of the single-page operations.
 */
module PagingRanges {
  import opened PageEntry
  import opened PageTables
  import opened Pagemap
  import opened HugePages
  import opened PagemapRun
  import opened Paging

  /** The largest size whose loop ends: beyond it the counter wraps below the size again. */
  const MAX_RANGE: bv64 := 0xFFFF_FFFF_FFFF_F000

  function Next(i: bv64): bv64 { i + 0x1000 }

  lemma OffsetGrows(i: bv64, size: bv64)
    requires i < size <= MAX_RANGE
    ensures 0xFFFF_FFFF_FFFF_FFFF - Next(i) < 0xFFFF_FFFF_FFFF_FFFF - i
  {
  }

  /** The offsets of the pages of a range of `size` bytes, from offset `i` on. */
  function Offsets(size: bv64, i: bv64): seq<bv64>
    requires size <= MAX_RANGE
    decreases 0xFFFF_FFFF_FFFF_FFFF - i
  {
    if i < size then
      OffsetGrows(i, size);
      [i] + Offsets(size, Next(i))
    else []
  }

  /** The pages at some offsets behind `va` are unmapped in turn. */
  function UnmapOps(top: Table, va: bv64, offs: seq<bv64>): seq<Op> {
    if offs == [] then [] else [Unmap(top, Plus(va, offs[0]))] + UnmapOps(top, va, offs[1..])
  }

  /** The pages at some offsets behind `va` are moved in turn, each to the same offset behind `new_va`. */
  function RemapOps(top: Table, va: bv64, new_va: bv64, flags: bv64, cache: Caching, offs: seq<bv64>): seq<Op> {
    if offs == [] then []
    else [Remap(top, Plus(va, offs[0]), Plus(new_va, offs[0]), flags, cache)] + RemapOps(top, va, new_va, flags, cache, offs[1..])
  }

  lemma OffsetsFirst(size: bv64, i: bv64)
    requires i < size <= MAX_RANGE
    ensures Offsets(size, i) == [i] + Offsets(size, Next(i)) && Offsets(size, i)[1..] == Offsets(size, Next(i))
  {
    OffsetGrows(i, size);
  }

  lemma ExecFirst(h: Heap, k: Table, op: Op, rest: seq<Op>)
    ensures ExecAll(h, k, [op] + rest) == if PagemapRun.Exec(h, k, op).Panic? then Panic else ExecAll(PagemapRun.Exec(h, k, op).heap, k, rest)
  {
    assert ([op] + rest)[1..] == rest;
  }

  /** `unmap_range` in 4 KiB pages. */
  method UnmapRange(p: PageMemory, top: Table, va: bv64, size: bv64, flags: bv64, ghost k: Table)
    requires SizeOf(flags).Small? && size <= MAX_RANGE
    modifies p`cells, p`tables, p`pool
    ensures ExecAll(old(p.H()), k, UnmapOps(top, va, Offsets(size, 0))) == Ret(p.H(), ())
  {
    var i: bv64 := 0;
    while i < size
      invariant ExecAll(p.H(), k, UnmapOps(top, va, Offsets(size, i))) == ExecAll(old(p.H()), k, UnmapOps(top, va, Offsets(size, 0)))
      decreases 0xFFFF_FFFF_FFFF_FFFF - i
    {
      OffsetGrows(i, size);
      OffsetsFirst(size, i);
      ExecFirst(p.H(), k, Unmap(top, Plus(va, i)), UnmapOps(top, va, Offsets(size, Next(i))));
      var _ := p.Unmap(top, Plus(va, i), flags);
      i := Next(i);
    }
  }

  /** One turn of `remap_range`: what is left of the run is what the rest of the run does. */
  method RemapPage(p: PageMemory, top: Table, from: bv64, to: bv64, flags: bv64, cache: Caching, ghost k: Table, ghost rest: seq<Op>)
    returns (halted: bool)
    requires SizeOf(flags).Small?
    modifies p`cells, p`tables, p`pool
    ensures ExecAll(old(p.H()), k, [Remap(top, from, to, flags, cache)] + rest) == if halted then Panic else ExecAll(p.H(), k, rest)
  {
    ExecFirst(p.H(), k, Remap(top, from, to, flags, cache), rest);
    var moved := p.Remap(top, from, to, flags, cache);
    halted := moved.Halted?;
  }

  /** `remap_range` in 4 KiB pages; it may run out of memory for tables on the way. */
  method RemapRange(p: PageMemory, top: Table, va: bv64, new_va: bv64, size: bv64, flags: bv64, cache: Caching, ghost k: Table)
    returns (r: Reply<()>)
    requires SizeOf(flags).Small? && size <= MAX_RANGE
    modifies p`cells, p`tables, p`pool
    ensures Does(ExecAll(old(p.H()), k, RemapOps(top, va, new_va, flags, cache, Offsets(size, 0))), p.H(), r)
  {
    var i: bv64 := 0;
    while i < size
      invariant ExecAll(p.H(), k, RemapOps(top, va, new_va, flags, cache, Offsets(size, i))) ==
                ExecAll(old(p.H()), k, RemapOps(top, va, new_va, flags, cache, Offsets(size, 0)))
      decreases 0xFFFF_FFFF_FFFF_FFFF - i
    {
      OffsetGrows(i, size);
      OffsetsFirst(size, i);
      var halted := RemapPage(p, top, Plus(va, i), Plus(new_va, i), flags, cache, k,
                              RemapOps(top, va, new_va, flags, cache, Offsets(size, Next(i))));
      if halted { return Halted; }
      i := Next(i);
    }
    r := Done(());
  }
}
