/**
 The physical allocator from boot through any run of calls: the class follows the state machine of
 `PhysicalSpec`, every live run lies in usable memory, and every live run can be given back.
 */
module PhysicalRuns {
  import opened PackedBits
  import opened PhysicalSpec
  import opened MemMap
  import opened Physical

  /** The object is in the state `s`; its counter is in bytes. */
  ghost predicate Represents(memory: PhysicalMemory, s: State)
    reads memory, memory.bitmap, memory.bitmap.buffer
  {
    memory.Valid() && memory.Bits() == s.bits && memory.lastIndex == s.hint && memory.usedMemory == 0x1000 * s.used
  }

  /** Fewer used pages are no fewer free ones. */
  lemma {:induction false} ClearMonotone(a: Pages, b: Pages)
    requires |a| == |b| && forall i :: 0 <= i < |a| ==> a[i] ==> b[i]
    ensures Clear(b) <= Clear(a)
  {
    if a != [] { ClearMonotone(a[..|a| - 1], b[..|b| - 1]); }
  }

  /** Every page of a live run lies in usable memory, and no page is in two runs. */
  lemma LiveRunsAreUsable(entries: seq<MemEntry>, states: seq<State>, calls: seq<Call>, base: Pages, used: int, n: nat)
    requires Released(entries, base) && Run(states, calls, base, used) && n < |states|
    ensures var live := states[n].live;
            && (forall p, i :: p in live && 0 <= i && Within(p, live[p], i) ==> i < |base| && InUsable(entries, i))
            && (forall p, q, i :: p in live && q in live && Within(p, live[p], i) && Within(q, live[q], i) ==> p == q)
  {
    RunKeepsInv(states, calls, base, used, n);
  }

  /** `free()` is the page size times the number of clear bits. */
  lemma FreeBytes(entries: seq<MemEntry>, states: seq<State>, calls: seq<Call>, base: Pages, used: int, n: nat)
    requires Released(entries, base) && Run(states, calls, base, used) && n < |states|
    ensures SumUsable(entries) + 0x1000 * used - 0x1000 * states[n].used == 0x1000 * Clear(states[n].bits)
  {
    RunConserves(states, calls, base, used, n);
  }

  lemma LiveRunIsUsed(s: State, base: Pages, page: nat)
    requires Inv(s, base) && page in s.live
    ensures RunUsed(s.bits, page, s.live[page])
  {
    forall i | page <= i < page + s.live[page] ensures s.bits[i] {
      assert Within(page, s.live[page], i);
    }
  }

  /** Every live run meets what `free` asks for: it lies behind page 0, below the limit, in use, and is counted. */
  lemma LiveRunCanBeFreed(states: seq<State>, calls: seq<Call>, base: Pages, used: int, n: nat, page: nat)
    requires Run(states, calls, base, used) && n < |states| && (|base| > 0 ==> base[0]) && used >= 0
    requires page in states[n].live
    ensures var s, count := states[n], states[n].live[page];
            && Allowed(s, PhysicalSpec.Free(page)) && 0 < page && page + count <= |s.bits|
            && RunUsed(s.bits, page, count) && count <= s.used
  {
    var s := states[n];
    RunKeepsInv(states, calls, base, used, n);
    RunConserves(states, calls, base, used, n);
    LiveRunIsUsed(s, base, page);
    NotPageZero(s, base, page);
    var t := Next(s, PhysicalSpec.Free(page));
    FreeKeepsInv(s, base, page, t);
    FreeConserves(s, base, page);
    ClearMonotone(base, t.bits);
  }

  lemma NotPageZero(s: State, base: Pages, page: nat)
    requires Inv(s, base) && page in s.live && (|base| > 0 ==> base[0])
    ensures page > 0
  {
    assert Within(page, s.live[page], page);
  }

  /** What `init` leaves is the first state of every run. */
  method Start(memory: PhysicalMemory, memmap: array<MemEntry>) returns (ghost s: State)
    requires memory.usableMemory == 0 && memory.totalMemory == 0 && memory.memUsableTop == 0
    requires memory.usedMemory == 0 && memory.lastIndex == 0
    requires memory.bitmap.narrowing == memory.narrowing && memory.bitmap.buffer.Length == 0
    requires Aligned(memmap[..]) && Disjoint(memmap[..]) && !InUsable(memmap[..], 0) && Bootable(memmap[..])
    requires Coherent(Top(memmap[..]) / 0x1000, memory.narrowing)
    modifies memory, memmap, memory.bitmap.buffer
    ensures Represents(memory, s) && s == State(s.bits, 0, s.used, map[]) && s.used >= 0
    ensures Released(memmap[..], s.bits) && Run([s], [], s.bits, s.used)
    ensures memory.usableMemory == SumUsable(memmap[..]) + 0x1000 * s.used
  {
    ghost var entries := memmap[..];
    memory.Init(memmap);
    BitmapSizeAligned(entries);
    s := State(memory.Bits(), 0, memory.usedMemory / 0x1000, map[]);
  }

  lemma Longer(states: seq<State>, calls: seq<Call>, call: Call, base: Pages, used: int)
    requires Run(states, calls, base, used) && Allowed(states[|calls|], call)
    ensures Run(states + [Next(states[|calls|], call)], calls + [call], base, used)
  {
  }

  /** From the end of any run, an allocation leaves the object at the end of the longer run. */
  method PerformAlloc(memory: PhysicalMemory, count: nat, ghost states: seq<State>, ghost calls: seq<Call>, ghost base: Pages, ghost used: int)
    returns (r: Outcome)
    requires Run(states, calls, base, used) && Represents(memory, states[|calls|])
    requires Allowed(states[|calls|], PhysicalSpec.Alloc(count))
    modifies memory`lastIndex, memory`usedMemory, memory.bitmap.buffer
    ensures var now := Next(states[|calls|], PhysicalSpec.Alloc(count));
            && Represents(memory, now) && Run(states + [now], calls + [PhysicalSpec.Alloc(count)], base, used)
            && now.hint >= count && r == At((now.hint - count) * 0x1000)
  {
    r := memory.Alloc(count);
    Longer(states, calls, PhysicalSpec.Alloc(count), base, used);
  }

  lemma PageOf(page: nat)
    ensures page * 0x1000 / 0x1000 == page
  {
  }

  /** From the end of any run, giving a live run back leaves the object at the end of the longer run. */
  method PerformFree(memory: PhysicalMemory, page: nat, count: nat, ghost states: seq<State>, ghost calls: seq<Call>, ghost base: Pages, ghost used: int)
    requires Run(states, calls, base, used) && (|base| > 0 ==> base[0]) && used >= 0
    requires Represents(memory, states[|calls|]) && Allowed(states[|calls|], PhysicalSpec.Free(page)) && count == states[|calls|].live[page]
    modifies memory`lastIndex, memory`usedMemory, memory.bitmap.buffer
    ensures var now := Next(states[|calls|], PhysicalSpec.Free(page));
            Represents(memory, now) && Run(states + [now], calls + [PhysicalSpec.Free(page)], base, used)
  {
    LiveRunCanBeFreed(states, calls, base, used, |calls|, page);
    PageOf(page);
    memory.Free(page * 0x1000, count);
    Longer(states, calls, PhysicalSpec.Free(page), base, used);
  }
}
