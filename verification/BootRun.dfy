/**
 Runs of page-map operations after the boot: what the boot mapped in the upper half stays.
 */
module BootRun {
  import opened PageEntry
  import opened PageTables
  import opened AddressSpaces
  import opened PagemapRun
  import Boot

  /** The operation names the page of `w`. */
  predicate Names(op: Op, w: bv64) {
    match op
    case Map(_, va, _, _, _) => PathOf(va) == PathOf(w)
    case Unmap(_, va) => PathOf(va) == PathOf(w)
    case Flag(_, va, _, _) => PathOf(va) == PathOf(w)
    case Remap(_, va, new_va, _, _) => PathOf(va) == PathOf(w) || PathOf(new_va) == PathOf(w)
    case _ => false
  }

  lemma StepKeepsKernel(a: Spaces, op: Op, w: bv64)
    requires (!op.New? && !op.Supply? ==> op.top in a.user) && !Names(op, w)
    ensures Simple(a, op).kernel(PathOf(w)) == a.kernel(PathOf(w))
  {
  }

  lemma {:induction false} RunKeepsKernel(h: Heap, k: Table, a: Spaces, ops: seq<Op>, w: bv64)
    requires Legal(h, k, a, ops) && forall i :: 0 <= i < |ops| ==> !Names(ops[i], w)
    ensures SimpleAll(h, k, a, ops).kernel(PathOf(w)) == a.kernel(PathOf(w))
    decreases |ops|
  {
    if ops != [] && PagemapRun.Exec(h, k, ops[0]).Ret? {
      StepKeepsKernel(a, ops[0], w);
      forall i | 0 <= i < |ops| - 1 ensures !Names(ops[1..][i], w) { assert ops[1..][i] == ops[i + 1]; }
      RunKeepsKernel(PagemapRun.Exec(h, k, ops[0]).heap, k, Simple(a, ops[0]), ops[1..], w);
    }
  }

  /**
   After the boot and any legal run of operations that do not name its page, an address of the upper half goes
   where the boot sent it, in every address space there is by then.
   */
  lemma BootMappingStays(h: Heap, place: Places, k: Table, b: Boot.Info, ops: seq<Op>, r: Table, w: bv64)
    requires Inv(h, place, {k}) && Translate(h.mem, k, w) == Boot.Wanted(b, w) && w >= 0xFFFF_8000_0000_0000
    requires var a := Reading(h.mem, k);
             Legal(h, k, a, ops) && ExecAll(h, k, ops).Ret? && r in SimpleAll(h, k, a, ops).user
    requires forall i :: 0 <= i < |ops| ==> !Names(ops[i], w)
    ensures Translate(ExecAll(h, k, ops).heap.mem, r, w) == Boot.Wanted(b, w)
  {
    var a := Reading(h.mem, k);
    ReadingRefines(h, place, k);
    var now := RunRefines(h, place, k, a, ops);
    RunKeepsKernel(h, k, a, ops, w);
    UpperIndex(w);
    var g, end := ExecAll(h, k, ops).heap, SimpleAll(h, k, a, ops);
    assert HwWalk(g.mem, r, PathOf(w)) == Look(end, r, PathOf(w));
  }
}
