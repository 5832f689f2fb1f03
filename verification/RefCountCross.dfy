/**
 The assignment of a weak pointer from one of another element type: it takes the control block
 without counting itself.
 */
module RefCountCross {
  import opened Options
  import opened RefCount
  import opened RefCountSafety

  /** weak_ptr<T>::operator=(const weak_ptr<U>&) once it has released what the target held before. */
  function CrossAssign(s: State, o: Oid, dst: Pid, src: Pid): State
    requires src in s.weak
  {
    PutWeak(WithoutOp(s, o), dst, s.weak[src])
  }

  /** Whatever the target held before, the accounts are kept exactly when the source is empty. */
  lemma CrossAssignBalancesIffEmpty(s: State, o: Oid, dst: Pid, src: Pid)
    requires Inv(s) && o in s.ops && s.ops[o] == Finishing(ResetWeak(dst)) && src in s.weak
    ensures Inv(CrossAssign(s, o, dst, src)) <==> s.weak[src].None?
  {
    if s.weak[src].None? {
      assert CrossAssign(s, o, dst, src) == ApplyRelease(s, Finish(o));
      InvAfterRelease(s, Finish(o));
    } else {
      var c := s.weak[src].value;
      TargetAway(s, o, dst);
      InvWithoutOp(s, o);
      OneTooMany(WithoutOp(s, o), dst, c);
    }
  }

  /** A weak pointer that was not counted leaves the block one short. */
  lemma OneTooMany(u: State, dst: Pid, c: Cid)
    requires c in u.blocks && BlockOk(u, c) && dst !in u.weak
    ensures !BlockOk(PutWeak(u, dst, Some(c)), c)
  {
    LedgerPutWeak(u, dst, Some(c), c);
  }

  // ---------------------------------------------------------------------------------------------
  // Runs of destructors
  // ---------------------------------------------------------------------------------------------

  /** Steps of destructors lead from `s` to `t`. */
  predicate Leads(s: State, steps: seq<ReleaseStep>, t: State)
    decreases |steps|
  {
    if steps == [] then s == t else CanRelease(s, steps[0]) && Leads(ApplyRelease(s, steps[0]), steps[1..], t)
  }

  lemma LeadsHead(s: State, steps: seq<ReleaseStep>, t: State)
    requires Leads(s, steps, t) && steps != []
    ensures CanRelease(s, steps[0]) && Leads(ApplyRelease(s, steps[0]), steps[1..], t)
  {
  }

  lemma LeadsCons(s: State, step: ReleaseStep, next: State, rest: seq<ReleaseStep>, t: State)
    requires CanRelease(s, step) && next == ApplyRelease(s, step) && Leads(next, rest, t)
    ensures Leads(s, [step] + rest, t)
  {
    assert ([step] + rest)[1..] == rest;
  }

  lemma {:induction false} LeadsOn(s: State, first: seq<ReleaseStep>, t: State, second: seq<ReleaseStep>, u: State)
    requires Leads(s, first, t) && Leads(t, second, u)
    ensures Leads(s, first + second, u)
    decreases |first|
  {
    if first == [] {
      assert first + second == second;
    } else {
      LeadsHead(s, first, t);
      var next := ApplyRelease(s, first[0]);
      LeadsOn(next, first[1..], t, second, u);
      LeadsCons(s, first[0], next, first[1..] + second, u);
      assert [first[0]] + (first[1..] + second) == first + second;
    }
  }

  /** A destructor, of a pointer other than the weak pointer `d`. */
  predicate Spares(step: ReleaseStep, d: Pid) {
    match step
    case DropShared(_, _, after) => after.Done?
    case DropWeak(_, p, after) => p != d && after.Done?
    case _ => true
  }

  predicate AllSpare(steps: seq<ReleaseStep>, d: Pid) { forall k :: 0 <= k < |steps| ==> Spares(steps[k], d) }

  /** All operations in flight are destructors. */
  predicate Destroying(op: Op) { !Constructing(op) && op.after.Done? }

  predicate OnlyDestructors(s: State) { forall o :: o in s.ops ==> Destroying(s.ops[o]) }

  /** A weak pointer more makes no difference to a destructor of another one. */
  lemma DropSparesOther(u: State, step: ReleaseStep, d: Pid, v: Option<Cid>)
    requires OnlyDestructors(u) && Spares(step, d) && CanRelease(u, step) && (step.DropShared? || step.DropWeak?)
    ensures CanRelease(PutWeak(u, d, v), step) && ApplyRelease(PutWeak(u, d, v), step) == PutWeak(ApplyRelease(u, step), d, v)
    ensures OnlyDestructors(ApplyRelease(u, step))
  {
    if step.DropWeak? {
      assert (u.weak - {step.p})[d := v] == u.weak[d := v] - {step.p};
    }
  }

  lemma PhaseSparesOther(u: State, step: ReleaseStep, d: Pid, v: Option<Cid>)
    requires OnlyDestructors(u) && CanRelease(u, step) && !step.DropShared? && !step.DropWeak?
    ensures CanRelease(PutWeak(u, d, v), step) && ApplyRelease(PutWeak(u, d, v), step) == PutWeak(ApplyRelease(u, step), d, v)
    ensures OnlyDestructors(ApplyRelease(u, step))
  {
    assert Destroying(u.ops[step.o]);
  }

  lemma {:induction false} RunSparesOther(u: State, steps: seq<ReleaseStep>, end: State, d: Pid, v: Option<Cid>)
    requires OnlyDestructors(u) && AllSpare(steps, d) && Leads(u, steps, end)
    ensures Leads(PutWeak(u, d, v), steps, PutWeak(end, d, v))
    decreases |steps|
  {
    if steps != [] {
      var step := steps[0];
      LeadsHead(u, steps, end);
      if step.DropShared? || step.DropWeak? {
        DropSparesOther(u, step, d, v);
      } else {
        PhaseSparesOther(u, step, d, v);
      }
      RunSparesOther(ApplyRelease(u, step), steps[1..], end, d, v);
      LeadsCons(PutWeak(u, d, v), step, PutWeak(ApplyRelease(u, step), d, v), steps[1..], PutWeak(end, d, v));
      assert [step] + steps[1..] == steps;
    }
  }

  // ---------------------------------------------------------------------------------------------
  // Letting go of a block
  // ---------------------------------------------------------------------------------------------

  function Left(op: Op): nat {
    match op
    case CallDeleter(_, _) => 4
    case InDeleter(_, _) => 3
    case ReleaseWeak(_, _) => 2
    case FreeCtrl(_, _) => 1
    case _ => 0
  }

  function Phase(op: Op): ReleaseStep {
    match op
    case CallDeleter(_, _) => DeleterStarts(0)
    case InDeleter(_, _) => DeleterEnds(0)
    case ReleaseWeak(_, _) => SubWeakCount(0)
    case FreeCtrl(_, _) => FreeBlock(0)
    case _ => Finish(0)
  }

  /** The next step of the only operation in flight. */
  lemma PhaseStep(u: State, op: Op)
    requires u.ops == map[0 := op] && Destroying(op) && (!op.Finishing? ==> op.c in u.blocks)
    ensures CanRelease(u, Phase(op)) && Spares(Phase(op), 0)
    ensures var next := ApplyRelease(u, Phase(op));
            && next.shared == u.shared && next.weak == u.weak && next.blocks.Keys == u.blocks.Keys
            && if op.Finishing? then next.ops == map[]
               else 0 in next.ops && next.ops == map[0 := next.ops[0]] && Destroying(next.ops[0]) && Left(next.ops[0]) < Left(op)
  {
    if op.Finishing? { assert u.ops - {0} == map[]; }
  }

  lemma OpHasBlock(u: State, op: Op)
    requires Inv(u) && u.ops == map[0 := op]
    ensures !op.Finishing? ==> op.c in u.blocks
  {
    assert OpOk(u, u.ops[0]);
  }

  /** The next step in a state that keeps its accounts. */
  lemma DrainStep(u: State, op: Op) returns (step: ReleaseStep, next: State)
    requires Inv(u) && u.ops == map[0 := op] && Destroying(op)
    ensures step == Phase(op) && CanRelease(u, step) && next == ApplyRelease(u, step) && Inv(next)
    ensures next.shared == u.shared && next.weak == u.weak && next.blocks.Keys == u.blocks.Keys
    ensures if op.Finishing? then next.ops == map[]
            else 0 in next.ops && next.ops == map[0 := next.ops[0]] && Destroying(next.ops[0]) && Left(next.ops[0]) < Left(op)
  {
    OpHasBlock(u, op);
    PhaseStep(u, op);
    step := Phase(op);
    InvAfterRelease(u, step);
    next := ApplyRelease(u, step);
  }

  lemma ConsSpares(step: ReleaseStep, rest: seq<ReleaseStep>, d: Pid)
    requires Spares(step, d) && AllSpare(rest, d)
    ensures AllSpare([step] + rest, d)
  {
  }

  lemma JoinSpares(first: seq<ReleaseStep>, second: seq<ReleaseStep>, d: Pid)
    requires AllSpare(first, d) && AllSpare(second, d)
    ensures AllSpare(first + second, d)
  {
  }

  /** The destructor in flight can be carried to its end. */
  lemma {:induction false} Drain(u: State, op: Op, d: Pid) returns (steps: seq<ReleaseStep>, end: State)
    requires Inv(u) && u.ops == map[0 := op] && Destroying(op)
    ensures Leads(u, steps, end) && AllSpare(steps, d)
    ensures Inv(end) && end.ops == map[] && end.shared == u.shared && end.weak == u.weak && end.blocks.Keys == u.blocks.Keys
    decreases Left(op)
  {
    var step, next := DrainStep(u, op);
    var rest := [];
    if op.Finishing? {
      end := next;
    } else {
      rest, end := Drain(next, next.ops[0], d);
    }
    LeadsCons(u, step, next, rest, end);
    ConsSpares(step, rest, d);
    steps := [step] + rest;
  }

  /** The first step of a destructor. */
  function Drop(u: State, p: Pid): ReleaseStep {
    if p in u.shared then DropShared(0, p, Done) else DropWeak(0, p, Done)
  }

  lemma DropStep(u: State, p: Pid)
    requires u.ops == map[] && ValuesOk(u) && u.shared.Keys !! u.weak.Keys && (p in u.shared || p in u.weak)
    ensures CanRelease(u, Drop(u, p))
    ensures var next := ApplyRelease(u, Drop(u, p));
            && next.shared == u.shared - {p} && next.weak == u.weak - {p} && next.blocks.Keys == u.blocks.Keys
            && 0 in next.ops && next.ops == map[0 := next.ops[0]] && Destroying(next.ops[0])
  {
    if p in u.shared { assert u.weak - {p} == u.weak; } else { assert u.shared - {p} == u.shared; }
  }

  lemma FirstStep(u: State, p: Pid, d: Pid) returns (step: ReleaseStep, next: State)
    requires Inv(u) && u.ops == map[] && (p in u.shared || (p in u.weak && p != d))
    ensures CanRelease(u, step) && next == ApplyRelease(u, step) && Spares(step, d) && Inv(next)
    ensures next.shared == u.shared - {p} && next.weak == u.weak - {p} && next.blocks.Keys == u.blocks.Keys
    ensures 0 in next.ops && next.ops == map[0 := next.ops[0]] && Destroying(next.ops[0])
  {
    DropStep(u, p);
    step := Drop(u, p);
    InvAfterRelease(u, step);
    next := ApplyRelease(u, step);
  }

  /** One pointer is destroyed, and its release carried to its end. */
  lemma DropOne(u: State, p: Pid, d: Pid) returns (steps: seq<ReleaseStep>, end: State)
    requires Inv(u) && u.ops == map[] && (p in u.shared || (p in u.weak && p != d))
    ensures Leads(u, steps, end) && AllSpare(steps, d)
    ensures Inv(end) && end.ops == map[] && end.blocks.Keys == u.blocks.Keys
    ensures end.shared == u.shared - {p} && end.weak == u.weak - {p}
  {
    var step, next := FirstStep(u, p, d);
    var rest;
    rest, end := Drain(next, next.ops[0], d);
    LeadsCons(u, step, next, rest, end);
    ConsSpares(step, rest, d);
    steps := [step] + rest;
  }

  function HoldersOf(u: State, c: Cid): set<Pid> { HolderSet(u.shared, c) + HolderSet(u.weak, c) }

  /** Of the holders of `c` exactly those in `keep` are left. */
  predicate KeptOnly(u: State, end: State, c: Cid, keep: set<Pid>) {
    HolderSet(end.shared, c) == HolderSet(u.shared, c) * keep && HolderSet(end.weak, c) == HolderSet(u.weak, c) * keep
  }

  lemma NoneLeft(u: State, c: Cid, keep: set<Pid>)
    requires HoldersOf(u, c) - keep == {}
    ensures KeptOnly(u, u, c, keep)
  {
    forall p | p in HoldersOf(u, c) ensures p in keep {
      assert p !in HoldersOf(u, c) - keep;
    }
  }

  lemma OneLess(u: State, next: State, c: Cid, keep: set<Pid>, p: Pid)
    requires next.shared == u.shared - {p} && next.weak == u.weak - {p} && p !in keep
    ensures HoldersOf(next, c) - keep == HoldersOf(u, c) - keep - {p}
    ensures forall end :: KeptOnly(next, end, c, keep) ==> KeptOnly(u, end, c, keep)
  {
    assert HolderSet(next.shared, c) == HolderSet(u.shared, c) - {p};
    assert HolderSet(next.weak, c) == HolderSet(u.weak, c) - {p};
    assert HolderSet(next.shared, c) * keep == HolderSet(u.shared, c) * keep;
    assert HolderSet(next.weak, c) * keep == HolderSet(u.weak, c) * keep;
  }

  lemma LetGoOne(u: State, c: Cid, keep: set<Pid>, d: Pid) returns (p: Pid, steps: seq<ReleaseStep>, next: State)
    requires Inv(u) && u.ops == map[] && c in u.blocks && d !in u.weak && HoldersOf(u, c) - keep != {}
    ensures Leads(u, steps, next) && AllSpare(steps, d)
    ensures Inv(next) && next.ops == map[] && c in next.blocks && d !in next.weak
    ensures p in HoldersOf(u, c) - keep && next.shared == u.shared - {p} && next.weak == u.weak - {p}
  {
    p :| p in HoldersOf(u, c) - keep;
    steps, next := DropOne(u, p, d);
  }

  /** All holders of a block but the ones in `keep` can be destroyed. */
  lemma {:induction false} LetGo(u: State, c: Cid, keep: set<Pid>, d: Pid) returns (steps: seq<ReleaseStep>, end: State)
    requires Inv(u) && u.ops == map[] && c in u.blocks && d !in u.weak
    ensures Leads(u, steps, end) && AllSpare(steps, d) && KeptOnly(u, end, c, keep)
    ensures Inv(end) && end.ops == map[] && c in end.blocks && d !in end.weak
    decreases |HoldersOf(u, c) - keep|
  {
    if HoldersOf(u, c) - keep == {} {
      NoneLeft(u, c, keep);
      steps, end := [], u;
    } else {
      var p, first, next := LetGoOne(u, c, keep, d);
      OneLess(u, next, c, keep, p);
      var rest;
      rest, end := LetGo(next, c, keep, d);
      LeadsOn(u, first, next, rest, end);
      JoinSpares(first, rest, d);
      steps := first + rest;
    }
  }

  /** For every non-empty source: destroying all pointers that are counted frees the block under the target. */
  lemma CrossAssignFreesUnderTarget(s: State, o: Oid, dst: Pid, src: Pid, c: Cid)
    returns (steps: seq<ReleaseStep>, end: State)
    requires Inv(s) && s.ops == map[o := Finishing(ResetWeak(dst))] && Holds(s.weak, src, c)
    ensures Leads(CrossAssign(s, o, dst, src), steps, end)
    ensures Holds(end.weak, dst, c) && c in end.blocks && end.blocks[c].freed
  {
    var u := Before(s, o, dst, src, c);
    var last;
    steps, last := LetGo(u, c, {}, dst);
    NobodyLeft(u, last, c);
    RunSparesOther(u, steps, last, dst, Some(c));
    end := PutWeak(last, dst, Some(c));
  }

  lemma TargetAway(s: State, o: Oid, dst: Pid)
    requires Exclusive(s) && o in s.ops && s.ops[o] == Finishing(ResetWeak(dst))
    ensures dst !in s.weak && dst !in s.shared
  {
    assert Target(s.ops[o]) == Some(dst);
  }

  lemma NoOps(s: State, o: Oid, op: Op)
    requires s.ops == map[o := op]
    ensures WithoutOp(s, o).ops == map[] && OnlyDestructors(WithoutOp(s, o))
  {
    assert s.ops - {o} == map[];
  }

  /** The state the assignment adds an uncounted pointer to. */
  lemma Before(s: State, o: Oid, dst: Pid, src: Pid, c: Cid) returns (u: State)
    requires Inv(s) && s.ops == map[o := Finishing(ResetWeak(dst))] && Holds(s.weak, src, c)
    ensures u == WithoutOp(s, o) && Inv(u) && u.ops == map[] && OnlyDestructors(u)
    ensures c in u.blocks && dst !in u.weak && u.shared == s.shared && u.weak == s.weak
    ensures CrossAssign(s, o, dst, src) == PutWeak(u, dst, Some(c))
  {
    TargetAway(s, o, dst);
    NoOps(s, o, Finishing(ResetWeak(dst)));
    assert Known(s, s.weak[src]);
    InvWithoutOp(s, o);
    u := WithoutOp(s, o);
  }

  lemma NobodyLeft(u: State, end: State, c: Cid)
    requires Inv(end) && end.ops == map[] && c in end.blocks && KeptOnly(u, end, c, {})
    ensures end.blocks[c].freed
  {
    forall p | p in end.shared ensures end.shared[p] != Some(c) { assert p !in HolderSet(end.shared, c); }
    forall p | p in end.weak ensures end.weak[p] != Some(c) { assert p !in HolderSet(end.weak, c); }
    UnheldIsGone(end, c);
  }

  lemma Singleton(p: Pid, set1: set<Pid>, keep: set<Pid>, other: Pid)
    requires p in set1 && keep == {p, other} && other !in set1
    ensures |set1 * keep| == 1
  {
    assert set1 * keep == {p};
  }

  lemma BlockOfPair(b: Block)
    requires Balanced(b, Ledger(1, 1, 0, 0, 0, 0, 0))
    ensures b == Block(1, 2, Alive, false)
  {
  }

  lemma NoTally(c: Cid, k: Kind)
    ensures Tally(map[], c, k) == 0
  {
    assert RunnerSet(map[], c, k) == {};
  }

  lemma LedgerOfPair(u: State, end: State, c: Cid, p: Pid, src: Pid)
    requires end.ops == map[] && KeptOnly(u, end, c, {p, src})
    requires u.shared.Keys !! u.weak.Keys && Holds(u.shared, p, c) && Holds(u.weak, src, c)
    ensures Holds(end.shared, p, c) && Holds(end.weak, src, c)
    ensures LedgerOf(end, c) == Ledger(1, 1, 0, 0, 0, 0, 0)
  {
    Singleton(p, HolderSet(u.shared, c), {p, src}, src);
    Singleton(src, HolderSet(u.weak, c), {p, src}, p);
    assert p in HolderSet(end.shared, c) && src in HolderSet(end.weak, c);
    assert Holders(end.shared, c) == 1 && Holders(end.weak, c) == 1;
    NoTally(c, RefHeld);
    NoTally(c, ToDelete);
    NoTally(c, Deleting);
    NoTally(c, WeakHeld);
    NoTally(c, ToFree);
  }

  /** With one shared and one weak pointer left, the counters are one and two. */
  lemma PairLeft(u: State, end: State, c: Cid, p: Pid, src: Pid)
    requires Exclusive(u) && c in end.blocks && BlockOk(end, c) && end.ops == map[] && KeptOnly(u, end, c, {p, src})
    requires Holds(u.shared, p, c) && Holds(u.weak, src, c)
    ensures Holds(end.shared, p, c) && Holds(end.weak, src, c)
    ensures end.blocks[c] == Block(1, 2, Alive, false)
  {
    LedgerOfPair(u, end, c, p, src);
    BlockOfPair(end.blocks[c]);
  }

  /** Destroying one of several counted weak pointers. */
  lemma DropCounted(t: State, q: Pid, c: Cid, b: Block) returns (steps: seq<ReleaseStep>, end: State)
    requires t.ops == map[] && Holds(t.weak, q, c) && c in t.blocks && t.blocks[c] == b && b.weak > 1
    ensures Leads(t, steps, end) && end.ops == map[] && end.shared == t.shared && end.weak == t.weak - {q}
    ensures c in end.blocks && end.blocks[c] == b.(weak := b.weak - 1)
  {
    var t1 := ApplyRelease(t, DropWeak(0, q, Done));
    assert t1.ops == map[0 := ReleaseWeak(c, Done)];
    var t2 := ApplyRelease(t1, SubWeakCount(0));
    assert t2.ops == map[0 := Finishing(Done)];
    end := ApplyRelease(t2, Finish(0));
    assert t2.ops - {0} == map[];
    LeadsCons(t2, Finish(0), end, [], end);
    LeadsCons(t1, SubWeakCount(0), t2, [Finish(0)], end);
    LeadsCons(t, DropWeak(0, q, Done), t1, [SubWeakCount(0)] + [Finish(0)], end);
    steps := [DropWeak(0, q, Done)] + ([SubWeakCount(0)] + [Finish(0)]);
  }

  /** Destroying the last counted weak pointer. */
  lemma DropLast(t: State, q: Pid, c: Cid) returns (steps: seq<ReleaseStep>, end: State)
    requires t.ops == map[] && Holds(t.weak, q, c) && c in t.blocks && t.blocks[c].weak == 1
    ensures Leads(t, steps, end) && end.shared == t.shared && c in end.blocks && end.blocks[c].freed
  {
    var t1 := ApplyRelease(t, DropWeak(0, q, Done));
    assert t1.ops == map[0 := ReleaseWeak(c, Done)];
    var t2 := ApplyRelease(t1, SubWeakCount(0));
    assert t2.ops == map[0 := FreeCtrl(c, Done)];
    end := ApplyRelease(t2, FreeBlock(0));
    LeadsCons(t2, FreeBlock(0), end, [], end);
    LeadsCons(t1, SubWeakCount(0), t2, [FreeBlock(0)], end);
    LeadsCons(t, DropWeak(0, q, Done), t1, [SubWeakCount(0)] + [FreeBlock(0)], end);
    steps := [DropWeak(0, q, Done)] + ([SubWeakCount(0)] + [FreeBlock(0)]);
  }

  /** With an uncounted weak pointer beside a pair, the second of two releases frees the block. */
  lemma FreesFromPair(t: State, dst: Pid, src: Pid, p: Pid, c: Cid) returns (steps: seq<ReleaseStep>, end: State)
    requires t.ops == map[] && Holds(t.weak, dst, c) && Holds(t.weak, src, c) && dst != src && Holds(t.shared, p, c)
    requires c in t.blocks && t.blocks[c] == Block(1, 2, Alive, false)
    ensures Leads(t, steps, end) && Holds(end.shared, p, c) && c in end.blocks && end.blocks[c].freed
  {
    var first, next := DropCounted(t, dst, c, Block(1, 2, Alive, false));
    var rest;
    rest, end := DropLast(next, src, c);
    LeadsOn(t, first, next, rest, end);
    steps := first + rest;
  }

  lemma ToPair(u: State, dst: Pid, src: Pid, p: Pid, c: Cid) returns (steps: seq<ReleaseStep>, pair: State)
    requires Inv(u) && u.ops == map[] && c in u.blocks && dst !in u.weak && Holds(u.weak, src, c) && Holds(u.shared, p, c)
    ensures Leads(PutWeak(u, dst, Some(c)), steps, PutWeak(pair, dst, Some(c)))
    ensures pair.ops == map[] && Holds(pair.shared, p, c) && Holds(pair.weak, src, c) && dst !in pair.weak
    ensures c in pair.blocks && pair.blocks[c] == Block(1, 2, Alive, false)
  {
    steps, pair := LetGo(u, c, {p, src}, dst);
    PairLeft(u, pair, c, p, src);
    RunSparesOther(u, steps, pair, dst, Some(c));
  }

  lemma FreesUnderPair(u: State, dst: Pid, src: Pid, p: Pid, c: Cid) returns (steps: seq<ReleaseStep>, end: State)
    requires Inv(u) && u.ops == map[] && c in u.blocks && dst !in u.weak && Holds(u.weak, src, c) && Holds(u.shared, p, c)
    ensures Leads(PutWeak(u, dst, Some(c)), steps, end)
    ensures Holds(end.shared, p, c) && c in end.blocks && end.blocks[c].freed
  {
    var first, pair := ToPair(u, dst, src, p, c);
    var three := PutWeak(pair, dst, Some(c));
    var rest;
    rest, end := FreesFromPair(three, dst, src, p, c);
    LeadsOn(PutWeak(u, dst, Some(c)), first, three, rest, end);
    steps := first + rest;
  }

  /** And with a shared pointer to the block: destroying other pointers frees the block under it. */
  lemma CrossAssignFreesUnderShared(s: State, o: Oid, dst: Pid, src: Pid, p: Pid, c: Cid)
    returns (steps: seq<ReleaseStep>, end: State)
    requires Inv(s) && s.ops == map[o := Finishing(ResetWeak(dst))] && Holds(s.weak, src, c) && Holds(s.shared, p, c)
    ensures Leads(CrossAssign(s, o, dst, src), steps, end)
    ensures Holds(end.shared, p, c) && c in end.blocks && end.blocks[c].freed
  {
    var u := Before(s, o, dst, src, c);
    steps, end := FreesUnderPair(u, dst, src, p, c);
  }

  // ---------------------------------------------------------------------------------------------
  // From the empty program
  // ---------------------------------------------------------------------------------------------

  /** A shared pointer 0 to block 7, a weak pointer 1 from it, and an empty weak pointer 2 about to be assigned. */
  function Lead(o: Oid): seq<Step> {
    [Make(NewShared(0, 7)), Make(WeakFromSharedConstruct(0, 1)), Make(NewEmptyWeak(2)), Release(DropWeak(o, 2, ResetWeak(2)))]
  }

  function LeadStates(o: Oid): seq<State> {
    var shared := map[0 := Some(7)];
    var two := map[7 := Block(1, 2, Alive, false)];
    [Initial, State(map[7 := Block(1, 1, Alive, false)], shared, map[], map[]), State(two, shared, map[1 := Some(7)], map[]),
     State(two, shared, map[1 := Some(7), 2 := None], map[]),
     State(two, shared, map[1 := Some(7)], map[o := Finishing(ResetWeak(2))])]
  }

  lemma LeadMakes(o: Oid, i: nat)
    requires i < 3
    ensures Follows(LeadStates(o), Lead(o), i)
  {
  }

  lemma LeadDrops(o: Oid)
    ensures Follows(LeadStates(o), Lead(o), 3)
  {
    assert LeadStates(o)[3].weak - {2} == LeadStates(o)[4].weak;
  }

  /** An execution of the program leads to a state that the lemmas above start from. */
  lemma LeadsToCrossAssign(o: Oid) returns (states: seq<State>)
    ensures Execution(states, Lead(o)) && |states| == 5
    ensures var s := states[4];
            && Inv(s) && s.ops == map[o := Finishing(ResetWeak(2))]
            && Holds(s.weak, 1, 7) && Holds(s.shared, 0, 7) && 7 in s.blocks && !s.blocks[7].freed
  {
    states := LeadStates(o);
    forall i: nat | i < 4 ensures Follows(states, Lead(o), i) {
      if i < 3 { LeadMakes(o, i); } else { LeadDrops(o); }
    }
    ExecutionKeepsInv(states, Lead(o), 4);
  }

  /** So one program frees the block under its shared pointer by nothing but destructors. */
  lemma FreedUnderShared(o: Oid) returns (states: seq<State>, more: seq<ReleaseStep>, end: State)
    ensures Execution(states, Lead(o)) && |states| == 5 && 1 in states[4].weak
    ensures Leads(CrossAssign(states[4], o, 2, 1), more, end)
    ensures Holds(end.shared, 0, 7) && 7 in end.blocks && end.blocks[7].freed
  {
    states := LeadsToCrossAssign(o);
    more, end := CrossAssignFreesUnderShared(states[4], o, 2, 1, 0, 7);
  }
}
