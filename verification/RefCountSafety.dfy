/**
 What the counters of `RefCount` guarantee over whole executions, whatever the interleaving.
 */
module RefCountSafety {
  import opened Options
  import opened RefCount

  predicate Follows(states: seq<State>, steps: seq<Step>, i: nat)
    requires |states| == |steps| + 1 && i < |steps|
  {
    Enabled(states[i], steps[i]) && states[i + 1] == Apply(states[i], steps[i])
  }

  /** `states[i + 1]` follows from `states[i]` by `steps[i]`, from the empty program on. */
  predicate Execution(states: seq<State>, steps: seq<Step>) {
    && |states| == |steps| + 1
    && states[0] == Initial
    && forall i: nat {:trigger Follows(states, steps, i)} :: i < |steps| ==> Follows(states, steps, i)
  }

  lemma InitialInv()
    ensures Inv(Initial)
  {
  }

  lemma {:induction false} ExecutionKeepsInv(states: seq<State>, steps: seq<Step>, i: nat)
    requires Execution(states, steps) && i < |states|
    ensures Inv(states[i])
  {
    if i == 0 {
      InitialInv();
    } else {
      ExecutionKeepsInv(states, steps, i - 1);
      assert Follows(states, steps, i - 1);
      StepKeepsInv(states[i - 1], steps[i - 1]);
    }
  }

  // ---------------------------------------------------------------------------------------------
  // No step touches a freed control block
  // ---------------------------------------------------------------------------------------------

  lemma RunnerHasBlock(s: State, o: Oid)
    requires Inv(s) && InFlight(s, o)
    ensures !s.blocks[s.ops[o].c].freed
  {
    var op := s.ops[o];
    assert BlockOk(s, op.c) && OpOk(s, op);
    if Constructing(op) {
      HeldBlock(s, op.src, op.c);
    } else {
      RunnerCounts(s.ops, o, op.c, KindOf(op));
    }
  }

  lemma ReleaseTouchesLive(s: State, step: ReleaseStep, c: Cid)
    requires Inv(s) && CanRelease(s, step) && c in ReleaseTouches(s, step)
    ensures c in s.blocks && !s.blocks[c].freed
  {
    match step {
      case DropShared(_, p, _) => HeldBlock(s, p, c);
      case Finish(o) => HeldBlock(s, s.ops[o].after.src, c);
      case _ => RunnerHasBlock(s, step.o);
    }
  }

  lemma StepTouchesLive(s: State, step: Step, c: Cid)
    requires Inv(s) && Enabled(s, step) && c in Touches(s, step)
    ensures c in s.blocks && !s.blocks[c].freed
  {
    match step {
      case Make(m) => HeldBlock(s, m.src, c);
      case Release(r) => ReleaseTouchesLive(s, r, c);
      case Lock(l) => RunnerHasBlock(s, l.o);
      case UseCount(p) => HeldBlock(s, p, c);
    }
  }

  lemma NoUseAfterFree(states: seq<State>, steps: seq<Step>, i: nat, c: Cid)
    requires Execution(states, steps) && i < |steps| && Follows(states, steps, i) && c in Touches(states[i], steps[i])
    ensures c in states[i].blocks && !states[i].blocks[c].freed
  {
    ExecutionKeepsInv(states, steps, i);
    StepTouchesLive(states[i], steps[i], c);
  }

  // ---------------------------------------------------------------------------------------------
  // What one step may do to one control block
  // ---------------------------------------------------------------------------------------------

  function Rank(b: Block): nat {
    match b.obj
    case Alive => if b.ref > 0 then 0 else 1
    case Dying => 2
    case Dead => if b.freed then 4 else 3
  }

  predicate StartsDeleter(s: State, step: Step, c: Cid) {
    step.Release? && step.release.DeleterStarts? && InFlight(s, step.release.o) && s.ops[step.release.o].c == c
  }

  predicate EndsDeleter(s: State, step: Step, c: Cid) {
    step.Release? && step.release.DeleterEnds? && InFlight(s, step.release.o) && s.ops[step.release.o].c == c
  }

  predicate Frees(s: State, step: Step, c: Cid) {
    step.Release? && step.release.FreeBlock? && InFlight(s, step.release.o) && s.ops[step.release.o].c == c
  }

  /** A freed block has a dead object, and a weak count of zero. */
  lemma FreedIsDead(s: State, c: Cid)
    requires Inv(s) && c in s.blocks && s.blocks[c].weak == 0
    ensures s.blocks[c].obj.Dead? && s.blocks[c].ref == 0
  {
    assert BlockOk(s, c);
    forall o | o in s.ops
      ensures !Is(s.ops[o], c, RefHeld)
    {
      if Is(s.ops[o], c, RefHeld) {
        assert OpOk(s, s.ops[o]);
        HeldBlock(s, s.ops[o].src, c);
      }
    }
    assert RunnerSet(s.ops, c, RefHeld) == {};
  }

  /** Steps other than the deleter's and the free leave the object as it is and never leave zero. */
  predicate SameLife(b: Block, d: Block) {
    d.obj == b.obj && d.freed == b.freed && (b.ref == 0 ==> d.ref == 0)
  }

  /** The strong count that a copy from `v` is about to raise is not zero. */
  predicate LiveSource(s: State, v: Option<Cid>) {
    v.Some? ==> v.value in s.blocks && s.blocks[v.value].ref > 0
  }

  lemma SharedIsLive(s: State, p: Pid)
    requires Inv(s) && p in s.shared
    ensures LiveSource(s, s.shared[p])
  {
    if s.shared[p].Some? { HeldBlock(s, p, s.shared[p].value); }
  }

  lemma MakeKeepsLife(s: State, m: MakeStep, c: Cid)
    requires CanMake(s, m) && c in s.blocks
    requires m.CopyBegin? ==> LiveSource(s, s.shared[m.src])
    ensures c in ApplyMake(s, m).blocks && SameLife(s.blocks[c], ApplyMake(s, m).blocks[c])
  {
  }

  lemma LockKeepsLife(s: State, l: LockStep, c: Cid)
    requires CanLock(s, l) && c in s.blocks
    requires l.CasRef? ==> s.ops[l.o].seen > 0
    ensures c in ApplyLock(s, l).blocks && SameLife(s.blocks[c], ApplyLock(s, l).blocks[c])
  {
    if l.CasRef? { CasKeepsLife(s, l.o, l.spurious, c); }
  }

  lemma CasKeepsLife(s: State, o: Oid, spurious: bool, c: Cid)
    requires CanLock(s, CasRef(o, spurious)) && c in s.blocks && s.ops[o].seen > 0
    ensures var t := ApplyLock(s, CasRef(o, spurious)); c in t.blocks && SameLife(s.blocks[c], t.blocks[c])
  {
  }

  lemma FinishKeepsLife(s: State, o: Oid, a: After, c: Cid)
    requires CanFinish(s, o, a) && c in s.blocks
    requires a.CopyShared? ==> LiveSource(s, s.shared[a.src])
    ensures c in FinishWith(s, o, a).blocks && SameLife(s.blocks[c], FinishWith(s, o, a).blocks[c])
  {
  }

  lemma DropKeepsLife(s: State, r: ReleaseStep, c: Cid)
    requires CanRelease(s, r) && c in s.blocks && (r.DropShared? || r.DropWeak? || r.SubWeakCount?)
    requires r.DropShared? ==> LiveSource(s, s.shared[r.p])
    ensures c in ApplyRelease(s, r).blocks && SameLife(s.blocks[c], ApplyRelease(s, r).blocks[c])
  {
  }

  predicate Forward(b: Block, d: Block, starts: bool, ends: bool, frees: bool) {
    && Rank(b) <= Rank(d) <= Rank(b) + 1
    && (starts <==> Rank(b) == 1 && Rank(d) == 2)
    && (ends <==> Rank(b) == 2 && Rank(d) == 3)
    && (frees <==> Rank(b) == 3 && Rank(d) == 4)
  }

  /** The stage of the block that each of the three decisive operations finds. */
  lemma StageOfRunner(s: State, o: Oid)
    requires Inv(s) && InFlight(s, o)
    ensures var op := s.ops[o]; var b := s.blocks[op.c];
            && (op.CallDeleter? ==> Rank(b) == 1)
            && (op.InDeleter? ==> Rank(b) == 2)
            && (op.FreeCtrl? ==> Rank(b) == 3)
  {
    var op := s.ops[o];
    RunnerCounts(s.ops, o, op.c, KindOf(op));
    assert BlockOk(s, op.c);
    if op.FreeCtrl? { FreedIsDead(s, op.c); }
  }

  lemma DeleterMovesLife(s: State, r: ReleaseStep, c: Cid)
    requires CanRelease(s, r) && (r.DeleterStarts? || r.DeleterEnds? || r.FreeBlock?) && c in s.blocks
    requires var b := s.blocks[s.ops[r.o].c];
             && (r.DeleterStarts? ==> Rank(b) == 1) && (r.DeleterEnds? ==> Rank(b) == 2)
             && (r.FreeBlock? ==> Rank(b) == 3)
    requires s.blocks[c].freed ==> s.blocks[c].obj.Dead?
    ensures c in ApplyRelease(s, r).blocks
    ensures var mine := s.ops[r.o].c == c;
            Forward(s.blocks[c], ApplyRelease(s, r).blocks[c],
                    r.DeleterStarts? && mine, r.DeleterEnds? && mine, r.FreeBlock? && mine)
  {
  }

  lemma SameLifeIsForward(b: Block, d: Block)
    requires SameLife(b, d) && (!b.obj.Alive? ==> b.ref == 0)
    ensures Forward(b, d, false, false, false)
  {
  }

  lemma MakeMovesForward(s: State, m: MakeStep, c: Cid)
    requires CanMake(s, m) && c in s.blocks && BlockOk(s, c) && Inv(s)
    ensures c in ApplyMake(s, m).blocks && Forward(s.blocks[c], ApplyMake(s, m).blocks[c], false, false, false)
  {
    if m.CopyBegin? { SharedIsLive(s, m.src); }
    MakeKeepsLife(s, m, c);
    SameLifeIsForward(s.blocks[c], ApplyMake(s, m).blocks[c]);
  }

  lemma LockMovesForward(s: State, l: LockStep, c: Cid)
    requires CanLock(s, l) && c in s.blocks && BlockOk(s, c) && OpsOk(s)
    ensures c in ApplyLock(s, l).blocks && Forward(s.blocks[c], ApplyLock(s, l).blocks[c], false, false, false)
  {
    if l.CasRef? { assert OpOk(s, s.ops[l.o]); }
    LockKeepsLife(s, l, c);
    SameLifeIsForward(s.blocks[c], ApplyLock(s, l).blocks[c]);
  }

  /** The life of a block only moves forward: held, dropped, being destroyed, destroyed, freed. */
  lemma LifeMovesForward(s: State, step: Step, c: Cid)
    requires Inv(s) && Enabled(s, step) && c in s.blocks
    ensures c in Apply(s, step).blocks
    ensures Forward(s.blocks[c], Apply(s, step).blocks[c],
                    StartsDeleter(s, step, c), EndsDeleter(s, step, c), Frees(s, step, c))
  {
    assert BlockOk(s, c);
    match step {
      case Make(m) => MakeMovesForward(s, m, c);
      case Release(r) => ReleaseMovesForward(s, r, c);
      case Lock(l) => LockMovesForward(s, l, c);
      case UseCount(_) =>
    }
  }

  lemma OtherReleaseKeepsLife(s: State, r: ReleaseStep, c: Cid)
    requires Inv(s) && CanRelease(s, r) && c in s.blocks
    requires !(r.DeleterStarts? || r.DeleterEnds? || r.FreeBlock?)
    ensures c in ApplyRelease(s, r).blocks && SameLife(s.blocks[c], ApplyRelease(s, r).blocks[c])
  {
    if r.Finish? {
      var a := s.ops[r.o].after;
      if a.CopyShared? { SharedIsLive(s, a.src); }
      FinishKeepsLife(s, r.o, a, c);
    } else {
      if r.DropShared? { SharedIsLive(s, r.p); }
      DropKeepsLife(s, r, c);
    }
  }

  lemma ReleaseMovesForward(s: State, r: ReleaseStep, c: Cid)
    requires Inv(s) && CanRelease(s, r) && c in s.blocks
    ensures c in ApplyRelease(s, r).blocks
    ensures var step := Release(r);
            Forward(s.blocks[c], ApplyRelease(s, r).blocks[c],
                    StartsDeleter(s, step, c), EndsDeleter(s, step, c), Frees(s, step, c))
  {
    assert BlockOk(s, c);
    if r.DeleterStarts? || r.DeleterEnds? || r.FreeBlock? {
      StageOfRunner(s, r.o);
      if s.blocks[c].freed { FreedIsDead(s, c); }
      DeleterMovesLife(s, r, c);
    } else {
      OtherReleaseKeepsLife(s, r, c);
      SameLifeIsForward(s.blocks[c], ApplyRelease(s, r).blocks[c]);
    }
  }

  // ---------------------------------------------------------------------------------------------
  // Over whole executions
  // ---------------------------------------------------------------------------------------------

  /** The stage of a block before and after one step, a new block being at the first. */
  function RankIn(s: State, c: Cid): nat { if c in s.blocks then Rank(s.blocks[c]) else 0 }

  /** What one step of an execution does to the stage of a block. */
  predicate StageMoves(s: State, step: Step, t: State, c: Cid) {
    && RankIn(s, c) <= RankIn(t, c) <= RankIn(s, c) + 1 && (c in s.blocks ==> c in t.blocks)
    && (StartsDeleter(s, step, c) <==> RankIn(s, c) == 1 && RankIn(t, c) == 2)
    && (EndsDeleter(s, step, c) <==> RankIn(s, c) == 2 && RankIn(t, c) == 3)
    && (Frees(s, step, c) <==> RankIn(s, c) == 3 && RankIn(t, c) == 4)
  }

  lemma LockMakesNoBlock(s: State, l: LockStep)
    requires CanLock(s, l)
    ensures ApplyLock(s, l).blocks.Keys == s.blocks.Keys
  {
  }

  lemma MakeMakesHeldBlock(s: State, m: MakeStep, c: Cid)
    requires CanMake(s, m) && c !in s.blocks
    ensures RankIn(ApplyMake(s, m), c) == 0
  {
  }

  lemma NewBlockIsHeld(s: State, step: Step, c: Cid)
    requires Enabled(s, step) && c !in s.blocks
    ensures RankIn(Apply(s, step), c) == 0
    ensures !StartsDeleter(s, step, c) && !EndsDeleter(s, step, c) && !Frees(s, step, c)
  {
    match step {
      case Make(m) => MakeMakesHeldBlock(s, m, c);
      case Release(r) => ReleaseMakesNoBlock(s, r);
      case Lock(l) => LockMakesNoBlock(s, l);
      case UseCount(_) =>
    }
  }

  lemma ExecutionStep(states: seq<State>, steps: seq<Step>, i: nat, c: Cid)
    requires Execution(states, steps) && i < |steps|
    ensures StageMoves(states[i], steps[i], states[i + 1], c)
  {
    ExecutionKeepsInv(states, steps, i);
    assert Follows(states, steps, i);
    if c in states[i].blocks { LifeMovesForward(states[i], steps[i], c); } else { NewBlockIsHeld(states[i], steps[i], c); }
  }

  lemma {:induction false} RankIsMonotone(states: seq<State>, steps: seq<Step>, i: nat, j: nat, c: Cid)
    requires Execution(states, steps) && i <= j < |states| && c in states[i].blocks
    ensures c in states[j].blocks && Rank(states[i].blocks[c]) <= Rank(states[j].blocks[c])
    decreases j
  {
    if i < j {
      RankIsMonotone(states, steps, i, j - 1, c);
      ExecutionStep(states, steps, j - 1, c);
    }
  }

  /** A dropped object is never revived: once the strong count is zero it is zero for ever. */
  lemma DeadStaysDead(states: seq<State>, steps: seq<Step>, i: nat, j: nat, c: Cid)
    requires Execution(states, steps) && i <= j < |states|
    requires c in states[i].blocks && states[i].blocks[c].ref == 0
    ensures c in states[j].blocks && states[j].blocks[c].ref == 0
  {
    RankIsMonotone(states, steps, i, j, c);
    ExecutionKeepsInv(states, steps, i);
    ExecutionKeepsInv(states, steps, j);
    assert BlockOk(states[i], c) && BlockOk(states[j], c);
  }

  /** The deleter of a block starts at most once, ends at most once, and the block is freed at most once. */
  lemma DestroyedAndFreedOnce(states: seq<State>, steps: seq<Step>, i: nat, j: nat, c: Cid)
    requires Execution(states, steps) && i < j < |steps|
    ensures !(StartsDeleter(states[i], steps[i], c) && StartsDeleter(states[j], steps[j], c))
    ensures !(EndsDeleter(states[i], steps[i], c) && EndsDeleter(states[j], steps[j], c))
    ensures !(Frees(states[i], steps[i], c) && Frees(states[j], steps[j], c))
  {
    ExecutionStep(states, steps, i, c);
    ExecutionStep(states, steps, j, c);
    if c in states[i + 1].blocks { RankIsMonotone(states, steps, i + 1, j, c); }
  }

  /** Whoever reached a later stage of a block's life went through the step that leads to it. */
  lemma {:induction false} StageHasStep(states: seq<State>, steps: seq<Step>, j: nat, c: Cid)
    requires Execution(states, steps) && j < |states| && c in states[j].blocks
    ensures Rank(states[j].blocks[c]) >= 2 ==> exists i :: 0 <= i < j && StartsDeleter(states[i], steps[i], c)
    ensures Rank(states[j].blocks[c]) >= 3 ==> exists i :: 0 <= i < j && EndsDeleter(states[i], steps[i], c)
    ensures Rank(states[j].blocks[c]) >= 4 ==> exists i :: 0 <= i < j && Frees(states[i], steps[i], c)
  {
    if j > 0 {
      ExecutionStep(states, steps, j - 1, c);
      if c in states[j - 1].blocks { StageHasStep(states, steps, j - 1, c); }
    }
  }

  /** The control block is freed only after the deleter has run to its end, and it had started before that. */
  lemma FreedAfterDestroyed(states: seq<State>, steps: seq<Step>, j: nat, c: Cid)
    requires Execution(states, steps) && j < |steps| && Frees(states[j], steps[j], c)
    ensures exists i, k :: 0 <= i < k < j && StartsDeleter(states[i], steps[i], c) && EndsDeleter(states[k], steps[k], c)
  {
    ExecutionStep(states, steps, j, c);
    StageHasStep(states, steps, j, c);
    var k :| 0 <= k < j && EndsDeleter(states[k], steps[k], c);
    ExecutionStep(states, steps, k, c);
    StageHasStep(states, steps, k, c);
  }

  /** The deleter starts only when no strong pointer, finished or in the making, holds the block. */
  lemma DestroyedWhenLastGoes(states: seq<State>, steps: seq<Step>, i: nat, c: Cid)
    requires Execution(states, steps) && i < |steps| && StartsDeleter(states[i], steps[i], c)
    ensures states[i].blocks[c].ref == 0 && states[i].blocks[c].obj.Alive?
    ensures forall p :: p in states[i].shared ==> states[i].shared[p] != Some(c)
    ensures forall o :: o in states[i].ops ==> !Is(states[i].ops[o], c, RefHeld)
  {
    ExecutionKeepsInv(states, steps, i);
    ExecutionStep(states, steps, i, c);
    assert RankIn(states[i], c) == 1;
    DroppedIsUnheld(states[i], c);
  }

  lemma DroppedIsUnheld(s: State, c: Cid)
    requires c in s.blocks && s.blocks[c].ref == 0 && Inv(s)
    ensures forall p :: p in s.shared ==> s.shared[p] != Some(c)
    ensures forall o :: o in s.ops ==> !Is(s.ops[o], c, RefHeld)
  {
    assert BlockOk(s, c);
    forall p | p in s.shared ensures s.shared[p] != Some(c) {
      if s.shared[p] == Some(c) { HolderCounts(s.shared, p, c); }
    }
    forall o | o in s.ops ensures !Is(s.ops[o], c, RefHeld) {
      if Is(s.ops[o], c, RefHeld) { RunnerCounts(s.ops, o, c, RefHeld); }
    }
  }

  /** A shared_ptr that holds a block, however it was obtained, keeps the object alive while it lasts. */
  lemma HolderKeepsObjectAlive(states: seq<State>, steps: seq<Step>, i: nat, p: Pid, c: Cid)
    requires Execution(states, steps) && i < |states| && Holds(states[i].shared, p, c)
    ensures c in states[i].blocks && states[i].blocks[c].obj.Alive? && states[i].blocks[c].ref > 0
    ensures !states[i].blocks[c].freed
  {
    ExecutionKeepsInv(states, steps, i);
    HeldBlock(states[i], p, c);
  }

  /** A lock whose compare-and-exchange went through holds the object alive before it has raised the weak count. */
  lemma LockedKeepsObjectAlive(states: seq<State>, steps: seq<Step>, i: nat, o: Oid)
    requires Execution(states, steps) && i < |states| && o in states[i].ops && states[i].ops[o].LockAdd?
    ensures var c := states[i].ops[o].c;
            c in states[i].blocks && states[i].blocks[c].obj.Alive? && states[i].blocks[c].ref > 0
            && !states[i].blocks[c].freed
  {
    var s := states[i];
    ExecutionKeepsInv(states, steps, i);
    assert OpOk(s, s.ops[o]) && BlockOk(s, s.ops[o].c);
    RunnerCounts(s.ops, o, s.ops[o].c, RefHeld);
    HeldBlock(s, s.ops[o].src, s.ops[o].c);
  }

  lemma UnheldIsGone(s: State, c: Cid)
    requires c in s.blocks && BlockOk(s, c)
    requires forall p :: p in s.shared ==> s.shared[p] != Some(c)
    requires forall p :: p in s.weak ==> s.weak[p] != Some(c)
    requires forall o :: o in s.ops ==> s.ops[o].Finishing? || s.ops[o].c != c
    ensures s.blocks[c] == Block(0, 0, Dead, true)
  {
    assert HolderSet(s.shared, c) == {} && HolderSet(s.weak, c) == {};
    forall k ensures Tally(s.ops, c, k) == 0 { assert RunnerSet(s.ops, c, k) == {}; }
  }

  /** Nothing leaks: a block that nobody holds any more has been destroyed and freed. */
  lemma NothingLeaks(states: seq<State>, steps: seq<Step>, i: nat, c: Cid)
    requires Execution(states, steps) && i < |states| && c in states[i].blocks
    requires forall p :: p in states[i].shared ==> states[i].shared[p] != Some(c)
    requires forall p :: p in states[i].weak ==> states[i].weak[p] != Some(c)
    requires forall o :: o in states[i].ops ==> states[i].ops[o].Finishing? || states[i].ops[o].c != c
    ensures states[i].blocks[c] == Block(0, 0, Dead, true)
  {
    ExecutionKeepsInv(states, steps, i);
    UnheldIsGone(states[i], c);
  }
}
