/**
 The reference-counting protocol of `shared_ptr`, `weak_ptr` and their control block.

 Every atomic access to a control block is one step, and operations in flight interleave in any
 order.  An operation is not tied to a thread, so a deleter that itself drops pointers is covered
 too: its nested operations are further operations in flight.

 Pointer objects live in `shared` and `weak` while they are complete.  An operation that builds or
 assigns a pointer object holds it exclusively, so the object is absent from both maps until the
 operation ends.  A pointer object that an operation reads from is borrowed: it may not be moved
 from, assigned or destroyed before that operation has finished with it.
 */
module RefCount {
  import opened Options
  import opened Numbers

  type Cid = nat  // a control block; every allocation gets a new name
  type Pid = nat  // a shared_ptr or weak_ptr object
  type Oid = nat  // an operation in flight

  datatype Object = Alive | Dying | Dead

  /** `ref` and `weak` are the two atomic counters, which wrap at 2^64. */
  datatype Block = Block(ref: nat, weak: nat, obj: Object, freed: bool)

  /** What an operation does once it has released the old value of the pointer object it changes. */
  datatype After =
    | Done
    | ResetShared(dst: Pid)
    | CopyShared(dst: Pid, src: Pid)
    | MoveShared(dst: Pid, src: Pid)
    | ResetWeak(dst: Pid)
    | CopyWeak(dst: Pid, src: Pid)
    | MoveWeak(dst: Pid, src: Pid)
    | WeakFromShared(dst: Pid, src: Pid)

  datatype Op =
    | Adding(src: Pid, dst: Pid, c: Cid)                // __add_shared between its two increments
    | LockLoad(src: Pid, dst: Pid, c: Cid)              // lock, about to load the strong count
    | LockCas(src: Pid, dst: Pid, c: Cid, seen: nat)    // lock, about to compare and exchange
    | LockAdd(src: Pid, dst: Pid, c: Cid)               // lock, strong count raised, weak count not yet
    | CallDeleter(c: Cid, after: After)                 // the strong count went from one to zero
    | InDeleter(c: Cid, after: After)
    | ReleaseWeak(c: Cid, after: After)                 // about to lower the weak count
    | FreeCtrl(c: Cid, after: After)                    // the weak count went from one to zero
    | Finishing(after: After)

  datatype State = State(
    blocks: map<Cid, Block>,
    shared: map<Pid, Option<Cid>>,
    weak: map<Pid, Option<Cid>>,
    ops: map<Oid, Op>)

  /** Constructors: the aliasing constructors and pointer casts are copies or moves of the control block. */
  datatype MakeStep =
    | NewShared(dst: Pid, c: Cid)
    | NewEmptyShared(dst: Pid)
    | NewEmptyWeak(dst: Pid)
    | CopyBegin(o: Oid, src: Pid, dst: Pid)
    | MoveConstruct(src: Pid, dst: Pid)
    | WeakCopyConstruct(src: Pid, dst: Pid)
    | WeakFromSharedConstruct(src: Pid, dst: Pid)
    | WeakMoveConstruct(src: Pid, dst: Pid)

  /** Destructors, assignments and reset. */
  datatype ReleaseStep =
    | DropShared(o: Oid, p: Pid, after: After)
    | DropWeak(o: Oid, p: Pid, after: After)
    | DeleterStarts(o: Oid)
    | DeleterEnds(o: Oid)
    | SubWeakCount(o: Oid)
    | FreeBlock(o: Oid)
    | Finish(o: Oid)

  /** weak_ptr::lock, and the second increment it shares with __add_shared. */
  datatype LockStep =
    | LockBegin(o: Oid, src: Pid, dst: Pid)
    | LoadRef(o: Oid)
    | CasRef(o: Oid, spurious: bool)
    | AddWeakCount(o: Oid)

  datatype Step =
    | Make(make: MakeStep)
    | Release(release: ReleaseStep)
    | Lock(lock: LockStep)
    | UseCount(p: Pid)

  // ---------------------------------------------------------------------------------------------
  // Transitions
  // ---------------------------------------------------------------------------------------------

  // Addition and subtraction of one on an unsigned 64-bit counter.
  function Inc(x: nat): nat { if x + 1 == WORD then 0 else x + 1 }

  function Dec(x: nat): nat { if x == 0 then WORD - 1 else x - 1 }

  function AfterSource(a: After): Option<Pid> {
    match a
    case CopyShared(_, src) => Some(src)
    case MoveShared(_, src) => Some(src)
    case CopyWeak(_, src) => Some(src)
    case MoveWeak(_, src) => Some(src)
    case WeakFromShared(_, src) => Some(src)
    case _ => None
  }

  function AfterTarget(a: After): Option<Pid> {
    if a.Done? then None else Some(a.dst)
  }

  predicate Constructing(op: Op) { op.Adding? || op.LockLoad? || op.LockCas? || op.LockAdd? }

  /** The pointer object the operation still reads from. */
  function Borrowed(op: Op): Option<Pid> {
    if Constructing(op) then Some(op.src) else AfterSource(op.after)
  }

  /** The pointer object the operation is building. */
  function Target(op: Op): Option<Pid> {
    if Constructing(op) then Some(op.dst) else AfterTarget(op.after)
  }

  /** No operation other than `me` reads from `p`. */
  predicate NotBorrowed(s: State, p: Pid, me: Option<Oid>) {
    forall o :: o in s.ops && me != Some(o) ==> Borrowed(s.ops[o]) != Some(p)
  }

  predicate Unused(s: State, p: Pid) {
    && p !in s.shared && p !in s.weak
    && forall o :: o in s.ops ==> Target(s.ops[o]) != Some(p)
  }

  /** Pointer objects and operations occupy distinct memory, so fewer than 2^64 exist at a time. */
  predicate Room(s: State) { |s.shared| + |s.weak| + |s.ops| + 1 < WORD }

  predicate SharedAfter(s: State, p: Pid, a: After) {
    || a.Done?
    || (a.ResetShared? && a.dst == p)
    || ((a.CopyShared? || a.MoveShared?) && a.dst == p && a.src != p && a.src in s.shared)
  }

  predicate WeakAfter(s: State, p: Pid, a: After) {
    || a.Done?
    || (a.ResetWeak? && a.dst == p)
    || ((a.CopyWeak? || a.MoveWeak?) && a.dst == p && a.src != p && a.src in s.weak)
    || (a.WeakFromShared? && a.dst == p && a.src in s.shared)
  }

  /** The operation `o` is in flight and works on an existing control block. */
  predicate InFlight(s: State, o: Oid) {
    o in s.ops && !s.ops[o].Finishing? && s.ops[o].c in s.blocks
  }

  predicate Known(s: State, v: Option<Cid>) { v.Some? ==> v.value in s.blocks }

  predicate CanMake(s: State, step: MakeStep) {
    && Room(s) && Unused(s, step.dst)
    && match step
       case NewShared(_, c) => c !in s.blocks
       case NewEmptyShared(_) => true
       case NewEmptyWeak(_) => true
       case CopyBegin(o, src, _) => o !in s.ops && src in s.shared && Known(s, s.shared[src])
       case MoveConstruct(src, _) => src in s.shared && NotBorrowed(s, src, None)
       case WeakCopyConstruct(src, _) => src in s.weak && Known(s, s.weak[src])
       case WeakFromSharedConstruct(src, _) => src in s.shared && Known(s, s.shared[src])
       case WeakMoveConstruct(src, _) => src in s.weak && NotBorrowed(s, src, None)
  }

  predicate CanRelease(s: State, step: ReleaseStep) {
    match step
    case DropShared(o, p, after) =>
      o !in s.ops && p in s.shared && Known(s, s.shared[p]) && NotBorrowed(s, p, None) && SharedAfter(s, p, after)
    case DropWeak(o, p, after) =>
      o !in s.ops && p in s.weak && Known(s, s.weak[p]) && NotBorrowed(s, p, None) && WeakAfter(s, p, after)
    case DeleterStarts(o) => InFlight(s, o) && s.ops[o].CallDeleter?
    case DeleterEnds(o) => InFlight(s, o) && s.ops[o].InDeleter?
    case SubWeakCount(o) => InFlight(s, o) && s.ops[o].ReleaseWeak?
    case FreeBlock(o) => InFlight(s, o) && s.ops[o].FreeCtrl?
    case Finish(o) => o in s.ops && s.ops[o].Finishing? && CanFinish(s, o, s.ops[o].after)
  }

  predicate CanLock(s: State, step: LockStep) {
    match step
    case LockBegin(o, src, dst) =>
      Room(s) && o !in s.ops && src in s.weak && Known(s, s.weak[src]) && Unused(s, dst)
    case LoadRef(o) => InFlight(s, o) && s.ops[o].LockLoad?
    case CasRef(o, _) => InFlight(s, o) && s.ops[o].LockCas?
    case AddWeakCount(o) => InFlight(s, o) && (s.ops[o].Adding? || s.ops[o].LockAdd?)
  }

  predicate Enabled(s: State, step: Step) {
    match step
    case Make(m) => CanMake(s, m)
    case Release(r) => CanRelease(s, r)
    case Lock(l) => CanLock(s, l)
    case UseCount(p) => p in s.shared || p in s.weak
  }

  /** Moving out of the source needs it to be read by nobody else. */
  predicate CanFinish(s: State, o: Oid, a: After) {
    match a
    case CopyShared(_, src) => src in s.shared && Known(s, s.shared[src])
    case MoveShared(_, src) => src in s.shared && NotBorrowed(s, src, Some(o))
    case CopyWeak(_, src) => src in s.weak && Known(s, s.weak[src])
    case MoveWeak(_, src) => src in s.weak && NotBorrowed(s, src, Some(o))
    case WeakFromShared(_, src) => src in s.shared && Known(s, s.shared[src])
    case _ => true
  }

  function AddRef(s: State, c: Cid): State
    requires c in s.blocks
  {
    s.(blocks := s.blocks[c := s.blocks[c].(ref := Inc(s.blocks[c].ref))])
  }

  function AddWeak(s: State, c: Cid): State
    requires c in s.blocks
  {
    s.(blocks := s.blocks[c := s.blocks[c].(weak := Inc(s.blocks[c].weak))])
  }

  function SubRef(s: State, c: Cid): State
    requires c in s.blocks
  {
    s.(blocks := s.blocks[c := s.blocks[c].(ref := Dec(s.blocks[c].ref))])
  }

  function SubWeak(s: State, c: Cid): State
    requires c in s.blocks
  {
    s.(blocks := s.blocks[c := s.blocks[c].(weak := Dec(s.blocks[c].weak))])
  }

  function WithOp(s: State, o: Oid, op: Op): State { s.(ops := s.ops[o := op]) }

  function WithoutOp(s: State, o: Oid): State { s.(ops := s.ops - {o}) }

  function PutShared(s: State, p: Pid, v: Option<Cid>): State { s.(shared := s.shared[p := v]) }

  function PutWeak(s: State, p: Pid, v: Option<Cid>): State { s.(weak := s.weak[p := v]) }

  function WithoutShared(s: State, p: Pid): State { s.(shared := s.shared - {p}) }

  function WithoutWeak(s: State, p: Pid): State { s.(weak := s.weak - {p}) }

  function SetObject(s: State, c: Cid, obj: Object): State
    requires c in s.blocks
  {
    s.(blocks := s.blocks[c := s.blocks[c].(obj := obj)])
  }

  function SetFreed(s: State, c: Cid): State
    requires c in s.blocks
  {
    s.(blocks := s.blocks[c := s.blocks[c].(freed := true)])
  }

  /** __release_shared after its decrement: the last strong reference calls the deleter. */
  function DropSharedOp(s: State, p: Pid, after: After): Op
    requires p in s.shared && Known(s, s.shared[p])
  {
    match s.shared[p]
    case None => Finishing(after)
    case Some(c) => if s.blocks[c].ref == 1 then CallDeleter(c, after) else ReleaseWeak(c, after)
  }

  function DropWeakOp(s: State, p: Pid, after: After): Op
    requires p in s.weak
  {
    match s.weak[p]
    case None => Finishing(after)
    case Some(c) => ReleaseWeak(c, after)
  }

  /** __release_weak after its decrement: the last weak reference deletes the control block. */
  function SubWeakOp(s: State, c: Cid, after: After): Op
    requires c in s.blocks
  {
    if s.blocks[c].weak == 1 then FreeCtrl(c, after) else Finishing(after)
  }

  function AddWeakTo(s: State, v: Option<Cid>): State
    requires Known(s, v)
  {
    if v.Some? then AddWeak(s, v.value) else s
  }

  function FinishWith(s: State, o: Oid, a: After): State
    requires CanFinish(s, o, a)
  {
    match a
    case Done => WithoutOp(s, o)
    case ResetShared(dst) => PutShared(WithoutOp(s, o), dst, None)
    case CopyShared(dst, src) =>
      var v := s.shared[src];
      if v.None? then PutShared(WithoutOp(s, o), dst, None)
      else WithOp(AddRef(s, v.value), o, Adding(src, dst, v.value))
    case MoveShared(dst, src) =>
      PutShared(PutShared(WithoutOp(s, o), src, None), dst, s.shared[src])
    case ResetWeak(dst) => PutWeak(WithoutOp(s, o), dst, None)
    case CopyWeak(dst, src) => PutWeak(AddWeakTo(WithoutOp(s, o), s.weak[src]), dst, s.weak[src])
    case MoveWeak(dst, src) => PutWeak(PutWeak(WithoutOp(s, o), src, None), dst, s.weak[src])
    case WeakFromShared(dst, src) => PutWeak(AddWeakTo(WithoutOp(s, o), s.shared[src]), dst, s.shared[src])
  }

  function ApplyMake(s: State, step: MakeStep): State
    requires CanMake(s, step)
  {
    match step
    case NewShared(dst, c) => PutShared(s.(blocks := s.blocks[c := Block(1, 1, Alive, false)]), dst, Some(c))
    case NewEmptyShared(dst) => PutShared(s, dst, None)
    case NewEmptyWeak(dst) => PutWeak(s, dst, None)
    case CopyBegin(o, src, dst) =>
      var v := s.shared[src];
      if v.None? then PutShared(s, dst, None)
      else WithOp(AddRef(s, v.value), o, Adding(src, dst, v.value))
    case MoveConstruct(src, dst) => PutShared(PutShared(s, src, None), dst, s.shared[src])
    case WeakCopyConstruct(src, dst) => PutWeak(AddWeakTo(s, s.weak[src]), dst, s.weak[src])
    case WeakFromSharedConstruct(src, dst) => PutWeak(AddWeakTo(s, s.shared[src]), dst, s.shared[src])
    case WeakMoveConstruct(src, dst) => PutWeak(PutWeak(s, src, None), dst, s.weak[src])
  }

  function ApplyRelease(s: State, step: ReleaseStep): State
    requires CanRelease(s, step)
  {
    match step
    case DropShared(o, p, after) =>
      var s1 := WithoutShared(s, p);
      var v := s.shared[p];
      WithOp(if v.Some? then SubRef(s1, v.value) else s1, o, DropSharedOp(s, p, after))
    case DropWeak(o, p, after) => WithOp(WithoutWeak(s, p), o, DropWeakOp(s, p, after))
    case DeleterStarts(o) =>
      var op := s.ops[o];
      WithOp(SetObject(s, op.c, Dying), o, InDeleter(op.c, op.after))
    case DeleterEnds(o) =>
      var op := s.ops[o];
      WithOp(SetObject(s, op.c, Dead), o, ReleaseWeak(op.c, op.after))
    case SubWeakCount(o) =>
      var op := s.ops[o];
      WithOp(SubWeak(s, op.c), o, SubWeakOp(s, op.c, op.after))
    case FreeBlock(o) =>
      var op := s.ops[o];
      WithOp(SetFreed(s, op.c), o, Finishing(op.after))
    case Finish(o) => FinishWith(s, o, s.ops[o].after)
  }

  function ApplyLock(s: State, step: LockStep): State
    requires CanLock(s, step)
  {
    match step
    case LockBegin(o, src, dst) =>
      var v := s.weak[src];
      if v.None? then PutShared(s, dst, None) else WithOp(s, o, LockLoad(src, dst, v.value))
    case LoadRef(o) =>
      var op := s.ops[o];
      var seen := s.blocks[op.c].ref;
      if seen == 0 then PutShared(WithoutOp(s, o), op.dst, None)
      else WithOp(s, o, LockCas(op.src, op.dst, op.c, seen))
    case CasRef(o, spurious) =>
      var op := s.ops[o];
      if s.blocks[op.c].ref == op.seen && !spurious
      then WithOp(AddRef(s, op.c), o, LockAdd(op.src, op.dst, op.c))
      else WithOp(s, o, LockLoad(op.src, op.dst, op.c))
    case AddWeakCount(o) =>
      var op := s.ops[o];
      PutShared(WithoutOp(AddWeak(s, op.c), o), op.dst, Some(op.c))
  }

  function Apply(s: State, step: Step): State
    requires Enabled(s, step)
  {
    match step
    case Make(m) => ApplyMake(s, m)
    case Release(r) => ApplyRelease(s, r)
    case Lock(l) => ApplyLock(s, l)
    case UseCount(_) => s
  }

  function ValueOf(v: Option<Cid>): set<Cid> { if v.Some? then {v.value} else {} }

  function MakeTouches(s: State, step: MakeStep): set<Cid>
    requires CanMake(s, step)
  {
    match step
    case CopyBegin(_, src, _) => ValueOf(s.shared[src])
    case WeakCopyConstruct(src, _) => ValueOf(s.weak[src])
    case WeakFromSharedConstruct(src, _) => ValueOf(s.shared[src])
    case _ => {}
  }

  function ReleaseTouches(s: State, step: ReleaseStep): set<Cid>
    requires CanRelease(s, step)
  {
    match step
    case DropShared(_, p, _) => ValueOf(s.shared[p])
    case DropWeak(_, _, _) => {}
    case Finish(o) =>
      var a := s.ops[o].after;
      if a.CopyShared? || a.WeakFromShared? then ValueOf(s.shared[a.src])
      else if a.CopyWeak? then ValueOf(s.weak[a.src])
      else {}
    case _ => {s.ops[step.o].c}
  }

  /** The control blocks whose memory the step reads or writes. */
  function Touches(s: State, step: Step): set<Cid>
    requires Enabled(s, step)
  {
    match step
    case Make(m) => MakeTouches(s, m)
    case Release(r) => ReleaseTouches(s, r)
    case Lock(l) => if l.LockBegin? then {} else {s.ops[l.o].c}
    case UseCount(p) => ValueOf(if p in s.shared then s.shared[p] else s.weak[p])
  }

  // ---------------------------------------------------------------------------------------------
  // Accounting
  // ---------------------------------------------------------------------------------------------

  function One(b: bool): nat { if b then 1 else 0 }

  datatype Kind = RefHeld | ToDelete | Deleting | WeakHeld | ToFree | Other

  function KindOf(op: Op): Kind {
    match op
    case Adding(_, _, _) => RefHeld
    case LockAdd(_, _, _) => RefHeld
    case CallDeleter(_, _) => ToDelete
    case InDeleter(_, _) => Deleting
    case ReleaseWeak(_, _) => WeakHeld
    case FreeCtrl(_, _) => ToFree
    case _ => Other
  }

  predicate Is(op: Op, c: Cid, k: Kind) { !op.Finishing? && op.c == c && KindOf(op) == k }

  function HolderSet(m: map<Pid, Option<Cid>>, c: Cid): set<Pid> { set p | p in m && m[p] == Some(c) }

  function RunnerSet(ops: map<Oid, Op>, c: Cid, k: Kind): set<Oid> { set o | o in ops && Is(ops[o], c, k) }

  /** How many pointer objects of `m` hold control block `c`. */
  function Holders(m: map<Pid, Option<Cid>>, c: Cid): nat { |HolderSet(m, c)| }

  /** How many operations of kind `k` work on control block `c`. */
  function Tally(ops: map<Oid, Op>, c: Cid, k: Kind): nat { |RunnerSet(ops, c, k)| }

  /** The holders of one control block, by what they hold. */
  datatype Ledger = Ledger(
    shared: int, weak: int, adding: int, toDelete: int, deleting: int, releasing: int, toFree: int)

  function LedgerOf(s: State, c: Cid): Ledger {
    Ledger(Holders(s.shared, c), Holders(s.weak, c),
           Tally(s.ops, c, RefHeld), Tally(s.ops, c, ToDelete), Tally(s.ops, c, Deleting),
           Tally(s.ops, c, WeakHeld), Tally(s.ops, c, ToFree))
  }

  /** The counters of a control block say exactly who holds it. */
  predicate Balanced(b: Block, l: Ledger) {
    && b.ref == l.shared + l.adding
    && b.weak == l.shared + l.weak + l.toDelete + l.deleting + l.releasing
    && l.toDelete == One(b.ref == 0 && b.obj.Alive?)
    && l.deleting == One(b.obj.Dying?)
    && (!b.obj.Alive? ==> b.ref == 0)
    && l.toFree == One(b.weak == 0 && !b.freed)
    && (b.freed ==> b.weak == 0)
  }

  predicate BlockOk(s: State, c: Cid)
    requires c in s.blocks
  {
    Balanced(s.blocks[c], LedgerOf(s, c))
  }

  predicate OpOk(s: State, op: Op) {
    && (op.Adding? ==> op.src in s.shared && s.shared[op.src] == Some(op.c))
    && (op.LockLoad? || op.LockCas? || op.LockAdd? ==> op.src in s.weak && s.weak[op.src] == Some(op.c))
    && (op.LockCas? ==> op.seen > 0)
    && (!op.Finishing? ==> op.c in s.blocks)
    && (!Constructing(op) ==> AfterOk(s, op.after))
  }

  predicate AfterOk(s: State, a: After) {
    && (a.CopyShared? || a.MoveShared? || a.WeakFromShared? ==> a.src in s.shared)
    && (a.CopyWeak? || a.MoveWeak? ==> a.src in s.weak)
  }

  predicate OpsOk(s: State) { forall o :: o in s.ops ==> OpOk(s, s.ops[o]) }

  /** Pointer objects are exclusive: complete ones are not being built, and none is built twice. */
  predicate Exclusive(s: State) {
    && s.shared.Keys !! s.weak.Keys
    && (forall o :: o in s.ops && Target(s.ops[o]).Some? ==>
          Target(s.ops[o]).value !in s.shared && Target(s.ops[o]).value !in s.weak)
    && (forall o, q :: o in s.ops && q in s.ops && o != q && Target(s.ops[o]).Some? ==>
          Target(s.ops[o]) != Target(s.ops[q]))
  }

  predicate ValuesOk(s: State) {
    && (forall p :: p in s.shared ==> Known(s, s.shared[p]))
    && (forall p :: p in s.weak ==> Known(s, s.weak[p]))
  }

  predicate Small(s: State) { |s.shared| + |s.weak| + |s.ops| < WORD }

  predicate Inv(s: State) {
    && OpsOk(s) && Exclusive(s) && ValuesOk(s) && Small(s)
    && forall c :: c in s.blocks ==> BlockOk(s, c)
  }

  const Initial := State(map[], map[], map[], map[])

  // ---------------------------------------------------------------------------------------------
  // How the tallies move
  // ---------------------------------------------------------------------------------------------

  predicate Holds(m: map<Pid, Option<Cid>>, p: Pid, c: Cid) { p in m && m[p] == Some(c) }

  predicate Runs(ops: map<Oid, Op>, o: Oid, c: Cid, k: Kind) { o in ops && Is(ops[o], c, k) }

  lemma HoldersPut(m: map<Pid, Option<Cid>>, p: Pid, v: Option<Cid>, c: Cid)
    ensures Holders(m[p := v], c) == Holders(m, c) - One(Holds(m, p, c)) + One(v == Some(c))
  {
    var before := HolderSet(m, c);
    assert HolderSet(m[p := v], c) == if v == Some(c) then before + {p} else before - {p};
  }

  lemma HoldersDrop(m: map<Pid, Option<Cid>>, p: Pid, c: Cid)
    ensures Holders(m - {p}, c) == Holders(m, c) - One(Holds(m, p, c))
  {
    assert HolderSet(m - {p}, c) == HolderSet(m, c) - {p};
  }

  lemma TallyPut(ops: map<Oid, Op>, o: Oid, op: Op, c: Cid, k: Kind)
    ensures Tally(ops[o := op], c, k) == Tally(ops, c, k) - One(Runs(ops, o, c, k)) + One(Is(op, c, k))
  {
    var before := RunnerSet(ops, c, k);
    assert RunnerSet(ops[o := op], c, k) == if Is(op, c, k) then before + {o} else before - {o};
  }

  lemma TallyDrop(ops: map<Oid, Op>, o: Oid, c: Cid, k: Kind)
    ensures Tally(ops - {o}, c, k) == Tally(ops, c, k) - One(Runs(ops, o, c, k))
  {
    assert RunnerSet(ops - {o}, c, k) == RunnerSet(ops, c, k) - {o};
  }

  lemma DropSize<T>(m: map<nat, T>, p: nat)
    ensures |m - {p}| == |m| - One(p in m)
  {
    assert (m - {p}).Keys == m.Keys - {p};
    assert |m| == |m.Keys| && |m - {p}| == |(m - {p}).Keys|;
  }

  lemma SubsetSize<T>(a: set<T>, b: set<T>)
    requires a <= b
    ensures |a| <= |b|
  {
    assert b == a + (b - a);
  }

  /** A pointer object holds one block, and an operation is of one kind, so the counts stay small. */
  lemma CountsAreSmall(s: State, c: Cid)
    ensures Holders(s.shared, c) <= |s.shared| && Holders(s.weak, c) <= |s.weak|
    ensures Tally(s.ops, c, RefHeld) <= |s.ops|
    ensures Tally(s.ops, c, ToDelete) + Tally(s.ops, c, Deleting) + Tally(s.ops, c, WeakHeld) <= |s.ops|
  {
    SubsetSize(HolderSet(s.shared, c), s.shared.Keys);
    SubsetSize(HolderSet(s.weak, c), s.weak.Keys);
    SubsetSize(RunnerSet(s.ops, c, RefHeld), s.ops.Keys);
    var d, e, w := RunnerSet(s.ops, c, ToDelete), RunnerSet(s.ops, c, Deleting), RunnerSet(s.ops, c, WeakHeld);
    SubsetSize(d + e + w, s.ops.Keys);
    assert |d + e + w| == |d| + |e| + |w|;
  }

  lemma HolderCounts(m: map<Pid, Option<Cid>>, p: Pid, c: Cid)
    requires Holds(m, p, c)
    ensures Holders(m, c) >= 1
  {
    assert p in HolderSet(m, c);
  }

  lemma RunnerCounts(ops: map<Oid, Op>, o: Oid, c: Cid, k: Kind)
    requires Runs(ops, o, c, k)
    ensures Tally(ops, c, k) >= 1
  {
    assert o in RunnerSet(ops, c, k);
  }

  // ---------------------------------------------------------------------------------------------
  // Every step keeps the invariant
  // ---------------------------------------------------------------------------------------------

  predicate Shape(s: State) { OpsOk(s) && Exclusive(s) && ValuesOk(s) && Small(s) }

  predicate TargetFree(s: State, op: Op) { Target(op).Some? ==> Unused(s, Target(op).value) }

  lemma BlocksShape(s: State, blocks: map<Cid, Block>)
    requires Shape(s) && s.blocks.Keys <= blocks.Keys
    ensures Shape(s.(blocks := blocks))
  {
  }

  lemma PutSharedShape(s: State, p: Pid, v: Option<Cid>)
    requires Shape(s) && Known(s, v) && Unused(s, p) && Room(s)
    ensures Shape(PutShared(s, p, v))
  {
  }

  lemma PutWeakShape(s: State, p: Pid, v: Option<Cid>)
    requires Shape(s) && Known(s, v) && Unused(s, p) && Room(s)
    ensures Shape(PutWeak(s, p, v))
  {
  }

  lemma ClearSharedShape(s: State, p: Pid)
    requires Shape(s) && p in s.shared && NotBorrowed(s, p, None)
    ensures Shape(PutShared(s, p, None))
  {
  }

  lemma ClearWeakShape(s: State, p: Pid)
    requires Shape(s) && p in s.weak && NotBorrowed(s, p, None)
    ensures Shape(PutWeak(s, p, None))
  {
  }

  lemma DropSharedShape(s: State, p: Pid)
    requires Shape(s) && p in s.shared && NotBorrowed(s, p, None)
    ensures Shape(WithoutShared(s, p)) && Unused(WithoutShared(s, p), p)
    ensures Room(WithoutShared(s, p))
  {
    DropSize(s.shared, p);
  }

  lemma DropWeakShape(s: State, p: Pid)
    requires Shape(s) && p in s.weak && NotBorrowed(s, p, None)
    ensures Shape(WithoutWeak(s, p)) && Unused(WithoutWeak(s, p), p)
    ensures Room(WithoutWeak(s, p))
  {
    DropSize(s.weak, p);
  }

  lemma NewOpShape(s: State, o: Oid, op: Op)
    requires Shape(s) && o !in s.ops && OpOk(s, op) && TargetFree(s, op) && Room(s)
    ensures Shape(WithOp(s, o, op))
  {
  }

  lemma ChangeOpShape(s: State, o: Oid, op: Op)
    requires Shape(s) && o in s.ops && OpOk(s, op) && Target(op) == Target(s.ops[o])
    ensures Shape(WithOp(s, o, op))
  {
  }

  lemma DropOpShape(s: State, o: Oid)
    requires Shape(s) && o in s.ops
    ensures Shape(WithoutOp(s, o)) && TargetFree(WithoutOp(s, o), s.ops[o]) && Room(WithoutOp(s, o))
  {
    DropSize(s.ops, o);
  }

  lemma ShapeAfterFinishShared(s: State, o: Oid, a: After)
    requires Shape(s) && o in s.ops && s.ops[o] == Finishing(a) && CanFinish(s, o, a)
    requires a.ResetShared? || a.CopyShared? || a.MoveShared?
    ensures Shape(FinishWith(s, o, a))
  {
    var t := WithoutOp(s, o);
    DropOpShape(s, o);
    match a {
      case ResetShared(dst) => PutSharedShape(t, dst, None);
      case CopyShared(dst, src) =>
        if s.shared[src].None? {
          PutSharedShape(t, dst, None);
        } else {
          var c := s.shared[src].value;
          BlocksShape(s, AddRef(s, c).blocks);
          ChangeOpShape(AddRef(s, c), o, Adding(src, dst, c));
        }
      case MoveShared(dst, src) =>
        ClearSharedShape(t, src);
        PutSharedShape(PutShared(t, src, None), dst, s.shared[src]);
    }
  }

  lemma ShapeAfterFinish(s: State, o: Oid, a: After)
    requires Shape(s) && o in s.ops && s.ops[o] == Finishing(a) && CanFinish(s, o, a)
    ensures Shape(FinishWith(s, o, a))
  {
    var t := WithoutOp(s, o);
    DropOpShape(s, o);
    match a {
      case Done =>
      case ResetWeak(dst) => PutWeakShape(t, dst, None);
      case CopyWeak(dst, src) =>
        BlocksShape(t, AddWeakTo(t, s.weak[src]).blocks);
        PutWeakShape(AddWeakTo(t, s.weak[src]), dst, s.weak[src]);
      case MoveWeak(dst, src) =>
        ClearWeakShape(t, src);
        PutWeakShape(PutWeak(t, src, None), dst, s.weak[src]);
      case WeakFromShared(dst, src) =>
        BlocksShape(t, AddWeakTo(t, s.shared[src]).blocks);
        PutWeakShape(AddWeakTo(t, s.shared[src]), dst, s.shared[src]);
      case _ => ShapeAfterFinishShared(s, o, a);
    }
  }

  lemma ShapeAfterMake(s: State, step: MakeStep)
    requires Shape(s) && CanMake(s, step)
    ensures Shape(ApplyMake(s, step))
  {
    match step {
      case NewShared(dst, c) =>
        var blocks := s.blocks[c := Block(1, 1, Alive, false)];
        BlocksShape(s, blocks);
        PutSharedShape(s.(blocks := blocks), dst, Some(c));
      case NewEmptyShared(dst) => PutSharedShape(s, dst, None);
      case NewEmptyWeak(dst) => PutWeakShape(s, dst, None);
      case CopyBegin(o, src, dst) =>
        if s.shared[src].None? {
          PutSharedShape(s, dst, None);
        } else {
          var c := s.shared[src].value;
          BlocksShape(s, AddRef(s, c).blocks);
          NewOpShape(AddRef(s, c), o, Adding(src, dst, c));
        }
      case MoveConstruct(src, dst) =>
        ClearSharedShape(s, src);
        PutSharedShape(PutShared(s, src, None), dst, s.shared[src]);
      case WeakCopyConstruct(src, dst) =>
        BlocksShape(s, AddWeakTo(s, s.weak[src]).blocks);
        PutWeakShape(AddWeakTo(s, s.weak[src]), dst, s.weak[src]);
      case WeakFromSharedConstruct(src, dst) =>
        BlocksShape(s, AddWeakTo(s, s.shared[src]).blocks);
        PutWeakShape(AddWeakTo(s, s.shared[src]), dst, s.shared[src]);
      case WeakMoveConstruct(src, dst) =>
        ClearWeakShape(s, src);
        PutWeakShape(PutWeak(s, src, None), dst, s.weak[src]);
    }
  }

  lemma ShapeWithBlock(s: State, c: Cid, b: Block, o: Oid, op: Op)
    requires Shape(s) && c in s.blocks && o in s.ops && OpOk(s, op) && Target(op) == Target(s.ops[o])
    ensures Shape(WithOp(s.(blocks := s.blocks[c := b]), o, op))
  {
    BlocksShape(s, s.blocks[c := b]);
    ChangeOpShape(s.(blocks := s.blocks[c := b]), o, op);
  }

  lemma ShapeAfterDropShared(s: State, o: Oid, p: Pid, blocks: map<Cid, Block>, op: Op)
    requires Shape(s) && o !in s.ops && p in s.shared && NotBorrowed(s, p, None) && s.blocks.Keys <= blocks.Keys
    requires !Constructing(op) && SharedAfter(s, p, op.after) && (op.Finishing? || op.c in s.blocks)
    ensures Shape(WithOp(WithoutShared(s, p).(blocks := blocks), o, op))
  {
    DropSharedShape(s, p);
    BlocksShape(WithoutShared(s, p), blocks);
    NewOpShape(WithoutShared(s, p).(blocks := blocks), o, op);
  }

  lemma ShapeAfterDropWeak(s: State, o: Oid, p: Pid, op: Op)
    requires Shape(s) && o !in s.ops && p in s.weak && NotBorrowed(s, p, None)
    requires !Constructing(op) && WeakAfter(s, p, op.after) && (op.Finishing? || op.c in s.blocks)
    ensures Shape(WithOp(WithoutWeak(s, p), o, op))
  {
    DropWeakShape(s, p);
    NewOpShape(WithoutWeak(s, p), o, op);
  }

  lemma ShapeAfterRelease(s: State, step: ReleaseStep)
    requires Shape(s) && CanRelease(s, step)
    ensures Shape(ApplyRelease(s, step))
  {
    if step.DropShared? {
      var t := ApplyRelease(s, step);
      ShapeAfterDropShared(s, step.o, step.p, t.blocks, t.ops[step.o]);
    } else if step.DropWeak? {
      ShapeAfterDropWeak(s, step.o, step.p, DropWeakOp(s, step.p, step.after));
    } else if step.Finish? {
      ShapeAfterFinish(s, step.o, s.ops[step.o].after);
    } else {
      var c, t := s.ops[step.o].c, ApplyRelease(s, step);
      ShapeWithBlock(s, c, t.blocks[c], step.o, t.ops[step.o]);
    }
  }

  lemma ShapeAfterCas(s: State, o: Oid, spurious: bool)
    requires Shape(s) && CanLock(s, CasRef(o, spurious))
    ensures Shape(ApplyLock(s, CasRef(o, spurious)))
  {
    var op := s.ops[o];
    if s.blocks[op.c].ref == op.seen && !spurious {
      ShapeWithBlock(s, op.c, AddRef(s, op.c).blocks[op.c], o, LockAdd(op.src, op.dst, op.c));
    } else {
      ChangeOpShape(s, o, LockLoad(op.src, op.dst, op.c));
    }
  }

  lemma ShapeAfterLock(s: State, step: LockStep)
    requires Shape(s) && CanLock(s, step)
    ensures Shape(ApplyLock(s, step))
  {
    match step {
      case LockBegin(o, src, dst) =>
        if s.weak[src].None? {
          PutSharedShape(s, dst, None);
        } else {
          NewOpShape(s, o, LockLoad(src, dst, s.weak[src].value));
        }
      case LoadRef(o) =>
        var op := s.ops[o];
        if s.blocks[op.c].ref == 0 {
          DropOpShape(s, o);
          PutSharedShape(WithoutOp(s, o), op.dst, None);
        } else {
          ChangeOpShape(s, o, LockCas(op.src, op.dst, op.c, s.blocks[op.c].ref));
        }
      case CasRef(o, spurious) =>
        ShapeAfterCas(s, o, spurious);
      case AddWeakCount(o) =>
        var op := s.ops[o];
        DropOpShape(s, o);
        BlocksShape(WithoutOp(s, o), AddWeak(s, op.c).blocks);
        PutSharedShape(WithoutOp(AddWeak(s, op.c), o), op.dst, Some(op.c));
    }
  }

  // ---------------------------------------------------------------------------------------------
  // Every step keeps the accounts of every control block
  // ---------------------------------------------------------------------------------------------

  function Plus(l: Ledger, op: Op, c: Cid): Ledger {
    Ledger(l.shared, l.weak,
           l.adding + One(Is(op, c, RefHeld)), l.toDelete + One(Is(op, c, ToDelete)),
           l.deleting + One(Is(op, c, Deleting)), l.releasing + One(Is(op, c, WeakHeld)),
           l.toFree + One(Is(op, c, ToFree)))
  }

  function Minus(l: Ledger, op: Op, c: Cid): Ledger {
    Ledger(l.shared, l.weak,
           l.adding - One(Is(op, c, RefHeld)), l.toDelete - One(Is(op, c, ToDelete)),
           l.deleting - One(Is(op, c, Deleting)), l.releasing - One(Is(op, c, WeakHeld)),
           l.toFree - One(Is(op, c, ToFree)))
  }

  lemma LedgerPutShared(s: State, p: Pid, v: Option<Cid>, c: Cid)
    ensures LedgerOf(PutShared(s, p, v), c) ==
            LedgerOf(s, c).(shared := Holders(s.shared, c) - One(Holds(s.shared, p, c)) + One(v == Some(c)))
  {
    HoldersPut(s.shared, p, v, c);
  }

  lemma LedgerPutWeak(s: State, p: Pid, v: Option<Cid>, c: Cid)
    ensures LedgerOf(PutWeak(s, p, v), c) ==
            LedgerOf(s, c).(weak := Holders(s.weak, c) - One(Holds(s.weak, p, c)) + One(v == Some(c)))
  {
    HoldersPut(s.weak, p, v, c);
  }

  lemma LedgerNewOp(s: State, o: Oid, op: Op, c: Cid)
    requires o !in s.ops
    ensures LedgerOf(WithOp(s, o, op), c) == Plus(LedgerOf(s, c), op, c)
  {
    TallyPut(s.ops, o, op, c, RefHeld);
    TallyPut(s.ops, o, op, c, ToDelete);
    TallyPut(s.ops, o, op, c, Deleting);
    TallyPut(s.ops, o, op, c, WeakHeld);
    TallyPut(s.ops, o, op, c, ToFree);
  }

  lemma LedgerDropOp(s: State, o: Oid, c: Cid)
    requires o in s.ops
    ensures LedgerOf(WithoutOp(s, o), c) == Minus(LedgerOf(s, c), s.ops[o], c)
  {
    TallyDrop(s.ops, o, c, RefHeld);
    TallyDrop(s.ops, o, c, ToDelete);
    TallyDrop(s.ops, o, c, Deleting);
    TallyDrop(s.ops, o, c, WeakHeld);
    TallyDrop(s.ops, o, c, ToFree);
  }

  lemma LedgerChangeOp(s: State, o: Oid, op: Op, c: Cid)
    requires o in s.ops
    ensures LedgerOf(WithOp(s, o, op), c) == Plus(Minus(LedgerOf(s, c), s.ops[o], c), op, c)
  {
    LedgerDropOp(s, o, c);
    LedgerNewOp(WithoutOp(s, o), o, op, c);
    assert WithOp(WithoutOp(s, o), o, op) == WithOp(s, o, op);
  }

  /** Because pointer objects and operations number fewer than 2^64, no counter ever wraps. */
  lemma NoWrap(s: State, c: Cid)
    requires Small(s)
    ensures var l := LedgerOf(s, c);
            && 0 <= l.shared + l.adding < WORD
            && 0 <= l.shared + l.weak + l.toDelete + l.deleting + l.releasing < WORD
  {
    CountsAreSmall(s, c);
  }

  lemma AccountsAfterNew(s: State, dst: Pid, n: Cid, c: Cid)
    requires Inv(s) && dst !in s.shared && n !in s.blocks && c in s.blocks.Keys + {n}
    ensures BlockOk(PutShared(s.(blocks := s.blocks[n := Block(1, 1, Alive, false)]), dst, Some(n)), c)
  {
    var t := s.(blocks := s.blocks[n := Block(1, 1, Alive, false)]);
    LedgerPutShared(t, dst, Some(n), c);
    if c == n {
      assert HolderSet(s.shared, n) == {} && HolderSet(s.weak, n) == {};
      forall k ensures Tally(s.ops, n, k) == 0 {
        assert RunnerSet(s.ops, n, k) == {};
      }
    } else {
      assert BlockOk(s, c) && LedgerOf(t, c) == LedgerOf(s, c);
    }
  }

  lemma AccountsAfterAddRef(s: State, o: Oid, op: Op, c: Cid)
    requires op.Adding? || op.LockAdd?
    requires op.c in s.blocks && c in s.blocks && BlockOk(s, c)
    requires o !in s.ops || Is(s.ops[o], c, Other) || s.ops[o].Finishing? || s.ops[o].c != c
    requires s.blocks[op.c].ref != 0 && s.blocks[op.c].obj.Alive?
    requires Small(WithOp(AddRef(s, op.c), o, op))
    ensures BlockOk(WithOp(AddRef(s, op.c), o, op), c)
  {
    var t := WithOp(AddRef(s, op.c), o, op);
    NoWrap(t, c);
    if o in s.ops { LedgerChangeOp(s, o, op, c); } else { LedgerNewOp(s, o, op, c); }
    assert LedgerOf(t, c) == LedgerOf(WithOp(s, o, op), c);
  }

  lemma AccountsAfterSubRef(s: State, o: Oid, p: Pid, after: After, c: Cid)
    requires o !in s.ops && p in s.shared && s.shared[p].Some? && s.shared[p].value in s.blocks
    requires c in s.blocks && BlockOk(s, c)
    ensures BlockOk(WithOp(SubRef(WithoutShared(s, p), s.shared[p].value), o, DropSharedOp(s, p, after)), c)
  {
    var s1 := WithoutShared(s, p);
    var op := DropSharedOp(s, p, after);
    HoldersDrop(s.shared, p, c);
    LedgerNewOp(s1, o, op, c);
    assert LedgerOf(WithOp(SubRef(s1, s.shared[p].value), o, op), c) == LedgerOf(WithOp(s1, o, op), c);
    if s.shared[p] == Some(c) { HolderCounts(s.shared, p, c); }
  }

  lemma AccountsAfterDropEmpty(s: State, o: Oid, p: Pid, after: After, c: Cid)
    requires o !in s.ops && p in s.shared && s.shared[p].None?
    requires c in s.blocks && BlockOk(s, c)
    ensures BlockOk(WithOp(WithoutShared(s, p), o, DropSharedOp(s, p, after)), c)
  {
    HoldersDrop(s.shared, p, c);
    LedgerNewOp(WithoutShared(s, p), o, Finishing(after), c);
  }

  lemma AccountsAfterDropWeak(s: State, o: Oid, p: Pid, after: After, c: Cid)
    requires o !in s.ops && p in s.weak
    requires c in s.blocks && BlockOk(s, c)
    ensures BlockOk(WithOp(WithoutWeak(s, p), o, DropWeakOp(s, p, after)), c)
  {
    HoldersDrop(s.weak, p, c);
    LedgerNewOp(WithoutWeak(s, p), o, DropWeakOp(s, p, after), c);
  }

  /** The new pointer object holds what the operation held. */
  lemma LedgerAfterAddWeakCount(s: State, o: Oid, op: Op, c: Cid)
    requires o in s.ops && s.ops[o] == op && (op.Adding? || op.LockAdd?) && op.dst !in s.shared && op.c in s.blocks
    ensures var t := PutShared(WithoutOp(AddWeak(s, op.c), o), op.dst, Some(op.c)); var one := One(op.c == c);
            LedgerOf(t, c) == LedgerOf(s, c).(shared := LedgerOf(s, c).shared + one, adding := LedgerOf(s, c).adding - one)
  {
    LedgerDropOp(s, o, c);
    LedgerPutShared(WithoutOp(s, o), op.dst, Some(op.c), c);
    assert LedgerOf(PutShared(WithoutOp(AddWeak(s, op.c), o), op.dst, Some(op.c)), c) ==
           LedgerOf(PutShared(WithoutOp(s, o), op.dst, Some(op.c)), c);
  }

  lemma AccountsAfterAddWeakCount(s: State, o: Oid, c: Cid)
    requires o in s.ops && (s.ops[o].Adding? || s.ops[o].LockAdd?) && s.ops[o].c in s.blocks
    requires OpOk(s, s.ops[o]) && s.ops[o].dst !in s.shared
    requires c in s.blocks && BlockOk(s, c)
    requires var op := s.ops[o]; Small(PutShared(WithoutOp(AddWeak(s, op.c), o), op.dst, Some(op.c)))
    ensures var op := s.ops[o]; BlockOk(PutShared(WithoutOp(AddWeak(s, op.c), o), op.dst, Some(op.c)), c)
  {
    var op := s.ops[o];
    LedgerAfterAddWeakCount(s, o, op, c);
    NoWrap(PutShared(WithoutOp(AddWeak(s, op.c), o), op.dst, Some(op.c)), c);
    if op.Adding? { HolderCounts(s.shared, op.src, op.c); } else { HolderCounts(s.weak, op.src, op.c); }
  }

  lemma AccountsAfterAddWeakTo(s: State, dst: Pid, v: Option<Cid>, c: Cid)
    requires Known(s, v) && dst !in s.weak && c in s.blocks && BlockOk(s, c)
    requires v.Some? ==> s.blocks[v.value].weak != 0
    requires Small(PutWeak(AddWeakTo(s, v), dst, v))
    ensures BlockOk(PutWeak(AddWeakTo(s, v), dst, v), c)
  {
    var t := PutWeak(AddWeakTo(s, v), dst, v);
    NoWrap(t, c);
    LedgerPutWeak(s, dst, v, c);
    assert LedgerOf(t, c) == LedgerOf(PutWeak(s, dst, v), c);
  }

  lemma AccountsAfterDeleterStarts(s: State, o: Oid, c: Cid)
    requires o in s.ops && s.ops[o].CallDeleter? && s.ops[o].c in s.blocks
    requires c in s.blocks && BlockOk(s, c)
    ensures var op := s.ops[o]; BlockOk(WithOp(SetObject(s, op.c, Dying), o, InDeleter(op.c, op.after)), c)
  {
    var op := s.ops[o];
    var now := InDeleter(op.c, op.after);
    LedgerChangeOp(s, o, now, c);
    assert LedgerOf(WithOp(SetObject(s, op.c, Dying), o, now), c) == LedgerOf(WithOp(s, o, now), c);
    RunnerCounts(s.ops, o, op.c, ToDelete);
  }

  lemma AccountsAfterDeleterEnds(s: State, o: Oid, c: Cid)
    requires o in s.ops && s.ops[o].InDeleter? && s.ops[o].c in s.blocks
    requires c in s.blocks && BlockOk(s, c)
    ensures var op := s.ops[o]; BlockOk(WithOp(SetObject(s, op.c, Dead), o, ReleaseWeak(op.c, op.after)), c)
  {
    var op := s.ops[o];
    var now := ReleaseWeak(op.c, op.after);
    LedgerChangeOp(s, o, now, c);
    assert LedgerOf(WithOp(SetObject(s, op.c, Dead), o, now), c) == LedgerOf(WithOp(s, o, now), c);
    RunnerCounts(s.ops, o, op.c, Deleting);
  }

  lemma AccountsAfterSubWeak(s: State, o: Oid, c: Cid)
    requires o in s.ops && s.ops[o].ReleaseWeak? && s.ops[o].c in s.blocks
    requires c in s.blocks && BlockOk(s, c) && BlockOk(s, s.ops[o].c)
    ensures var op := s.ops[o]; BlockOk(WithOp(SubWeak(s, op.c), o, SubWeakOp(s, op.c, op.after)), c)
  {
    var op := s.ops[o];
    var now := SubWeakOp(s, op.c, op.after);
    LedgerChangeOp(s, o, now, c);
    assert LedgerOf(WithOp(SubWeak(s, op.c), o, now), c) == LedgerOf(WithOp(s, o, now), c);
    RunnerCounts(s.ops, o, op.c, WeakHeld);
  }

  lemma AccountsAfterFree(s: State, o: Oid, c: Cid)
    requires o in s.ops && s.ops[o].FreeCtrl? && s.ops[o].c in s.blocks
    requires c in s.blocks && BlockOk(s, c)
    ensures var op := s.ops[o]; BlockOk(WithOp(SetFreed(s, op.c), o, Finishing(op.after)), c)
  {
    var op := s.ops[o];
    var now := Finishing(op.after);
    LedgerChangeOp(s, o, now, c);
    assert LedgerOf(WithOp(SetFreed(s, op.c), o, now), c) == LedgerOf(WithOp(s, o, now), c);
    RunnerCounts(s.ops, o, op.c, ToFree);
  }

  lemma AccountsAfterMove(m: map<Pid, Option<Cid>>, src: Pid, dst: Pid, c: Cid)
    requires src in m && dst !in m
    ensures Holders(m[src := None][dst := m[src]], c) == Holders(m, c)
  {
    HoldersPut(m, src, None, c);
    HoldersPut(m[src := None], dst, m[src], c);
  }

  /** A pointer object that holds a block keeps its counts positive, and a strong one its object alive. */
  lemma HeldBlock(s: State, p: Pid, c: Cid)
    requires Inv(s)
    requires Holds(s.shared, p, c) || Holds(s.weak, p, c)
    ensures c in s.blocks && s.blocks[c].weak > 0 && !s.blocks[c].freed
    ensures Holds(s.shared, p, c) ==> s.blocks[c].ref > 0 && s.blocks[c].obj.Alive?
  {
    if Holds(s.shared, p, c) { HolderCounts(s.shared, p, c); } else { HolderCounts(s.weak, p, c); }
    assert BlockOk(s, c);
  }

  /** A block that may be copied from: it is held, and by a strong pointer if a strong one is to be made. */
  predicate CanCopy(s: State, v: Option<Cid>, strong: bool) {
    v.Some? ==>
      && v.value in s.blocks && s.blocks[v.value].weak != 0
      && (strong ==> s.blocks[v.value].ref != 0 && s.blocks[v.value].obj.Alive?)
  }

  lemma CopySource(s: State, p: Pid)
    requires Inv(s)
    ensures p in s.shared ==> CanCopy(s, s.shared[p], true)
    ensures p in s.weak ==> CanCopy(s, s.weak[p], false)
  {
    if p in s.shared && s.shared[p].Some? { HeldBlock(s, p, s.shared[p].value); }
    if p in s.weak && s.weak[p].Some? { HeldBlock(s, p, s.weak[p].value); }
  }

  lemma AccountsAfterPutShared(s: State, dst: Pid, c: Cid)
    requires dst !in s.shared && c in s.blocks && BlockOk(s, c)
    ensures BlockOk(PutShared(s, dst, None), c)
  {
    LedgerPutShared(s, dst, None, c);
  }

  lemma AccountsAfterPutWeak(s: State, dst: Pid, c: Cid)
    requires dst !in s.weak && c in s.blocks && BlockOk(s, c)
    ensures BlockOk(PutWeak(s, dst, None), c)
  {
    LedgerPutWeak(s, dst, None, c);
  }

  lemma AccountsAfterMoveShared(s: State, src: Pid, dst: Pid, c: Cid)
    requires src in s.shared && dst !in s.shared && c in s.blocks && BlockOk(s, c)
    ensures BlockOk(PutShared(PutShared(s, src, None), dst, s.shared[src]), c)
  {
    AccountsAfterMove(s.shared, src, dst, c);
  }

  lemma AccountsAfterMoveWeak(s: State, src: Pid, dst: Pid, c: Cid)
    requires src in s.weak && dst !in s.weak && c in s.blocks && BlockOk(s, c)
    ensures BlockOk(PutWeak(PutWeak(s, src, None), dst, s.weak[src]), c)
  {
    AccountsAfterMove(s.weak, src, dst, c);
  }

  /** Ending an operation that holds nothing leaves every account as it was. */
  lemma EndedOp(s: State, o: Oid, c: Cid)
    requires o in s.ops && (s.ops[o].Finishing? || KindOf(s.ops[o]).Other?)
    ensures LedgerOf(WithoutOp(s, o), c) == LedgerOf(s, c)
  {
    LedgerDropOp(s, o, c);
  }

  lemma InvWithoutOp(s: State, o: Oid)
    requires Inv(s) && o in s.ops && s.ops[o].Finishing?
    ensures Inv(WithoutOp(s, o))
  {
    DropOpShape(s, o);
    forall c | c in s.blocks ensures BlockOk(WithoutOp(s, o), c) {
      EndedOp(s, o, c);
      assert BlockOk(s, c);
    }
  }

  lemma EndedAccount(s: State, o: Oid, c: Cid)
    requires o in s.ops && s.ops[o].Finishing? && c in s.blocks && BlockOk(s, c)
    ensures BlockOk(WithoutOp(s, o), c)
  {
    EndedOp(s, o, c);
  }

  /** What ending an assignment builds on: its target is still absent, and its source holds what it held. */
  predicate FinishOk(s: State, a: After) {
    && (AfterTarget(a).Some? ==> a.dst !in s.shared && a.dst !in s.weak)
    && (a.CopyShared? ==> a.src in s.shared && CanCopy(s, s.shared[a.src], true))
    && (a.WeakFromShared? ==> a.src in s.shared && CanCopy(s, s.shared[a.src], false))
    && (a.CopyWeak? ==> a.src in s.weak && CanCopy(s, s.weak[a.src], false))
  }

  lemma FinishIsOk(s: State, o: Oid, a: After)
    requires Inv(s) && o in s.ops && s.ops[o] == Finishing(a) && CanFinish(s, o, a)
    ensures FinishOk(s, a)
  {
    assert Target(s.ops[o]) == AfterTarget(a);
    if AfterSource(a).Some? { CopySource(s, AfterSource(a).value); }
  }

  lemma AccountsAfterFinishShared(s: State, o: Oid, a: After, c: Cid)
    requires o in s.ops && s.ops[o] == Finishing(a) && CanFinish(s, o, a) && FinishOk(s, a)
    requires c in s.blocks && BlockOk(s, c) && Small(FinishWith(s, o, a))
    requires a.ResetShared? || a.CopyShared? || a.MoveShared?
    ensures BlockOk(FinishWith(s, o, a), c)
  {
    var t := WithoutOp(s, o);
    EndedAccount(s, o, c);
    if a.MoveShared? {
      AccountsAfterMoveShared(t, a.src, a.dst, c);
    } else if a.CopyShared? && s.shared[a.src].Some? {
      AccountsAfterAddRef(s, o, Adding(a.src, a.dst, s.shared[a.src].value), c);
    } else {
      AccountsAfterPutShared(t, a.dst, c);
    }
  }

  lemma AccountsAfterFinishWeak(s: State, o: Oid, a: After, c: Cid)
    requires o in s.ops && s.ops[o] == Finishing(a) && CanFinish(s, o, a) && FinishOk(s, a)
    requires c in s.blocks && BlockOk(s, c) && Small(FinishWith(s, o, a))
    requires a.ResetWeak? || a.CopyWeak? || a.MoveWeak? || a.WeakFromShared?
    ensures BlockOk(FinishWith(s, o, a), c)
  {
    var t := WithoutOp(s, o);
    EndedAccount(s, o, c);
    if a.MoveWeak? {
      AccountsAfterMoveWeak(t, a.src, a.dst, c);
    } else if a.ResetWeak? {
      AccountsAfterPutWeak(t, a.dst, c);
    } else {
      AccountsAfterAddWeakTo(t, a.dst, if a.CopyWeak? then s.weak[a.src] else s.shared[a.src], c);
    }
  }

  lemma AccountsAfterLoad(s: State, o: Oid, c: Cid)
    requires o in s.ops && s.ops[o].LockLoad? && s.ops[o].dst !in s.shared
    requires c in s.blocks && BlockOk(s, c)
    ensures BlockOk(PutShared(WithoutOp(s, o), s.ops[o].dst, None), c)
  {
    EndedOp(s, o, c);
    LedgerPutShared(WithoutOp(s, o), s.ops[o].dst, None, c);
  }

  /** Between two operations that hold nothing, no account moves. */
  lemma AccountsAfterRetry(s: State, o: Oid, op: Op, c: Cid)
    requires KindOf(op).Other? && (o in s.ops ==> KindOf(s.ops[o]).Other?)
    requires c in s.blocks && BlockOk(s, c)
    ensures BlockOk(WithOp(s, o, op), c)
  {
    if o in s.ops { LedgerChangeOp(s, o, op, c); } else { LedgerNewOp(s, o, op, c); }
  }

  lemma AccountsAfterCopy(s: State, step: MakeStep, c: Cid)
    requires CanMake(s, step) && c in s.blocks && BlockOk(s, c) && Small(ApplyMake(s, step)) && Inv(s)
    requires step.CopyBegin? || step.WeakCopyConstruct? || step.WeakFromSharedConstruct?
    ensures BlockOk(ApplyMake(s, step), c)
  {
    CopySource(s, step.src);
    match step {
      case CopyBegin(o, src, dst) =>
        if s.shared[src].None? { AccountsAfterPutShared(s, dst, c); }
        else { AccountsAfterAddRef(s, o, Adding(src, dst, s.shared[src].value), c); }
      case WeakCopyConstruct(src, dst) => AccountsAfterAddWeakTo(s, dst, s.weak[src], c);
      case WeakFromSharedConstruct(src, dst) => AccountsAfterAddWeakTo(s, dst, s.shared[src], c);
    }
  }

  lemma AccountsAfterMake(s: State, step: MakeStep, c: Cid)
    requires Inv(s) && CanMake(s, step) && c in ApplyMake(s, step).blocks && Small(ApplyMake(s, step))
    ensures BlockOk(ApplyMake(s, step), c)
  {
    assert c in s.blocks ==> BlockOk(s, c);
    match step {
      case NewShared(dst, n) => AccountsAfterNew(s, dst, n, c);
      case NewEmptyShared(dst) => AccountsAfterPutShared(s, dst, c);
      case NewEmptyWeak(dst) => AccountsAfterPutWeak(s, dst, c);
      case MoveConstruct(src, dst) => AccountsAfterMoveShared(s, src, dst, c);
      case WeakMoveConstruct(src, dst) => AccountsAfterMoveWeak(s, src, dst, c);
      case _ => AccountsAfterCopy(s, step, c);
    }
  }

  lemma AccountsAfterDrop(s: State, step: ReleaseStep, c: Cid)
    requires CanRelease(s, step) && c in s.blocks && BlockOk(s, c) && (step.DropShared? || step.DropWeak?)
    ensures BlockOk(ApplyRelease(s, step), c)
  {
    match step
    case DropShared(o, p, after) =>
      if s.shared[p].Some? { AccountsAfterSubRef(s, o, p, after, c); } else { AccountsAfterDropEmpty(s, o, p, after, c); }
    case DropWeak(o, p, after) => AccountsAfterDropWeak(s, o, p, after, c);
  }

  lemma AccountsAfterPhase(s: State, step: ReleaseStep, c: Cid)
    requires CanRelease(s, step) && !step.DropShared? && !step.DropWeak? && !step.Finish?
    requires c in s.blocks && BlockOk(s, c) && BlockOk(s, s.ops[step.o].c)
    ensures BlockOk(ApplyRelease(s, step), c)
  {
    match step
    case DeleterStarts(o) => AccountsAfterDeleterStarts(s, o, c);
    case DeleterEnds(o) => AccountsAfterDeleterEnds(s, o, c);
    case SubWeakCount(o) => AccountsAfterSubWeak(s, o, c);
    case FreeBlock(o) => AccountsAfterFree(s, o, c);
  }

  lemma AccountsAfterFinish(s: State, o: Oid, a: After, c: Cid)
    requires o in s.ops && s.ops[o] == Finishing(a) && CanFinish(s, o, a) && FinishOk(s, a)
    requires c in s.blocks && BlockOk(s, c) && Small(FinishWith(s, o, a))
    ensures BlockOk(FinishWith(s, o, a), c)
  {
    if a.Done? { EndedAccount(s, o, c); }
    else if a.ResetShared? || a.CopyShared? || a.MoveShared? { AccountsAfterFinishShared(s, o, a, c); }
    else { AccountsAfterFinishWeak(s, o, a, c); }
  }

  lemma ReleaseMakesNoBlock(s: State, r: ReleaseStep)
    requires CanRelease(s, r)
    ensures ApplyRelease(s, r).blocks.Keys == s.blocks.Keys
  {
  }

  lemma AccountsAfterRelease(s: State, step: ReleaseStep, t: State, c: Cid)
    requires CanRelease(s, step) && t == ApplyRelease(s, step) && c in s.blocks && c in t.blocks && Small(t) && Inv(s)
    ensures BlockOk(t, c)
  {
    assert BlockOk(s, c);
    if step.DropShared? || step.DropWeak? {
      AccountsAfterDrop(s, step, c);
    } else if step.Finish? {
      FinishIsOk(s, step.o, s.ops[step.o].after);
      AccountsAfterFinish(s, step.o, s.ops[step.o].after, c);
    } else {
      AccountsAfterPhase(s, step, c);
    }
  }

  lemma AccountsAfterCas(s: State, o: Oid, spurious: bool, c: Cid)
    requires CanLock(s, CasRef(o, spurious)) && Small(ApplyLock(s, CasRef(o, spurious)))
    requires OpOk(s, s.ops[o]) && c in s.blocks && BlockOk(s, c) && BlockOk(s, s.ops[o].c)
    ensures BlockOk(ApplyLock(s, CasRef(o, spurious)), c)
  {
    var op := s.ops[o];
    if s.blocks[op.c].ref == op.seen && !spurious {
      AccountsAfterAddRef(s, o, LockAdd(op.src, op.dst, op.c), c);
    } else {
      AccountsAfterRetry(s, o, LockLoad(op.src, op.dst, op.c), c);
    }
  }

  lemma AccountsAfterLockStep(s: State, step: LockStep, c: Cid)
    requires CanLock(s, step) && c in s.blocks && BlockOk(s, c) && Small(ApplyLock(s, step))
    requires !step.LockBegin? ==>
               OpOk(s, s.ops[step.o]) && BlockOk(s, s.ops[step.o].c) && s.ops[step.o].dst !in s.shared
    ensures BlockOk(ApplyLock(s, step), c)
  {
    match step {
      case LockBegin(o, src, dst) =>
        if s.weak[src].None? { LedgerPutShared(s, dst, None, c); }
        else { AccountsAfterRetry(s, o, LockLoad(src, dst, s.weak[src].value), c); }
      case LoadRef(o) =>
        var op := s.ops[o];
        if s.blocks[op.c].ref == 0 { AccountsAfterLoad(s, o, c); }
        else { AccountsAfterRetry(s, o, LockCas(op.src, op.dst, op.c, s.blocks[op.c].ref), c); }
      case CasRef(o, spurious) => AccountsAfterCas(s, o, spurious, c);
      case AddWeakCount(o) => AccountsAfterAddWeakCount(s, o, c);
    }
  }

  lemma InvAfterMake(s: State, step: MakeStep)
    requires Inv(s) && CanMake(s, step)
    ensures Inv(ApplyMake(s, step))
  {
    ShapeAfterMake(s, step);
    forall c | c in ApplyMake(s, step).blocks ensures BlockOk(ApplyMake(s, step), c) {
      AccountsAfterMake(s, step, c);
    }
  }

  lemma InvAfterRelease(s: State, step: ReleaseStep)
    requires Inv(s) && CanRelease(s, step)
    ensures Inv(ApplyRelease(s, step))
  {
    ShapeAfterRelease(s, step);
    ReleaseMakesNoBlock(s, step);
    var t := ApplyRelease(s, step);
    forall c | c in t.blocks ensures BlockOk(t, c) {
      AccountsAfterRelease(s, step, t, c);
    }
  }

  lemma InvAfterLock(s: State, step: LockStep)
    requires Inv(s) && CanLock(s, step)
    ensures Inv(ApplyLock(s, step))
  {
    ShapeAfterLock(s, step);
    forall c | c in ApplyLock(s, step).blocks ensures BlockOk(ApplyLock(s, step), c) {
      if !step.LockBegin? { assert Target(s.ops[step.o]) == Some(s.ops[step.o].dst); }
      AccountsAfterLockStep(s, step, c);
    }
  }

  /** Whatever operation steps next, the counters keep counting exactly the holders. */
  lemma StepKeepsInv(s: State, step: Step)
    requires Inv(s) && Enabled(s, step)
    ensures Inv(Apply(s, step))
  {
    match step {
      case Make(m) => InvAfterMake(s, m);
      case Release(r) => InvAfterRelease(s, r);
      case Lock(l) => InvAfterLock(s, l);
      case UseCount(_) =>
    }
  }
}
