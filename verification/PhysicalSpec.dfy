/**
 What the physical page allocator does to a row of used/free pages: a naive lowest-run search and
 the two-segment rule built on it, with the facts that hold of every run of calls.
 */
module PhysicalSpec {
  import opened Options
  import opened Numbers

  /** `bits[i]` says that page `i` is in use. */
  type Pages = seq<bool>

  predicate RunFree(bits: Pages, p: nat, count: nat) {
    p + count <= |bits| && forall i :: p <= i < p + count ==> !bits[i]
  }

  predicate RunUsed(bits: Pages, p: nat, count: nat) {
    p + count <= |bits| && forall i :: p <= i < p + count ==> bits[i]
  }

  /** The lowest run of `count` free pages that lies wholly in `[from, to)`. */
  function FirstRun(bits: Pages, from: nat, to: nat, count: nat): Option<nat>
    requires to <= |bits|
    decreases |bits| - from
  {
    if from + count > to || from >= to then None
    else if RunFree(bits, from, count) then Some(from)
    else FirstRun(bits, from + 1, to, count)
  }

  /** A free run of `count` pages lies in `[from, to)` exactly when the search finds one, and it finds the lowest. */
  lemma {:induction false} FirstRunIsLowest(bits: Pages, from: nat, to: nat, count: nat)
    requires to <= |bits| && count > 0
    decreases |bits| - from
    ensures match FirstRun(bits, from, to, count)
            case Some(p) =>
              && from <= p && p + count <= to && RunFree(bits, p, count)
              && (forall q: nat {:trigger RunFree(bits, q, count)} :: from <= q < p ==> !RunFree(bits, q, count))
            case None =>
              (forall q: nat {:trigger RunFree(bits, q, count)} :: from <= q && q + count <= to ==> !RunFree(bits, q, count))
  {
    if from + count <= to && from < to && !RunFree(bits, from, count) {
      FirstRunIsLowest(bits, from + 1, to, count);
    }
  }

  function Mark(bits: Pages, p: nat, count: nat, value: bool): (r: Pages)
    requires p + count <= |bits|
    ensures |r| == |bits|
    ensures forall i :: 0 <= i < |bits| ==> r[i] == (if p <= i < p + count then value else bits[i])
  {
    if count == 0 then bits else Mark(bits, p, count - 1, value)[p + count - 1 := value]
  }

  /** The page the allocator picks from hint `hint`: first above the hint, then wholly below it. */
  function Pick(bits: Pages, hint: nat, count: nat): Option<nat>
    requires hint <= |bits|
  {
    match FirstRun(bits, hint, |bits|, count)
    case Some(p) => Some(p)
    case None => FirstRun(bits, 0, hint, count)
  }

  /** It succeeds exactly when some free run lies wholly on one side of the hint. */
  lemma PickSucceedsIff(bits: Pages, hint: nat, count: nat)
    requires hint <= |bits| && count > 0
    ensures Pick(bits, hint, count).Some? <==>
            exists q: nat :: RunFree(bits, q, count) && (hint <= q || q + count <= hint)
  {
    FirstRunIsLowest(bits, hint, |bits|, count);
    FirstRunIsLowest(bits, 0, hint, count);
    match Pick(bits, hint, count) {
      case Some(p) => assert RunFree(bits, p, count);
      case None =>
    }
  }

  /** A single page is found whenever any page is free. */
  lemma OnePageWheneverFree(bits: Pages, hint: nat)
    requires hint <= |bits|
    ensures Pick(bits, hint, 1).Some? <==> exists i :: 0 <= i < |bits| && !bits[i]
  {
    PickSucceedsIff(bits, hint, 1);
    if Pick(bits, hint, 1).Some? {
      PickInside(bits, hint, 1);
      assert !bits[Pick(bits, hint, 1).value];
    }
    forall i | 0 <= i < |bits| && !bits[i]
      ensures RunFree(bits, i, 1)
    {
    }
  }

  // ---------------------------------------------------------------------------------------------
  // Counting free pages
  // ---------------------------------------------------------------------------------------------

  function Clear(bits: Pages): nat {
    if bits == [] then 0 else Clear(bits[..|bits| - 1]) + (if bits[|bits| - 1] then 0 else 1)
  }

  lemma {:induction false} ClearFlip(bits: Pages, i: nat, value: bool)
    requires i < |bits| && bits[i] != value
    ensures value ==> Clear(bits[i := value]) == Clear(bits) - 1
    ensures !value ==> Clear(bits[i := value]) == Clear(bits) + 1
  {
    var n := |bits| - 1;
    var flipped := bits[i := value];
    if i < n {
      ClearFlip(bits[..n], i, value);
      assert flipped[..n] == bits[..n][i := value];
    } else {
      assert flipped[..n] == bits[..n];
    }
  }

  lemma {:induction false} ClearMark(bits: Pages, p: nat, count: nat, value: bool)
    requires p + count <= |bits| && forall i :: p <= i < p + count ==> bits[i] != value
    ensures value ==> Clear(Mark(bits, p, count, value)) == Clear(bits) - count
    ensures !value ==> Clear(Mark(bits, p, count, value)) == Clear(bits) + count
    decreases count
  {
    if count > 0 {
      ClearMark(bits, p, count - 1, value);
      ClearFlip(Mark(bits, p, count - 1, value), p + count - 1, value);
    }
  }

  lemma {:induction false} ClearAllUsed(n: nat)
    ensures Clear(Repeat(true, n)) == 0
  {
    if n > 0 {
      ClearAllUsed(n - 1);
      assert Repeat(true, n)[..n - 1] == Repeat(true, n - 1);
    }
  }

  // ---------------------------------------------------------------------------------------------
  // The scan that finds the run
  // ---------------------------------------------------------------------------------------------

  /** No run of `count` pages that starts in `[a, l]` is free when page `l` is used and close enough. */
  lemma {:induction false} SkipUsed(bits: Pages, a: nat, l: nat, to: nat, count: nat)
    requires a <= l < to <= |bits| && bits[l] && l < a + count
    ensures FirstRun(bits, a, to, count) == FirstRun(bits, l + 1, to, count)
    decreases l - a
  {
    assert !RunFree(bits, a, count);
    if a < l {
      SkipUsed(bits, a + 1, l, to, count);
    }
  }

  // ---------------------------------------------------------------------------------------------
  // Runs of calls
  // ---------------------------------------------------------------------------------------------

  /** The allocator, the number of pages it counts as used, and the runs it has handed out, by first page. */
  datatype State = State(bits: Pages, hint: nat, used: int, live: map<nat, nat>)

  datatype Call = Alloc(count: nat) | Free(page: nat)

  /** Allocations that do not panic, and frees of a run exactly as it was handed out. */
  predicate Allowed(s: State, call: Call) {
    && s.hint <= |s.bits|
    && match call
       case Alloc(count) => count > 0 && Pick(s.bits, s.hint, count).Some?
       case Free(page) => page in s.live && page + s.live[page] <= |s.bits|
  }

  function Next(s: State, call: Call): State
    requires Allowed(s, call)
  {
    match call
    case Alloc(count) =>
      var p := Pick(s.bits, s.hint, count).value;
      PickInside(s.bits, s.hint, count);
      State(Mark(s.bits, p, count, true), p + count, s.used + count, s.live[p := count])
    case Free(page) =>
      State(Mark(s.bits, page, s.live[page], false), Min(s.hint, page), s.used - s.live[page], s.live - {page})
  }

  lemma PickInside(bits: Pages, hint: nat, count: nat)
    requires hint <= |bits| && count > 0 && Pick(bits, hint, count).Some?
    ensures var p := Pick(bits, hint, count).value; p + count <= |bits| && RunFree(bits, p, count)
  {
    FirstRunIsLowest(bits, hint, |bits|, count);
    FirstRunIsLowest(bits, 0, hint, count);
  }

  predicate Within(page: nat, count: nat, i: nat) { page <= i < page + count }

  ghost predicate InLive(live: map<nat, nat>, i: nat) { exists p :: p in live && Within(p, live[p], i) }

  /** Live runs are disjoint, avoid the pages that were used at the start, and account for every other used page. */
  ghost predicate Inv(s: State, base: Pages) {
    && |s.bits| == |base| && s.hint <= |base|
    && (forall p :: p in s.live ==> s.live[p] > 0 && p + s.live[p] <= |base|)
    && (forall p, i :: p in s.live && 0 <= i < |base| && Within(p, s.live[p], i) ==> !base[i])
    && (forall p, q, i :: p in s.live && q in s.live && Within(p, s.live[p], i) && Within(q, s.live[q], i) ==> p == q)
    && (forall i :: 0 <= i < |base| ==> (s.bits[i] <==> base[i] || InLive(s.live, i)))
  }

  lemma NextKeepsInv(s: State, base: Pages, call: Call)
    requires Inv(s, base) && Allowed(s, call)
    ensures Inv(Next(s, call), base)
  {
    var t := Next(s, call);
    match call {
      case Alloc(count) =>
        PickInside(s.bits, s.hint, count);
        AllocKeepsInv(s, base, Pick(s.bits, s.hint, count).value, count, t);
      case Free(page) => FreeKeepsInv(s, base, page, t);
    }
  }

  /** A run of free pages meets no live run. */
  lemma FreeRunApart(s: State, base: Pages, p: nat, count: nat)
    requires Inv(s, base) && count > 0 && RunFree(s.bits, p, count)
    ensures p !in s.live
    ensures forall q, i :: q in s.live && Within(q, s.live[q], i) ==> !Within(p, count, i)
  {
    forall q, i | q in s.live && Within(q, s.live[q], i) ensures !Within(p, count, i) {
      assert InLive(s.live, i);
    }
    forall q | q in s.live ensures q != p {
      assert Within(q, s.live[q], q);
      assert !Within(p, count, q);
      assert Within(p, count, p);
    }
  }

  lemma AllocBits(s: State, base: Pages, p: nat, count: nat, t: State, i: nat)
    requires Inv(s, base) && count > 0 && RunFree(s.bits, p, count) && p !in s.live && i < |base|
    requires t.bits == Mark(s.bits, p, count, true) && t.live == s.live[p := count]
    ensures t.bits[i] <==> base[i] || InLive(t.live, i)
  {
    if Within(p, count, i) {
      assert p in t.live && Within(p, t.live[p], i);
    } else if InLive(s.live, i) {
      var q :| q in s.live && Within(q, s.live[q], i);
      assert q in t.live && Within(q, t.live[q], i);
    }
  }

  lemma AllocKeepsInv(s: State, base: Pages, p: nat, count: nat, t: State)
    requires Inv(s, base) && count > 0 && RunFree(s.bits, p, count)
    requires t == State(Mark(s.bits, p, count, true), p + count, s.used + count, s.live[p := count])
    ensures Inv(t, base)
  {
    FreeRunApart(s, base, p, count);
    forall i | 0 <= i < |base| ensures t.bits[i] <==> base[i] || InLive(t.live, i) {
      AllocBits(s, base, p, count, t, i);
    }
  }

  lemma FreeKeepsInv(s: State, base: Pages, page: nat, t: State)
    requires Inv(s, base) && page in s.live
    requires page + s.live[page] <= |base|
    requires t == State(Mark(s.bits, page, s.live[page], false), Min(s.hint, page), s.used - s.live[page], s.live - {page})
    ensures Inv(t, base)
  {
    forall i | 0 <= i < |base|
      ensures t.bits[i] <==> base[i] || InLive(t.live, i)
    {
      if !Within(page, s.live[page], i) && InLive(s.live, i) {
        var q :| q in s.live && Within(q, s.live[q], i);
        assert q in t.live && Within(q, t.live[q], i);
      }
    }
  }

  predicate Run(states: seq<State>, calls: seq<Call>, base: Pages, used: int) {
    && |states| == |calls| + 1
    && states[0] == State(base, 0, used, map[])
    && forall i :: 0 <= i < |calls| ==> Allowed(states[i], calls[i]) && states[i + 1] == Next(states[i], calls[i])
  }

  /** From any starting bitmap, over any run of allocations and matching frees. */
  lemma {:induction false} RunKeepsInv(states: seq<State>, calls: seq<Call>, base: Pages, used: int, n: nat)
    requires Run(states, calls, base, used) && n < |states|
    ensures Inv(states[n], base)
  {
    if n > 0 {
      RunKeepsInv(states, calls, base, used, n - 1);
      NextKeepsInv(states[n - 1], base, calls[n - 1]);
    }
  }

  lemma AllocConserves(s: State, count: nat)
    requires Allowed(s, Alloc(count))
    ensures var t := Next(s, Alloc(count)); t.used + Clear(t.bits) == s.used + Clear(s.bits)
  {
    PickInside(s.bits, s.hint, count);
    ClearMark(s.bits, Pick(s.bits, s.hint, count).value, count, true);
  }

  lemma FreeConserves(s: State, base: Pages, page: nat)
    requires Inv(s, base) && Allowed(s, Free(page))
    ensures var t := Next(s, Free(page)); t.used + Clear(t.bits) == s.used + Clear(s.bits)
  {
    forall i | page <= i < page + s.live[page] ensures s.bits[i] {
      assert Within(page, s.live[page], i);
      assert InLive(s.live, i);
    }
    ClearMark(s.bits, page, s.live[page], false);
  }

  lemma NextConserves(s: State, base: Pages, call: Call)
    requires Inv(s, base) && Allowed(s, call)
    ensures var t := Next(s, call); t.used + Clear(t.bits) == s.used + Clear(s.bits)
  {
    match call
    case Alloc(count) => AllocConserves(s, count);
    case Free(page) => FreeConserves(s, base, page);
  }

  /** The counter moves with the bitmap: used pages plus free pages stay the same for ever. */
  lemma {:induction false} RunConserves(states: seq<State>, calls: seq<Call>, base: Pages, used: int, n: nat)
    requires Run(states, calls, base, used) && n < |states|
    ensures states[n].used + Clear(states[n].bits) == used + Clear(base)
  {
    if n > 0 {
      RunConserves(states, calls, base, used, n - 1);
      RunKeepsInv(states, calls, base, used, n - 1);
      NextConserves(states[n - 1], base, calls[n - 1]);
    }
  }

  // ---------------------------------------------------------------------------------------------
  // A run across the hint
  // ---------------------------------------------------------------------------------------------

  /** Page `q` or the one behind it is used, so that no run of `count` pages starts at `q`. */
  predicate Blocked(bits: Pages, count: nat, q: nat) {
    q < |bits| && (bits[q] || (count > 1 && q + 1 < |bits| && bits[q + 1]))
  }

  lemma PickIs(bits: Pages, hint: nat, count: nat, p: nat)
    requires hint <= p && p + count <= |bits| && count > 0 && RunFree(bits, p, count)
    requires forall q: nat :: hint <= q < p ==> Blocked(bits, count, q)
    ensures Pick(bits, hint, count) == Some(p)
  {
    forall q: nat | hint <= q < p ensures !RunFree(bits, q, count) {
      assert Blocked(bits, count, q);
    }
    FirstRunIsLowest(bits, hint, |bits|, count);
  }

  /** Seven pages, of which the first is reserved. */
  function SplitStart(): Pages { [true, false, false, false, false, false, false] }

  function SplitCalls(): seq<Call> { [Alloc(1), Alloc(1), Alloc(1), Free(1), Alloc(2), Free(2)] }

  function SplitStates(used: int): seq<State> {
    [State(SplitStart(), 0, used, map[]),
     State([true, true, false, false, false, false, false], 2, used + 1, map[1 := 1]),
     State([true, true, true, false, false, false, false], 3, used + 2, map[1 := 1, 2 := 1]),
     State([true, true, true, true, false, false, false], 4, used + 3, map[1 := 1, 2 := 1, 3 := 1]),
     State([true, false, true, true, false, false, false], 1, used + 2, map[2 := 1, 3 := 1]),
     State([true, false, true, true, true, true, false], 6, used + 4, map[2 := 1, 3 := 1, 4 := 2]),
     State([true, false, false, true, true, true, false], 2, used + 3, map[3 := 1, 4 := 2])]
  }

  lemma SplitTakes(s: State, t: State, count: nat, p: nat)
    requires s.hint <= p && p + count <= |s.bits| && count > 0 && RunFree(s.bits, p, count)
    requires forall q: nat :: s.hint <= q < p ==> Blocked(s.bits, count, q)
    requires |t.bits| == |s.bits| && forall i :: 0 <= i < |s.bits| ==> t.bits[i] == (s.bits[i] || p <= i < p + count)
    requires t.hint == p + count && t.used == s.used + count && t.live == s.live[p := count]
    ensures Allowed(s, Alloc(count)) && Next(s, Alloc(count)) == t
  {
    assert t.bits == Mark(s.bits, p, count, true);
    PickIs(s.bits, s.hint, count, p);
  }

  lemma SplitGives(s: State, t: State, p: nat)
    requires |s.bits| == |t.bits| == 7 && p in s.live && s.live[p] == 1 && p < 7 && s.hint <= 7
    requires t == State(s.bits[p := false], Min(s.hint, p), s.used - 1, s.live - {p})
    ensures Allowed(s, Free(p)) && Next(s, Free(p)) == t
  {
    assert t.bits == Mark(s.bits, p, 1, false);
  }

  lemma SplitTakesThree(used: int, states: seq<State>)
    requires states == SplitStates(used)
    ensures forall i :: 0 <= i < 3 ==> Allowed(states[i], Alloc(1)) && states[i + 1] == Next(states[i], Alloc(1))
  {
    SplitTakes(states[0], states[1], 1, 1);
    SplitTakes(states[1], states[2], 1, 2);
    SplitTakes(states[2], states[3], 1, 3);
  }

  lemma SplitGivesOne(used: int, states: seq<State>)
    requires states == SplitStates(used)
    ensures Allowed(states[3], Free(1)) && states[4] == Next(states[3], Free(1))
  {
    assert states[4].live == states[3].live - {1};
    SplitGives(states[3], states[4], 1);
  }

  lemma SplitTakesTwo(used: int, states: seq<State>)
    requires states == SplitStates(used)
    ensures Allowed(states[4], Alloc(2)) && states[5] == Next(states[4], Alloc(2))
  {
    SplitTakes(states[4], states[5], 2, 4);
  }

  lemma SplitGivesTwo(used: int, states: seq<State>)
    requires states == SplitStates(used)
    ensures Allowed(states[5], Free(2)) && states[6] == Next(states[5], Free(2))
  {
    assert states[6].live == states[5].live - {2};
    SplitGives(states[5], states[6], 2);
  }

  /** A run split by the hint is not seen: after six calls two adjacent pages are free, and a request for two fails. */
  lemma SplitRunIsMissed(used: int) returns (states: seq<State>, calls: seq<Call>)
    ensures Run(states, calls, SplitStart(), used)
    ensures var s := states[|calls|]; s.hint <= |s.bits| && RunFree(s.bits, 1, 2) && Pick(s.bits, s.hint, 2).None?
  {
    states, calls := SplitStates(used), SplitCalls();
    SplitTakesThree(used, states);
    SplitGivesOne(used, states);
    SplitTakesTwo(used, states);
    SplitGivesTwo(used, states);
    var bits := states[6].bits;
    forall q: nat | q != 1 ensures !RunFree(bits, q, 2) {
      if q < 6 { assert bits[q] || bits[q + 1]; }
    }
    PickSucceedsIff(bits, 2, 2);
  }

  // ---------------------------------------------------------------------------------------------
  // Runs that allocate one page at a time
  // ---------------------------------------------------------------------------------------------

  datatype SingleCall = AllocOne | FreeAny(page: nat, count: nat)

  datatype Hinted = Hinted(bits: Pages, hint: nat)

  predicate SingleAllowed(s: Hinted, call: SingleCall) {
    && s.hint <= |s.bits|
    && match call
       case AllocOne => Pick(s.bits, s.hint, 1).Some?
       case FreeAny(page, count) => page + count <= |s.bits|
  }

  function SingleNext(s: Hinted, call: SingleCall): Hinted
    requires SingleAllowed(s, call)
  {
    match call
    case AllocOne =>
      var p := Pick(s.bits, s.hint, 1).value;
      PickInside(s.bits, s.hint, 1);
      Hinted(Mark(s.bits, p, 1, true), p + 1)
    case FreeAny(page, count) => Hinted(Mark(s.bits, page, count, false), Min(s.hint, page))
  }

  predicate UsedBelowHint(s: Hinted) {
    s.hint <= |s.bits| && forall i :: 0 <= i < s.hint ==> s.bits[i]
  }

  predicate SingleRun(states: seq<Hinted>, calls: seq<SingleCall>) {
    && |states| == |calls| + 1
    && states[0].hint == 0
    && forall i :: 0 <= i < |calls| ==>
         SingleAllowed(states[i], calls[i]) && states[i + 1] == SingleNext(states[i], calls[i])
  }

  predicate LowestFree(bits: Pages, p: nat) {
    p < |bits| && !bits[p] && forall i :: 0 <= i < p ==> bits[i]
  }

  /** With everything below the hint used, the pick is the lowest free page of all. */
  lemma PickIsLowest(s: Hinted)
    requires UsedBelowHint(s)
    ensures match Pick(s.bits, s.hint, 1)
            case Some(p) => LowestFree(s.bits, p)
            case None => (forall i :: 0 <= i < |s.bits| ==> s.bits[i])
  {
    FirstRunIsLowest(s.bits, s.hint, |s.bits|, 1);
    FirstRunIsLowest(s.bits, 0, s.hint, 1);
    forall i | s.hint <= i < |s.bits| && !s.bits[i]
      ensures RunFree(s.bits, i, 1)
    {
    }
  }

  lemma SingleKeepsUsed(s: Hinted, call: SingleCall)
    requires UsedBelowHint(s) && SingleAllowed(s, call)
    ensures UsedBelowHint(SingleNext(s, call))
  {
    PickIsLowest(s);
  }

  /** In such a run the moving hint behaves exactly like lowest-free-page first fit. */
  lemma {:induction false} SingleRunIsFirstFit(states: seq<Hinted>, calls: seq<SingleCall>, n: nat)
    requires SingleRun(states, calls) && n < |states|
    ensures UsedBelowHint(states[n])
    ensures match Pick(states[n].bits, states[n].hint, 1)
            case Some(p) => LowestFree(states[n].bits, p)
            case None => (forall i :: 0 <= i < |states[n].bits| ==> states[n].bits[i])
  {
    if n > 0 {
      SingleRunIsFirstFit(states, calls, n - 1);
      SingleKeepsUsed(states[n - 1], calls[n - 1]);
    }
    PickIsLowest(states[n]);
  }
}

