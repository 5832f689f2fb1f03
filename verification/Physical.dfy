/**
 The physical page allocator over its packed bitmap.  Each method is tied to `PhysicalSpec` on the
 row of pages that the bytes encode.
 */
module Physical {
  import opened Options
  import opened Numbers
  import opened BitMath
  import opened PackedBits
  import opened PhysicalSpec
  import opened MemMap

  /** The pages below the limit, as `get` sees them. */
  function Seen(row: seq<bool>, limit: nat, w: Width): (bits: Pages)
    ensures |bits| == limit
  {
    if limit == 0 then [] else Seen(row, limit - 1, w) + [BitIndex(w, limit - 1) < |row| && row[BitIndex(w, limit - 1)]]
  }

  lemma {:induction false} SeenAt(row: seq<bool>, limit: nat, w: Width, i: nat)
    requires i < limit
    ensures Seen(row, limit, w)[i] == (BitIndex(w, i) < |row| && row[BitIndex(w, i)])
  {
    if i < limit - 1 { SeenAt(row, limit - 1, w, i); }
  }

  /** What the marking loops do to the bits. */
  function MarkRow(row: seq<bool>, page: nat, count: nat, value: bool, w: Width): (r: seq<bool>)
    ensures |r| == |row|
  {
    if count == 0 then row
    else
      var r, at := MarkRow(row, page, count - 1, value, w), BitIndex(w, page + count - 1);
      if at < |row| then r[at := value] else r
  }

  lemma MarkNext(row: seq<bool>, page: nat, n: nat, value: bool, w: Width)
    requires BitIndex(w, page + n) < |row|
    ensures MarkRow(row, page, n, value, w)[BitIndex(w, page + n) := value] == MarkRow(row, page, n + 1, value, w)
  {
  }

  /** When both widths reach the limit, marking the bits marks exactly the pages. */
  lemma {:induction false} CoherentMark(row: seq<bool>, limit: nat, n: Narrowing, page: nat, count: nat, value: bool)
    requires Coherent(limit, n) && limit <= |row| && page + count <= limit
    ensures Seen(MarkRow(row, page, count, value, n.setter), limit, n.getter) == Mark(Seen(row, limit, n.getter), page, count, value)
    decreases count
  {
    if count > 0 {
      var i := page + count - 1;
      var most := MarkRow(row, page, count - 1, value, n.setter);
      CoherentMark(row, limit, n, page, count - 1, value);
      CoherentWrite(most, limit, n, i, value);
    }
  }

  lemma CoherentWrite(row: seq<bool>, limit: nat, n: Narrowing, i: nat, value: bool)
    requires Coherent(limit, n) && limit <= |row| && i < limit
    ensures BitIndex(n.setter, i) == i && Seen(row[i := value], limit, n.getter) == Seen(row, limit, n.getter)[i := value]
  {
    var now, want := Seen(row[i := value], limit, n.getter), Seen(row, limit, n.getter)[i := value];
    assert BitIndex(n.getter, i) == i;
    forall j: nat | j < limit ensures now[j] == want[j] {
      SeenAt(row[i := value], limit, n.getter, j);
      SeenAt(row, limit, n.getter, j);
    }
    SameRows(now, want);
  }

  /** What a scan returns, the bits it leaves and where it stops; zero stands for the null pointer. */
  datatype Scanned = Scanned(ret: nat, row: seq<bool>, last: nat)

  /** The run at `p` is marked. */
  function Taken(row: seq<bool>, n: Narrowing, p: nat, count: nat): Scanned {
    Scanned(p * 0x1000, MarkRow(row, p, count, true, n.setter), p + count)
  }

  /** What the scan from `hint` to `limit` has to come to: the lowest free run is marked, or nothing is. */
  function ScanFrom(row: seq<bool>, top: nat, n: Narrowing, hint: nat, limit: nat, count: nat): Scanned
    requires limit <= top
  {
    match FirstRun(Seen(row, top, n.getter), hint, limit, count)
    case Some(p) => Taken(row, n, p, count)
    case None => Scanned(0, row, Max(hint, limit))
  }

  lemma ScanFound(row: seq<bool>, top: nat, n: Narrowing, hint: nat, limit: nat, count: nat, last: nat)
    requires limit <= top && count <= last && FirstRun(Seen(row, top, n.getter), hint, limit, count) == Some(last - count)
    ensures ScanFrom(row, top, n, hint, limit, count) == Taken(row, n, last - count, count)
  {
  }

  /** With page 0 in use, the null pointer means that there is no run, and otherwise the run is in the range. */
  lemma ScanReturns(row: seq<bool>, top: nat, n: Narrowing, hint: nat, limit: nat, count: nat)
    requires limit <= top && count > 0 && (top > 0 ==> Seen(row, top, n.getter)[0])
    ensures var scan := ScanFrom(row, top, n, hint, limit, count);
            match FirstRun(Seen(row, top, n.getter), hint, limit, count)
            case Some(p) => p > 0 && p + count <= limit && scan == Scanned(p * 0x1000, MarkRow(row, p, count, true, n.setter), p + count)
            case None => scan == Scanned(0, row, Max(hint, limit))
  {
    FirstRunIsLowest(Seen(row, top, n.getter), hint, limit, count);
  }

  /** Page 0 is reserved, and every other byte of usable memory is used or in a free page. */
  predicate Accounted(bits: Pages, usable: int, used: int) {
    (|bits| > 0 ==> bits[0]) && usable == used + 0x1000 * Clear(bits)
  }

  lemma TakenAway(usable: int, used: int, clear: nat, count: nat)
    requires usable == used + 0x1000 * clear
    ensures usable == used + count * 0x1000 + 0x1000 * (clear - count)
  {
  }

  /** Marking the run that was picked takes its pages from the free ones, and page 0 stays reserved. */
  lemma AllocKeepsValid(row: seq<bool>, limit: nat, n: Narrowing, hint: nat, count: nat, usable: int, used: int, p: nat, after: seq<bool>)
    requires Coherent(limit, n) && limit <= |row| && hint <= limit && count > 0
    requires Pick(Seen(row, limit, n.getter), hint, count) == Some(p) && after == MarkRow(row, p, count, true, n.setter)
    requires Accounted(Seen(row, limit, n.getter), usable, used)
    ensures p + count <= limit && Seen(after, limit, n.getter) == Mark(Seen(row, limit, n.getter), p, count, true)
    ensures Accounted(Seen(after, limit, n.getter), usable, used + count * 0x1000)
  {
    var bits := Seen(row, limit, n.getter);
    PickInside(bits, hint, count);
    ClearMark(bits, p, count, true);
    CoherentMark(row, limit, n, p, count, true);
    TakenAway(usable, used, Clear(bits), count);
  }

  /** Clearing a run behind page 0 clears just its pages, and adds them to the free ones when all were in use. */
  lemma FreeKeepsValid(row: seq<bool>, limit: nat, n: Narrowing, page: nat, count: nat, usable: int, used: int)
    requires Coherent(limit, n) && limit <= |row| && 0 < page && page + count <= limit
    requires Accounted(Seen(row, limit, n.getter), usable, used)
    ensures var bits, after := Seen(row, limit, n.getter), Seen(MarkRow(row, page, count, false, n.setter), limit, n.getter);
            && after == Mark(bits, page, count, false)
            && (RunUsed(bits, page, count) ==> Accounted(after, usable, used - count * 0x1000))
  {
    var bits := Seen(row, limit, n.getter);
    CoherentMark(row, limit, n, page, count, false);
    if RunUsed(bits, page, count) {
      ClearMark(bits, page, count, false);
      AccountedBack(usable, used, Clear(bits), count);
    }
  }

  lemma AccountedBack(usable: int, used: int, clear: nat, count: nat)
    requires usable == used + 0x1000 * clear
    ensures usable == used - count * 0x1000 + 0x1000 * (clear + count)
  {
  }

  /** The turns of the scan that are left at page `last` with `p` free pages counted before it. */
  function Scan(bits: Pages, last: nat, limit: nat, count: nat, p: nat): Option<nat>
    requires limit <= |bits| && p < count && p <= last
    decreases limit - last
  {
    if last >= limit then None
    else if bits[last] then Scan(bits, last + 1, limit, count, 0)
    else if p + 1 == count then Some(last + 1 - count)
    else Scan(bits, last + 1, limit, count, p + 1)
  }

  /** Counting free pages finds the lowest run. */
  lemma {:induction false} ScanFinds(bits: Pages, from: nat, limit: nat, count: nat, p: nat)
    requires limit <= |bits| && p < count && RunFree(bits, from, p) && (p > 0 ==> from + p <= limit)
    ensures Scan(bits, from + p, limit, count, p) == FirstRun(bits, from, limit, count)
    decreases limit - from - p
  {
    var last := from + p;
    if last < limit {
      if bits[last] {
        SkipUsed(bits, from, last, limit, count);
        ScanFinds(bits, last + 1, limit, count, 0);
      } else {
        assert RunFree(bits, from, p + 1);
        if p + 1 < count { ScanFinds(bits, from, limit, count, p + 1); }
      }
    }
  }

  /** `alloc` panics when it finds no run, and a request for no page at all yields the null pointer. */
  datatype Outcome = Null | Panic | At(address: nat)

  class PhysicalMemory {
    const narrowing: Narrowing
    var bitmap: Bitmap
    var memUsableTop: nat
    var lastIndex: nat
    var usableMemory: nat
    var totalMemory: nat
    var usedMemory: nat

    function Limit(): nat
      reads this`memUsableTop
    {
      memUsableTop / 0x1000
    }

    /** The pages as the allocator sees them. */
    ghost function Bits(): (bits: Pages)
      reads this`bitmap, this`memUsableTop, bitmap`buffer, bitmap.buffer
      ensures |bits| == Limit()
    {
      Seen(Row(), Limit(), narrowing.getter)
    }

    /** The bits as they are stored. */
    ghost function Row(): seq<bool>
      reads this`bitmap, bitmap`buffer, bitmap.buffer
    {
      RowOf(bitmap.buffer[..])
    }

    /** Every page has its bit inside the bitmap. */
    ghost predicate Wired()
      reads this`bitmap, this`memUsableTop, bitmap`buffer
    {
      && bitmap.narrowing == narrowing
      && Min(Limit(), 8 * narrowing.getter) <= 8 * bitmap.buffer.Length
      && Min(Limit(), 8 * narrowing.setter) <= 8 * bitmap.buffer.Length
    }

    /** The allocator stays inside its bitmap. */
    ghost predicate InBounds()
      reads this`bitmap, this`memUsableTop, this`lastIndex, bitmap`buffer
    {
      Wired() && lastIndex <= Limit()
    }

    /** The index widths and the bitmap reach the limit. */
    ghost predicate Covered()
      reads this`bitmap, this`memUsableTop, bitmap`buffer
    {
      Wired() && Coherent(Limit(), narrowing) && Limit() <= 8 * bitmap.buffer.Length
    }

    /** Page 0 is reserved, and the counters account for every free page. */
    ghost predicate Valid()
      reads this, bitmap, bitmap.buffer
    {
      Covered() && lastIndex <= Limit() && Accounted(Bits(), usableMemory, usedMemory)
    }

    constructor (narrowing: Narrowing)
      ensures this.narrowing == narrowing
      ensures memUsableTop == 0 && lastIndex == 0 && usableMemory == 0 && totalMemory == 0 && usedMemory == 0
      ensures fresh(bitmap) && fresh(bitmap.buffer) && bitmap.narrowing == narrowing && bitmap.buffer.Length == 0
      ensures Valid()
    {
      this.narrowing := narrowing;
      var buffer := new bv8[0];
      bitmap := new Bitmap(buffer, narrowing);
      memUsableTop, lastIndex, usableMemory, totalMemory, usedMemory := 0, 0, 0, 0, 0;
    }

    method FreeMemory() returns (r: int)
      requires Valid()
      ensures r == 0x1000 * Clear(Bits())
    {
      r := usableMemory - usedMemory;
    }

    method GetPage(i: nat) returns (r: bool)
      requires Wired() && i < Limit()
      ensures r == Bits()[i]
    {
      BitIndexWithin(narrowing.getter, i);
      SeenAt(Row(), Limit(), narrowing.getter, i);
      r := bitmap.Get(i);
    }

    method SetPage(i: nat, value: bool)
      requires Wired() && i < Limit()
      modifies bitmap.buffer
      ensures BitIndex(narrowing.setter, i) < |old(Row())| && Row() == old(Row())[BitIndex(narrowing.setter, i) := value]
    {
      BitIndexWithin(narrowing.setter, i);
      bitmap.Set(i, value);
    }

    /** The two marking loops: `bitmap.set(i, value)` for every page of a run. */
    method SetRun(page: nat, count: nat, value: bool)
      requires Wired() && page + count <= Limit()
      modifies bitmap.buffer
      ensures Row() == MarkRow(old(Row()), page, count, value, narrowing.setter)
    {
      ghost var row := Row();
      var i := page;
      while i < page + count
        invariant page <= i <= page + count
        invariant Row() == MarkRow(row, page, i - page, value, narrowing.setter)
      {
        SetPage(i, value);
        MarkNext(row, page, i - page, value, narrowing.setter);
        i := i + 1;
      }
      assert i - page == count;
    }

    /** `bitmap.get(last_index++)`. */
    method NextPage() returns (r: bool)
      requires Wired() && lastIndex < Limit()
      modifies this`lastIndex
      ensures lastIndex == old(lastIndex) + 1 && r == Bits()[old(lastIndex)]
    {
      r := GetPage(lastIndex);
      lastIndex := lastIndex + 1;
    }

    /** Marks the `count` pages before `lastIndex`. */
    method TakeRun(count: nat) returns (ret: nat)
      requires InBounds() && count <= lastIndex
      modifies bitmap.buffer
      ensures Scanned(ret, Row(), lastIndex) == Taken(old(Row()), narrowing, lastIndex - count, count)
    {
      var page := lastIndex - count;
      SetRun(page, count, true);
      return page * 0x1000;
    }

    /** The counting loop of the scan: it stops behind the lowest free run, or at `limit`. */
    method Seek(count: nat, limit: nat) returns (found: bool)
      requires InBounds() && limit <= Limit() && count > 0
      modifies this`lastIndex
      ensures lastIndex <= Limit()
      ensures FirstRun(Bits(), old(lastIndex), limit, count) == if found && count <= lastIndex then Some(lastIndex - count) else None
      ensures if found then count <= lastIndex else lastIndex == Max(old(lastIndex), limit)
    {
      ghost var start, bits := lastIndex, Bits();
      ScanFinds(bits, start, limit, count, 0);
      var p := 0;
      while lastIndex < limit
        invariant p <= lastIndex <= Max(start, limit) && p < count
        invariant Scan(bits, lastIndex, limit, count, p) == FirstRun(bits, start, limit, count)
        decreases limit - lastIndex
      {
        var used := NextPage();
        p := if used then 0 else p + 1;
        if p == count {
          return true;
        }
      }
      return false;
    }

    /** The scan from `lastIndex` up to `limit`; zero stands for the null pointer. */
    method InnerAlloc(count: nat, limit: nat) returns (ret: nat)
      requires InBounds() && limit <= Limit() && count > 0
      modifies this`lastIndex, bitmap.buffer
      ensures lastIndex <= Limit()
      ensures Scanned(ret, Row(), lastIndex) == ScanFrom(old(Row()), Limit(), narrowing, old(lastIndex), limit, count)
    {
      ghost var start, row := lastIndex, Row();
      var found := Seek(count, limit);
      if !found {
        return 0;
      }
      ScanFound(row, Limit(), narrowing, start, limit, count, lastIndex);
      ret := TakeRun(count);
    }

    /** First the pages from the hint up, then those below where the hint was; zero when neither has a run. */
    method Search(count: nat) returns (ret: nat)
      requires InBounds() && count > 0 && (Limit() > 0 ==> Bits()[0])
      modifies this`lastIndex, bitmap.buffer
      ensures lastIndex <= Limit()
      ensures match Pick(old(Bits()), old(lastIndex), count)
        case Some(p) =>
          && p > 0 && p + count <= Limit() && ret == p * 0x1000 && lastIndex == p + count
          && Row() == MarkRow(old(Row()), p, count, true, narrowing.setter)
        case None => ret == 0 && Row() == old(Row())
    {
      ghost var row, top := Row(), Limit();
      var i := lastIndex;
      ScanReturns(row, top, narrowing, i, top, count);
      ScanReturns(row, top, narrowing, 0, i, count);
      ret := InnerAlloc(count, Limit());
      if ret == 0 {
        lastIndex := 0;
        ret := InnerAlloc(count, i);
      }
    }

    /** The search, and the counter when it succeeds. */
    method AllocRun(count: nat) returns (ret: nat)
      requires InBounds() && count > 0 && (Limit() > 0 ==> Bits()[0])
      modifies this`lastIndex, this`usedMemory, bitmap.buffer
      ensures lastIndex <= Limit()
      ensures match Pick(old(Bits()), old(lastIndex), count)
        case Some(p) =>
          && p > 0 && p + count <= Limit() && ret == p * 0x1000 && lastIndex == p + count
          && Row() == MarkRow(old(Row()), p, count, true, narrowing.setter)
          && usedMemory == old(usedMemory) + count * 0x1000
        case None => ret == 0 && Row() == old(Row())
    {
      ret := Search(count);
      if ret != 0 { usedMemory := usedMemory + count * 0x1000; }
    }

    /** The run that the search finds among the pages as seen, accounted for; panic when there is none. */
    method Alloc(count: nat) returns (r: Outcome)
      requires InBounds() && (Limit() > 0 ==> Bits()[0])
      modifies this`lastIndex, this`usedMemory, bitmap.buffer
      ensures lastIndex <= Limit()
      ensures count == 0 ==>
                r == Null && Row() == old(Row()) && lastIndex == old(lastIndex) && usedMemory == old(usedMemory)
      ensures count > 0 ==> match Pick(old(Bits()), old(lastIndex), count)
        case Some(p) =>
          && r == At(p * 0x1000) && p > 0 && p + count <= Limit() && lastIndex == p + count
          && Row() == MarkRow(old(Row()), p, count, true, narrowing.setter)
          && usedMemory == old(usedMemory) + count * 0x1000
          && (old(Valid()) ==> Valid() && Bits() == Mark(old(Bits()), p, count, true))
        case None => r == Panic && Row() == old(Row())
    {
      if count == 0 {
        return Null;
      }
      ghost var kept, p, after := Valid() && Pick(Bits(), lastIndex, count).Some?, 0, Row();
      if kept {
        p := Pick(Bits(), lastIndex, count).value;
        after := MarkRow(Row(), p, count, true, narrowing.setter);
        AllocKeepsValid(Row(), Limit(), narrowing, lastIndex, count, usableMemory, usedMemory, p, after);
      }
      var ret := AllocRun(count);
      assert kept ==> Row() == after && Valid();
      r := if ret == 0 then Panic else At(ret);
    }

    /** The pages of a run behind page 0 become free. */
    method FreeRun(page: nat, count: nat)
      requires InBounds() && 0 < page && page + count <= Limit() && count * 0x1000 <= usedMemory
      modifies this`lastIndex, this`usedMemory, bitmap.buffer
      ensures Row() == MarkRow(old(Row()), page, count, false, narrowing.setter)
      ensures lastIndex == Min(old(lastIndex), page) && usedMemory == old(usedMemory) - count * 0x1000
      ensures old(Valid()) ==> Bits() == Mark(old(Bits()), page, count, false)
      ensures old(Valid()) && RunUsed(old(Bits()), page, count) ==> Valid()
    {
      ghost var row, valid := Row(), Valid();
      if valid { FreeKeepsValid(row, Limit(), narrowing, page, count, usableMemory, usedMemory); }
      SetRun(page, count, false);
      lastIndex := Min(lastIndex, page);
      usedMemory := usedMemory - count * 0x1000;
    }

    /** Frees the run at an address; the null pointer is ignored. */
    method Free(ptr: nat, count: nat)
      requires InBounds()
      requires ptr != 0 ==> 0 < ptr / 0x1000 && ptr / 0x1000 + count <= Limit() && count * 0x1000 <= usedMemory
      modifies this`lastIndex, this`usedMemory, bitmap.buffer
      ensures lastIndex <= Limit()
      ensures ptr == 0 ==> Row() == old(Row()) && lastIndex == old(lastIndex) && usedMemory == old(usedMemory)
      ensures ptr != 0 ==>
                var page := ptr / 0x1000;
                && Row() == MarkRow(old(Row()), page, count, false, narrowing.setter)
                && lastIndex == Min(old(lastIndex), page) && usedMemory == old(usedMemory) - count * 0x1000
                && (old(Valid()) ==> Bits() == Mark(old(Bits()), page, count, false))
                && (old(Valid()) && RunUsed(old(Bits()), page, count) ==> Valid())
    {
      if ptr == 0 {
        return;
      }
      FreeRun(ptr / 0x1000, count);
    }

    // -------------------------------------------------------------------------------------------
    // Boot
    // -------------------------------------------------------------------------------------------

    /** Clears the bits of the pages in `[base, base + length)`. */
    method ClearEntry(base: nat, length: nat)
      requires Wired() && base % 0x1000 == 0 && length % 0x1000 == 0 && (base + length) / 0x1000 <= Limit()
      modifies bitmap.buffer
      ensures Row() == MarkRow(old(Row()), base / 0x1000, length / 0x1000, false, narrowing.setter)
    {
      var t := 0;
      ghost var n, row := 0, Row();
      while t < length
        invariant t == 0x1000 * n && n <= length / 0x1000
        invariant Row() == MarkRow(row, base / 0x1000, n, false, narrowing.setter)
      {
        FrameOfOffset(base, length, n, t, Limit());
        SetPage((base + t) / 0x1000, false);
        MarkNext(row, base / 0x1000, n, false, narrowing.setter);
        t := t + 0x1000;
        n := n + 1;
      }
    }

    /** First pass: the sizes, and the end of usable memory. */
    method Measure(memmap: array<MemEntry>)
      requires usableMemory == 0 && totalMemory == 0 && memUsableTop == 0
      modifies this`usableMemory, this`totalMemory, this`memUsableTop
      ensures usableMemory == totalMemory == SumUsable(memmap[..]) && memUsableTop == Top(memmap[..])
    {
      var i := 0;
      while i < memmap.Length
        invariant i <= memmap.Length
        invariant usableMemory == totalMemory == SumUsable(memmap[..i]) && memUsableTop == Top(memmap[..i])
      {
        assert memmap[..i + 1][..i] == memmap[..i];
        var top := memmap[i].base + memmap[i].length;
        if memmap[i].usable {
          usableMemory := usableMemory + memmap[i].length;
          totalMemory := totalMemory + memmap[i].length;
          memUsableTop := if top > memUsableTop then top else memUsableTop;
        }
        i := i + 1;
      }
      assert memmap[..] == memmap[..memmap.Length];
    }

    /** Second pass: the bitmap takes the front of the first usable entry that is large enough, all pages used. */
    method Place(memmap: array<MemEntry>, size: nat)
      modifies this`usedMemory, this`bitmap, memmap
      ensures memmap[..] == Placed(old(memmap[..]), size)
      ensures if AnyFits(old(memmap[..]), size) then
                && fresh(bitmap) && fresh(bitmap.buffer) && bitmap.buffer.Length == size && bitmap.narrowing == narrowing
                && Row() == Repeat(true, 8 * size) && usedMemory == old(usedMemory) + size
              else bitmap == old(bitmap) && usedMemory == old(usedMemory)
    {
      var k := 0;
      while k < memmap.Length && !Fits(memmap[k], size)
        invariant k <= memmap.Length
        invariant forall j :: 0 <= j < k ==> !Fits(memmap[j], size)
      {
        k := k + 1;
      }
      PlacedAt(memmap[..], size, k);
      if k < memmap.Length {
        var bytes := new bv8[size](_ => 0xFF);
        bitmap := new Bitmap(bytes, narrowing);
        ghost var entries := memmap[..];
        memmap[k] := Shrink(memmap[k], size);
        assert memmap[..] == entries[k := Shrink(entries[k], size)];
        usedMemory := usedMemory + size;
        AllOnes(bytes[..]);
      }
    }

    /** Third pass: the pages of what is left of the usable entries become free. */
    method Release(entries: seq<MemEntry>)
      requires Wired() && Aligned(entries) && Below(entries, Limit())
      modifies bitmap.buffer
      ensures Row() == ReleasedRow(old(Row()), entries, narrowing.setter)
    {
      assert entries[..0] == [];
      var i := 0;
      while i < |entries|
        invariant i <= |entries|
        invariant Row() == ReleasedRow(old(Row()), entries[..i], narrowing.setter)
      {
        if entries[i].usable {
          EntryBelow(entries, i, Limit());
          ClearEntry(entries[i].base, entries[i].length);
        }
        ReleasedNext(old(Row()), entries, i, narrowing.setter);
        i := i + 1;
      }
      assert entries[..|entries|] == entries;
    }

    /** The first two passes: every page is used, and the entry that holds the bitmap has lost its front. */
    method Prepare(memmap: array<MemEntry>)
      requires usableMemory == 0 && totalMemory == 0 && memUsableTop == 0 && usedMemory == 0
      requires bitmap.narrowing == narrowing && bitmap.buffer.Length == 0 && Bootable(memmap[..])
      modifies this, memmap
      ensures memmap[..] == Placed(old(memmap[..]), BitmapSize(old(memmap[..])))
      ensures Wired() && (bitmap == old(bitmap) || (fresh(bitmap) && fresh(bitmap.buffer)))
      ensures Row() == Repeat(true, 8 * BitmapSize(old(memmap[..])))
      ensures memUsableTop == old(Top(memmap[..])) && lastIndex == old(lastIndex)
      ensures usableMemory == old(SumUsable(memmap[..])) && usedMemory == old(BitmapSize(memmap[..]))
    {
      Measure(memmap);
      NothingToPlace(memmap[..]);
      assert Row() == [];
      var bitmapSize := AlignUp(memUsableTop / 0x1000 / 8, 0x1000);
      Place(memmap, bitmapSize);
    }

    /**
     Boot, for any widths: the bitmap goes into usable memory, and the bits that the remaining usable pages
     reach are cleared.  When both widths reach the limit, exactly these pages are free, and the counters agree.
     */
    method Init(memmap: array<MemEntry>)
      requires usableMemory == 0 && totalMemory == 0 && memUsableTop == 0 && usedMemory == 0 && lastIndex == 0
      requires bitmap.narrowing == narrowing && bitmap.buffer.Length == 0
      requires Aligned(memmap[..]) && Disjoint(memmap[..]) && !InUsable(memmap[..], 0) && Bootable(memmap[..])
      modifies this, memmap, bitmap.buffer
      ensures InBounds() && lastIndex == 0 && Limit() == old(Top(memmap[..])) / 0x1000
      ensures bitmap == old(bitmap) || (fresh(bitmap) && fresh(bitmap.buffer))
      ensures memmap[..] == Placed(old(memmap[..]), BitmapSize(old(memmap[..])))
      ensures Row() == BootRow(old(memmap[..]), narrowing.setter)
      ensures usableMemory == old(SumUsable(memmap[..])) && usedMemory == old(BitmapSize(memmap[..]))
      ensures Coherent(Limit(), narrowing) ==> Valid() && Released(memmap[..], Bits())
    {
      ghost var entries := memmap[..];
      Prepare(memmap);
      PlacedKeeps(entries);
      Release(memmap[..]);
      if Coherent(Limit(), narrowing) { BootKeepsValid(entries, narrowing); }
    }
  }

  /** Every page is used, and then the pages of what is left of the map are released. */
  function BootRow(s: seq<MemEntry>, w: Width): seq<bool> {
    ReleasedRow(Repeat(true, 8 * BitmapSize(s)), Placed(s, BitmapSize(s)), w)
  }

  /** Some usable entry holds the bitmap, unless there is none, and the bitmap has a bit for every page. */
  predicate Bootable(s: seq<MemEntry>) {
    (AnyFits(s, BitmapSize(s)) || NoneUsable(s)) && Top(s) / 0x1000 <= 8 * BitmapSize(s)
  }

  /** What releasing the usable entries in turn does to the bits. */
  function ReleasedRow(row: seq<bool>, s: seq<MemEntry>, w: Width): (r: seq<bool>)
    ensures |r| == |row|
  {
    if s == [] then row
    else
      var r, e := ReleasedRow(row, s[..|s| - 1], w), s[|s| - 1];
      if e.usable then MarkRow(r, e.base / 0x1000, e.length / 0x1000, false, w) else r
  }

  lemma ReleasedNext(row: seq<bool>, s: seq<MemEntry>, i: nat, w: Width)
    requires i < |s|
    ensures var r := ReleasedRow(row, s[..i], w);
            ReleasedRow(row, s[..i + 1], w) ==
              if s[i].usable then MarkRow(r, s[i].base / 0x1000, s[i].length / 0x1000, false, w) else r
  {
    assert s[..i + 1][..i] == s[..i];
  }

  lemma NothingToPlace(s: seq<MemEntry>)
    ensures NoneUsable(s) ==> Top(s) == 0 && BitmapSize(s) == 0 && Placed(s, 0) == s && !AnyFits(s, 0)
  {
    if NoneUsable(s) {
      NoTop(s);
      PlacedAt(s, 0, |s|);
      NoBitmap(Top(s) / 0x1000 / 8);
    }
  }

  lemma NoBitmap(bytes: nat)
    requires bytes == 0
    ensures AlignUp(bytes, 0x1000) == 0
  {
    AlignUpToPage(bytes);
  }

  lemma {:induction false} NoTop(s: seq<MemEntry>)
    requires NoneUsable(s)
    ensures Top(s) == 0
    decreases |s|
  {
    if s != [] { NoTop(s[..|s| - 1]); }
  }

  /** Placing the bitmap keeps the map well formed and page 0 reserved. */
  lemma PlacedKeeps(s: seq<MemEntry>)
    requires Aligned(s) && Disjoint(s) && Bootable(s)
    ensures var now := Placed(s, BitmapSize(s));
            && Aligned(now) && Disjoint(now) && Below(now, Top(s) / 0x1000)
            && (forall p :: InUsable(now, p) ==> InUsable(s, p))
            && SumUsable(now) + BitmapSize(s) == SumUsable(s)
  {
    var size := BitmapSize(s);
    if AnyFits(s, size) {
      var k := PlacedWhere(s, size);
      BitmapSizeAligned(s);
      ShrinkKeeps(s, k, size);
    } else {
      NothingToPlace(s);
      assert Below(s, Top(s) / 0x1000);
    }
  }

  /** When both widths reach the limit, `init` frees exactly the usable pages that are left, and the counters agree. */
  lemma BootKeepsValid(s: seq<MemEntry>, n: Narrowing)
    requires Aligned(s) && Disjoint(s) && Bootable(s) && !InUsable(s, 0) && Coherent(Top(s) / 0x1000, n)
    ensures var bits := Seen(BootRow(s, n.setter), Top(s) / 0x1000, n.getter);
            Released(Placed(s, BitmapSize(s)), bits) && Accounted(bits, SumUsable(s), BitmapSize(s))
  {
    var ones, now, limit := Repeat(true, 8 * BitmapSize(s)), Placed(s, BitmapSize(s)), Top(s) / 0x1000;
    PlacedKeeps(s);
    AllSeen(ones, limit, n);
    CoherentRelease(ones, limit, n, now, |now|);
    assert now[..|now|] == now;
    ReleasedAccounted(s, now, Seen(BootRow(s, n.setter), limit, n.getter), BitmapSize(s));
  }

  lemma {:induction false} CoherentRelease(row: seq<bool>, limit: nat, n: Narrowing, s: seq<MemEntry>, i: nat)
    requires Coherent(limit, n) && limit <= |row| && AllUsed(Seen(row, limit, n.getter))
    requires Aligned(s) && Disjoint(s) && Below(s, limit) && i <= |s|
    ensures Released(s[..i], Seen(ReleasedRow(row, s[..i], n.setter), limit, n.getter))
    decreases i
  {
    if i == 0 {
      NoneReleased(row, limit, n, s[..i]);
    } else {
      CoherentRelease(row, limit, n, s, i - 1);
      CoherentNext(row, limit, n, s, i - 1);
    }
  }

  lemma NoneReleased(row: seq<bool>, limit: nat, n: Narrowing, none: seq<MemEntry>)
    requires none == [] && AllUsed(Seen(row, limit, n.getter))
    ensures Released(none, Seen(ReleasedRow(row, none, n.setter), limit, n.getter))
  {
    NothingReleased(Seen(row, limit, n.getter));
  }

  lemma CoherentNext(row: seq<bool>, limit: nat, n: Narrowing, s: seq<MemEntry>, i: nat)
    requires Coherent(limit, n) && limit <= |row| && Aligned(s) && Disjoint(s) && Below(s, limit) && i < |s|
    requires Released(s[..i], Seen(ReleasedRow(row, s[..i], n.setter), limit, n.getter))
    ensures Released(s[..i + 1], Seen(ReleasedRow(row, s[..i + 1], n.setter), limit, n.getter))
  {
    ReleasedNext(row, s, i, n.setter);
    CoherentEntry(ReleasedRow(row, s[..i], n.setter), ReleasedRow(row, s[..i + 1], n.setter), limit, n, s, i);
  }

  /** One entry more. */
  lemma CoherentEntry(before: seq<bool>, after: seq<bool>, limit: nat, n: Narrowing, s: seq<MemEntry>, i: nat)
    requires Coherent(limit, n) && limit <= |before| && Aligned(s) && Disjoint(s) && Below(s, limit) && i < |s|
    requires after == if s[i].usable then MarkRow(before, s[i].base / 0x1000, s[i].length / 0x1000, false, n.setter) else before
    requires Released(s[..i], Seen(before, limit, n.getter))
    ensures Released(s[..i + 1], Seen(after, limit, n.getter))
  {
    if s[i].usable {
      EntryBelow(s, i, limit);
      CoherentMark(before, limit, n, s[i].base / 0x1000, s[i].length / 0x1000, false);
    }
    ReleaseEntry(s, i, Seen(before, limit, n.getter), Seen(after, limit, n.getter));
  }

  /** The bytes `init` reserves for the bitmap. */
  function BitmapSize(s: seq<MemEntry>): nat { AlignUp(Top(s) / 0x1000 / 8, 0x1000) }

  predicate Below(s: seq<MemEntry>, limit: nat) {
    forall k :: 0 <= k < |s| && s[k].usable ==> s[k].base + s[k].length <= 0x1000 * limit
  }

  /** A page is free exactly when a usable entry holds it, and the free pages are as many as the entries say. */
  ghost predicate Released(s: seq<MemEntry>, bits: Pages) {
    && (forall p :: 0 <= p < |bits| ==> (bits[p] <==> !InUsable(s, p)))
    && 0x1000 * Clear(bits) == SumUsable(s)
  }

  lemma FrameOfOffset(base: nat, length: nat, n: nat, t: nat, limit: nat)
    requires base % 0x1000 == 0 && length % 0x1000 == 0 && t == 0x1000 * n && t < length && (base + length) / 0x1000 <= limit
    ensures (base + t) / 0x1000 == base / 0x1000 + n < limit && n + 1 <= length / 0x1000
  {
  }

  predicate AllUsed(bits: Pages) { forall p :: 0 <= p < |bits| ==> bits[p] }

  lemma AllSeen(row: seq<bool>, limit: nat, n: Narrowing)
    requires Coherent(limit, n) && limit <= |row| && AllUsed(row)
    ensures AllUsed(Seen(row, limit, n.getter))
  {
    forall p | 0 <= p < limit ensures Seen(row, limit, n.getter)[p] {
      SeenAt(row, limit, n.getter, p);
    }
  }

  /** The counters agree after the third pass, and page 0 stays reserved. */
  lemma ReleasedAccounted(entries: seq<MemEntry>, now: seq<MemEntry>, bits: Pages, size: nat)
    requires Released(now, bits) && SumUsable(now) + size == SumUsable(entries)
    requires !InUsable(entries, 0) && (InUsable(now, 0) ==> InUsable(entries, 0))
    ensures Accounted(bits, SumUsable(entries), size)
  {
  }

  lemma NothingReleased(bits: Pages)
    requires AllUsed(bits)
    ensures Released([], bits)
  {
    assert bits == Repeat(true, |bits|);
    ClearAllUsed(|bits|);
  }

  lemma AllOnes(bytes: seq<bv8>)
    requires forall j :: 0 <= j < |bytes| ==> bytes[j] == 0xFF
    ensures RowOf(bytes) == Repeat(true, 8 * |bytes|)
  {
    forall i: nat | i < 8 * |bytes| ensures RowOf(bytes)[i] { OneBit(bytes, i); }
    SameRows(RowOf(bytes), Repeat(true, 8 * |bytes|));
  }

  lemma OneBit(bytes: seq<bv8>, i: nat)
    requires i < 8 * |bytes| && forall j :: 0 <= j < |bytes| ==> bytes[j] == 0xFF
    ensures RowOf(bytes)[i]
  {
    RowIsBits(bytes, i);
    assert bytes[i / 8] == 0xFF;
    assert (0xFF as bv8) & DigitMask(i % 8) == DigitMask(i % 8);
  }

  lemma EntryBelow(entries: seq<MemEntry>, i: nat, limit: nat)
    requires i < |entries| && entries[i].usable && Aligned(entries) && Below(entries, limit)
    ensures (entries[i].base + entries[i].length) / 0x1000 <= limit
    ensures entries[i].base / 0x1000 + entries[i].length / 0x1000 == (entries[i].base + entries[i].length) / 0x1000
  {
  }

  /** The pages of a further entry were all still used, because no earlier entry holds them. */
  lemma ReleaseEntry(entries: seq<MemEntry>, i: nat, before: Pages, now: Pages)
    requires i < |entries| && Aligned(entries) && Disjoint(entries) && Below(entries, |before|)
    requires Released(entries[..i], before) && |now| == |before|
    requires if entries[i].usable then
               var page, count := entries[i].base / 0x1000, entries[i].length / 0x1000;
               page + count <= |before| && now == Mark(before, page, count, false)
             else now == before
    ensures Released(entries[..i + 1], now)
  {
    var e := entries[i];
    var page, count := e.base / 0x1000, e.length / 0x1000;
    assert entries[..i + 1][..i] == entries[..i];
    forall p | 0 <= p < |now| ensures now[p] <==> !InUsable(entries[..i + 1], p) {
      InUsableSnoc(entries, i, p);
    }
    if e.usable {
      EntryStillUsed(entries, i, before, page, count);
      ClearMark(before, page, count, false);
    }
  }

  lemma EntryStillUsed(entries: seq<MemEntry>, i: nat, before: Pages, page: nat, count: nat)
    requires i < |entries| && Aligned(entries) && Disjoint(entries) && entries[i].usable
    requires page == entries[i].base / 0x1000 && count == entries[i].length / 0x1000 && page + count <= |before|
    requires forall p :: 0 <= p < |before| ==> (before[p] <==> !InUsable(entries[..i], p))
    ensures forall p :: page <= p < page + count ==> before[p]
  {
    forall p | page <= p < page + count ensures before[p] {
      assert Holds(entries[i], p);
      NotHeldTwice(entries, i, p);
    }
  }

  lemma NotHeldTwice(entries: seq<MemEntry>, i: nat, p: nat)
    requires i < |entries| && Disjoint(entries) && Holds(entries[i], p)
    ensures !InUsable(entries[..i], p)
  {
    forall k | 0 <= k < i ensures !Holds(entries[..i][k], p) {
      assert entries[k].usable ==> Apart(entries[k], entries[i]);
    }
  }

  lemma InUsableSnoc(entries: seq<MemEntry>, i: nat, p: nat)
    requires i < |entries|
    ensures InUsable(entries[..i + 1], p) <==> InUsable(entries[..i], p) || Holds(entries[i], p)
  {
    if InUsable(entries[..i], p) {
      var k :| 0 <= k < i && Holds(entries[..i][k], p);
      assert Holds(entries[..i + 1][k], p);
    }
    if Holds(entries[i], p) { assert Holds(entries[..i + 1][i], p); }
  }

  lemma BitmapSizeAligned(s: seq<MemEntry>)
    ensures BitmapSize(s) % 0x1000 == 0
  {
    var n := Add64(Top(s) / 0x1000 / 8, 0xFFF);
    PageMask(n);
    WholePages(n);
  }

  lemma WholePages(n: nat)
    ensures (n - n % 0x1000) % 0x1000 == 0
  {
  }

  lemma ShrinkEntry(e: MemEntry, size: nat)
    requires e.base % 0x1000 == 0 && e.length % 0x1000 == 0 && size % 0x1000 == 0 && e.length >= size
    ensures Shrink(e, size).base % 0x1000 == 0 && Shrink(e, size).length % 0x1000 == 0
    ensures e.base + e.length <= 0x1000 * ((e.base + e.length) / 0x1000)
  {
  }

  lemma AlignedBelow(x: nat, top: nat)
    requires x % 0x1000 == 0 && x <= top
    ensures x <= 0x1000 * (top / 0x1000)
  {
  }

  /** Giving the front of an entry to the bitmap keeps the map well formed and page 0 reserved. */
  lemma ShrinkKeeps(entries: seq<MemEntry>, k: nat, size: nat)
    requires Aligned(entries) && Disjoint(entries) && k < |entries| && Fits(entries[k], size) && size % 0x1000 == 0
    ensures var now := entries[k := Shrink(entries[k], size)];
            && Aligned(now) && Disjoint(now) && Below(now, Top(entries) / 0x1000)
            && (forall p :: InUsable(now, p) ==> InUsable(entries, p))
            && SumUsable(now) + size == SumUsable(entries)
  {
    var now := entries[k := Shrink(entries[k], size)];
    SumShrink(entries, k, size);
    ShrinkEntry(entries[k], size);
    ShrinkStaysBelow(entries, k, size);
    forall p | InUsable(now, p) ensures InUsable(entries, p) {
      var j :| 0 <= j < |now| && Holds(now[j], p);
      assert Holds(entries[j], p);
    }
    forall i, j | 0 <= i < j < |now| && now[i].usable && now[j].usable ensures Apart(now[i], now[j]) {
      assert Apart(entries[i], entries[j]);
    }
  }

  lemma ShrinkStaysBelow(entries: seq<MemEntry>, k: nat, size: nat)
    requires Aligned(entries) && k < |entries| && Fits(entries[k], size)
    ensures Below(entries[k := Shrink(entries[k], size)], Top(entries) / 0x1000)
  {
    var now := entries[k := Shrink(entries[k], size)];
    forall j | 0 <= j < |now| && now[j].usable
      ensures now[j].base + now[j].length <= 0x1000 * (Top(entries) / 0x1000)
    {
      var e := entries[j];
      assert now[j].base + now[j].length == e.base + e.length;
      TopBounds(entries, j);
      SumAligned(e.base, e.length);
      AlignedBelow(e.base + e.length, Top(entries));
    }
  }

  lemma SumAligned(a: nat, b: nat)
    requires a % 0x1000 == 0 && b % 0x1000 == 0
    ensures (a + b) % 0x1000 == 0
  {
  }

  /** The size floors before it rounds up: the bitmap covers the limit except when the odd pages spill over a page. */
  lemma BitmapCoversIff(s: seq<MemEntry>)
    requires Top(s) < WORD
    ensures var limit := Top(s) / 0x1000;
            limit <= 8 * BitmapSize(s) <==> limit % 8 == 0 || limit / 8 % 0x1000 != 0
  {
    var limit := Top(s) / 0x1000;
    CoverageIff(limit);
  }

  /** One usable entry that ends after 32769 pages: the bitmap has too few bits. */
  lemma BitmapTooSmall(s: seq<MemEntry>)
    requires s == [MemEntry(0x1000, 0x8000 * 0x1000, true)]
    ensures Top(s) / 0x1000 == 32769 > 8 * BitmapSize(s)
  {
    assert s[..|s| - 1] == [];
    assert Top(s) == 0x8001 * 0x1000;
    BitmapCoversIff(s);
  }

  lemma CoverageIff(limit: nat)
    requires 0x1000 * limit < WORD
    ensures limit <= 8 * AlignUp(limit / 8, 0x1000) <==> limit % 8 == 0 || limit / 8 % 0x1000 != 0
  {
    var b := limit / 8;
    AlignUpToPage(b);
    CoverageOf(limit, b, b + 0xFFF - (b + 0xFFF) % 0x1000);
  }

  lemma CoverageOf(limit: nat, b: nat, size: nat)
    requires b == limit / 8 && size == b + 0xFFF - (b + 0xFFF) % 0x1000
    ensures limit <= 8 * size <==> limit % 8 == 0 || b % 0x1000 != 0
  {
    RoundsUp(b, size);
  }

  lemma RoundsUp(b: nat, size: nat)
    requires size == b + 0xFFF - (b + 0xFFF) % 0x1000
    ensures if b % 0x1000 == 0 then size == b else size >= b + 1
  {
  }

  lemma AlignUpToPage(b: nat)
    requires b + 0xFFF < WORD
    ensures AlignUp(b, 0x1000) == b + 0xFFF - (b + 0xFFF) % 0x1000
  {
    PageMask(b + 0xFFF);
  }
}
