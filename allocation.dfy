/** The value-level logic of src/manager/MemoryManager.java: the page
    arithmetic, the checks of a creation request, the scans of the process
    table, the range of raw memory a process is written to, and the rows the
    display methods produce. The class in manager.dfy runs these over its
    state. */
module Allocation {
  import opened Bytes
  import opened Errors
  import opened Records

  // ---------------------------------------------------------------------
  // Page arithmetic

  /** calculateProcessAllocationInfo: the number of pages is the ceiling of
      size / pageSize, and the last-page figure is the remainder. */
  function CalculateProcessAllocationInfo(processSize: nat, pageSize: nat): (r: ProcessAllocationInfo)
    requires pageSize > 0
    ensures r.unfilledPageSlotsSize == processSize % pageSize
    ensures processSize <= r.numberOfPagesForProcess * pageSize
    ensures 0 < processSize ==> (r.numberOfPagesForProcess - 1) * pageSize < processSize
    ensures processSize == 0 ==> r.numberOfPagesForProcess == 0
    ensures r.numberOfPagesForProcess * pageSize == processSize <==> r.unfilledPageSlotsSize == 0
  {
    var unfilledPageSlotsSize := processSize % pageSize;
    if unfilledPageSlotsSize == 0 then
      ProcessAllocationInfo(processSize / pageSize, unfilledPageSlotsSize)
    else
      ProcessAllocationInfo(processSize / pageSize + 1, unfilledPageSlotsSize)
  }

  /** The number of pages a process of the given size takes. */
  function Pages(size: nat, pageSize: nat): nat
    requires pageSize > 0
  {
    CalculateProcessAllocationInfo(size, pageSize).numberOfPagesForProcess
  }

  lemma MulMono(a: nat, b: nat, c: nat)
    requires a <= b
    ensures a * c <= b * c
  {
  }

  /** The whole pages of a memory fit in it. */
  lemma WholePagesFit(memorySize: nat, pageSize: nat)
    requires pageSize > 0
    ensures (memorySize / pageSize) * pageSize <= memorySize
  {
  }

  /** The page count is the least number of whole pages that holds the size. */
  lemma PagesIsLeast(size: nat, pageSize: nat, m: nat)
    requires pageSize > 0
    requires size <= m * pageSize
    ensures Pages(size, pageSize) <= m
  {
    var n := Pages(size, pageSize);
    if m < n {
      MulMono(m, n - 1, pageSize);
    }
  }

  /** calculateFrameIndexForMemoryIndex: the frame a raw-memory index falls in. */
  function CalculateFrameIndexForMemoryIndex(index: nat, pageSize: nat): (r: nat)
    requires pageSize > 0
    ensures r * pageSize <= index < (r + 1) * pageSize
  {
    index / pageSize
  }

  // ---------------------------------------------------------------------
  // How many slots each page of a process gets

  /** Slots filled in page i of n when the last page gets `last` slots
      (slotsToFill / displacement in the source). */
  function PageFill(i: nat, n: nat, last: nat, pageSize: nat): nat
  {
    if i == n - 1 then last else pageSize
  }

  /** The value slotsToFill holds after the allocation loop: the last-page
      figure, or the page size when the loop did not run. */
  function LastPageSlots(n: nat, unfilled: nat, pageSize: nat): nat
  {
    if n == 0 then pageSize else unfilled
  }

  /** Slots filled in pages 0 .. i-1. */
  function FilledBefore(i: nat, n: nat, last: nat, pageSize: nat): nat
  {
    if i == 0 then 0 else FilledBefore(i - 1, n, last, pageSize) + PageFill(i - 1, n, last, pageSize)
  }

  /** More pages never fill fewer slots. */
  lemma {:induction false} FilledBeforeMono(i: nat, j: nat, n: nat, last: nat, pageSize: nat)
    requires i <= j
    ensures FilledBefore(i, n, last, pageSize) <= FilledBefore(j, n, last, pageSize)
  {
    if i < j {
      FilledBeforeMono(i, j - 1, n, last, pageSize);
    }
  }

  /** Every page before the last is full. */
  lemma {:induction false} FilledBeforeFull(i: nat, n: nat, last: nat, pageSize: nat)
    requires i < n
    ensures FilledBefore(i, n, last, pageSize) == i * pageSize
  {
    if i > 0 {
      FilledBeforeFull(i - 1, n, last, pageSize);
    }
  }

  /** The n pages together hold (n - 1) full pages and the last figure. */
  lemma FilledBeforeAll(n: nat, last: nat, pageSize: nat)
    requires 0 < n
    ensures FilledBefore(n, n, last, pageSize) == (n - 1) * pageSize + last
  {
    FilledBeforeFull(n - 1, n, last, pageSize);
  }

  /** The slots the allocation fills add up to the size, except when the
      size is a positive exact multiple of the page size: the last page then
      gets size % pageSize = 0 slots and one page's worth is missing. */
  lemma FilledSlotsOfProcess(size: nat, pageSize: nat)
    requires pageSize > 0
    ensures var info := CalculateProcessAllocationInfo(size, pageSize);
            var n := info.numberOfPagesForProcess;
            FilledBefore(n, n, info.unfilledPageSlotsSize, pageSize)
              == if 0 < size && size % pageSize == 0 then size - pageSize else size
  {
    var info := CalculateProcessAllocationInfo(size, pageSize);
    var n := info.numberOfPagesForProcess;
    if n > 0 {
      FilledBeforeAll(n, info.unfilledPageSlotsSize, pageSize);
      if info.unfilledPageSlotsSize == 0 {
        assert (n - 1) * pageSize == n * pageSize - pageSize;
      } else {
        assert size == (size / pageSize) * pageSize + size % pageSize;
        assert n - 1 == size / pageSize;
      }
    }
  }

  /** With a last figure of at most a page, n pages never exceed n full pages. */
  lemma {:induction false} FilledBeforeBound(i: nat, n: nat, last: nat, pageSize: nat)
    requires last <= pageSize
    ensures FilledBefore(i, n, last, pageSize) <= i * pageSize
  {
    if i > 0 {
      FilledBeforeBound(i - 1, n, last, pageSize);
    }
  }

  /** The raw-memory offset of slot d of page q. */
  function Offset(q: nat, d: nat, pageSize: nat): nat
  {
    q * pageSize + d
  }

  /** Slot d of page q, for d below that page's fill, lies inside the range
      the process is written to. */
  lemma PageSlotIsWritten(q: nat, d: nat, n: nat, last: nat, pageSize: nat)
    requires q < n && d < PageFill(q, n, last, pageSize)
    ensures Offset(q, d, pageSize) < FilledBefore(n, n, last, pageSize)
  {
    FilledBeforeAll(n, last, pageSize);
    if q < n - 1 {
      MulMono(q + 1, n - 1, pageSize);
    }
  }

  /** An offset below n full pages is on one of the first n pages. */
  lemma DivBelow(w: nat, n: nat, pageSize: nat)
    requires pageSize > 0 && w < n * pageSize
    ensures w / pageSize < n
  {
    var q := w / pageSize;
    if n <= q {
      MulMono(n, q, pageSize);
    }
  }

  /** Conversely, every offset of the written range is slot w % pageSize of
      page w / pageSize, below that page's fill. */
  lemma WrittenOffsetIsPageSlot(w: nat, n: nat, last: nat, pageSize: nat)
    requires pageSize > 0 && last <= pageSize
    requires w < FilledBefore(n, n, last, pageSize)
    ensures w / pageSize < n && w % pageSize < PageFill(w / pageSize, n, last, pageSize)
    ensures Offset(w / pageSize, w % pageSize, pageSize) == w
  {
    FilledBeforeBound(n, n, last, pageSize);
    DivBelow(w, n, pageSize);
    var q := w / pageSize;
    var d := w % pageSize;
    assert w == q * pageSize + d;
    if q == n - 1 {
      FilledBeforeAll(n, last, pageSize);
    }
  }

  // ---------------------------------------------------------------------
  // The checks of createProcess

  /** checkProcessId: -1 asks for the next id; an explicit id is accepted when
      it is not below the counter. */
  function ResolveId(lastProcessId: int, processId: int): (r: Result<int>)
    ensures r.Success? <==> (processId == -1 || lastProcessId <= processId)
    ensures r.Failure? ==> r.error == UnsupportedId
    ensures r.Success? ==> lastProcessId <= r.value
    ensures r.Success? && processId == -1 ==> r.value == lastProcessId + 1
    ensures r.Success? && processId != -1 ==> r.value == processId
  {
    if processId == -1 then Success(lastProcessId + 1)
    else if processId < lastProcessId then Failure(UnsupportedId)
    else Success(processId)
  }

  /** The counter after checkProcessId: advanced for -1 only. */
  function NextLastProcessId(lastProcessId: int, processId: int): int
  {
    if processId == -1 then lastProcessId + 1 else lastProcessId
  }

  /** An automatic id is the new value of the counter, so automatic ids
      strictly increase; an explicit id leaves the counter where it was. */
  lemma ResolvedIdAndCounter(lastProcessId: int, processId: int)
    requires ResolveId(lastProcessId, processId).Success?
    ensures lastProcessId <= NextLastProcessId(lastProcessId, processId)
    ensures processId == -1 ==> ResolveId(lastProcessId, processId).value == NextLastProcessId(lastProcessId, processId)
    ensures processId != -1 ==> NextLastProcessId(lastProcessId, processId) == lastProcessId
  {
  }

  /** The counter starts at 0: the first two automatic ids are 1 and 2. */
  lemma FirstAutomaticIds()
    ensures ResolveId(0, -1) == Success(1)
    ensures ResolveId(NextLastProcessId(0, -1), -1) == Success(2)
  {
  }

  /** An accepted explicit id may be given again, and an automatic id may
      repeat an explicit one: the counter does not move past explicit ids. */
  lemma RepeatedIdsAccepted(lastProcessId: int, processId: int)
    requires processId != -1 && lastProcessId <= processId
    ensures ResolveId(NextLastProcessId(lastProcessId, processId), processId) == Success(processId)
    ensures processId == lastProcessId + 1 ==>
      ResolveId(NextLastProcessId(lastProcessId, processId), -1) == Success(processId)
  {
  }

  /** The three checks of createProcess in their order: the size against the
      maximum, the free frames against the pages needed, then the id. */
  function CheckCreate(configuration: Configuration, freeFrames: nat, lastProcessId: int,
                       processId: int, processSize: nat): (r: Result<int>)
    requires configuration.pageSize > 0
    ensures r == Failure(ProcessTooLarge) <==> configuration.maxProcessSize < processSize
    ensures r == Failure(InsufficientMemory) <==>
      processSize <= configuration.maxProcessSize && freeFrames < Pages(processSize, configuration.pageSize)
    ensures r == Failure(UnsupportedId) <==>
      processSize <= configuration.maxProcessSize && Pages(processSize, configuration.pageSize) <= freeFrames
      && ResolveId(lastProcessId, processId).Failure?
    ensures r.Success? ==> r == ResolveId(lastProcessId, processId)
  {
    if configuration.maxProcessSize < processSize then Failure(ProcessTooLarge)
    else if freeFrames < Pages(processSize, configuration.pageSize) then Failure(InsufficientMemory)
    else ResolveId(lastProcessId, processId)
  }

  // ---------------------------------------------------------------------
  // Scans of the process table (None is an empty slot)

  /** Entries lo .. hi-1 are all occupied and none has the id. */
  ghost predicate Misses(table: seq<Option<Process>>, lo: nat, hi: nat, processId: int)
    requires hi <= |table|
  {
    forall j :: lo <= j < hi ==> table[j].Some? && table[j].value.id != processId
  }

  /** The scan of getProcessById from entry k: the first entry with the id,
      or a null dereference at an earlier empty slot, or UnsupportedId at the
      end of a table with no empty slot before it. */
  function FindFrom(table: seq<Option<Process>>, processId: int, k: nat): (r: Result<nat>)
    requires k <= |table|
    decreases |table| - k
    ensures r.Success? ==>
      k <= r.value < |table| && table[r.value].Some? && table[r.value].value.id == processId
      && Misses(table, k, r.value, processId)
    ensures r.Failure? ==> r.error == UnsupportedId || r.error == NullDereference
    ensures r == Failure(UnsupportedId) ==> Misses(table, k, |table|, processId)
    ensures r == Failure(NullDereference) ==>
      exists i :: k <= i < |table| && table[i].None? && Misses(table, k, i, processId)
  {
    if k == |table| then Failure(UnsupportedId)
    else if table[k].None? then Failure(NullDereference)
    else if table[k].value.id == processId then Success(k)
    else FindFrom(table, processId, k + 1)
  }

  /** An occupied prefix holding the id is always found, at or before that entry. */
  lemma FindInOccupiedPrefix(table: seq<Option<Process>>, processId: int, idx: nat)
    requires idx < |table|
    requires forall j :: 0 <= j <= idx ==> table[j].Some?
    requires table[idx].value.id == processId
    ensures FindFrom(table, processId, 0).Success?
    ensures FindFrom(table, processId, 0).value <= idx
  {
  }

  /** The scan of calculateAvailableProcessIndex from entry k: the first empty slot. */
  function FirstEmptyFrom(table: seq<Option<Process>>, k: nat): (r: Option<nat>)
    requires k <= |table|
    decreases |table| - k
    ensures r.Some? ==>
      k <= r.value < |table| && table[r.value].None?
      && forall j :: k <= j < r.value ==> table[j].Some?
    ensures r.None? ==> forall j :: k <= j < |table| ==> table[j].Some?
  {
    if k == |table| then None
    else if table[k].None? then Some(k)
    else FirstEmptyFrom(table, k + 1)
  }

  /** The scan of getMemoryFrameIndexForFrame from position k: the first
      position holding x, or 0 when there is none. */
  function IndexFrom<T(==)>(s: seq<T>, x: T, k: nat): (r: nat)
    requires k <= |s|
    decreases |s| - k
    ensures (exists i :: k <= i < |s| && s[i] == x) ==>
      k <= r < |s| && s[r] == x && forall j :: k <= j < r ==> s[j] != x
    ensures (forall i :: k <= i < |s| ==> s[i] != x) ==> r == 0
  {
    if k == |s| then 0
    else if s[k] == x then k
    else IndexFrom(s, x, k + 1)
  }

  /** In a sequence without repetitions the scan finds an element's own position. */
  lemma IndexOfDistinct<T>(s: seq<T>, k: nat)
    requires k < |s|
    requires forall i, j :: 0 <= i < j < |s| ==> s[i] != s[j]
    ensures IndexFrom(s, s[k], 0) == k
  {
  }

  // ---------------------------------------------------------------------
  // The page layout of the process table

  /** Pages taken by one table entry (none for an empty slot). */
  function EntryPages(e: Option<Process>, pageSize: nat): nat
    requires pageSize > 0
  {
    if e.None? then 0 else Pages(e.value.size, pageSize)
  }

  /** Pages taken by all entries, summed in table order as
      getBaseStartingIndexForProcess does. */
  function TotalPages(table: seq<Option<Process>>, pageSize: nat): nat
    requires pageSize > 0
  {
    if table == [] then 0
    else TotalPages(table[..|table| - 1], pageSize) + EntryPages(table[|table| - 1], pageSize)
  }

  /** The n page indices a, a + 1, ..., a + n - 1. */
  function Range(a: nat, n: nat): seq<nat>
  {
    seq(n, i => a + i)
  }

  /** An entry and everything before it take no more than the whole table. */
  lemma {:induction false} PrefixTotal(table: seq<Option<Process>>, pageSize: nat, j: nat)
    requires pageSize > 0 && j < |table|
    ensures TotalPages(table[..j], pageSize) + EntryPages(table[j], pageSize) <= TotalPages(table, pageSize)
  {
    var m := |table| - 1;
    if j < m {
      var t := table[..m];
      PrefixTotal(t, pageSize, j);
      assert t[..j] == table[..j];
    } else {
      assert table[..m] == table[..j];
    }
  }

  /** Empty slots at the end add no pages. */
  lemma {:induction false} TotalPagesEmptyTail(table: seq<Option<Process>>, pageSize: nat, k: nat)
    requires pageSize > 0 && k <= |table|
    requires forall j :: k <= j < |table| ==> table[j].None?
    ensures TotalPages(table, pageSize) == TotalPages(table[..k], pageSize)
  {
    if k < |table| {
      var t := table[..|table| - 1];
      TotalPagesEmptyTail(t, pageSize, k);
      assert t[..k] == table[..k];
    } else {
      assert table[..k] == table;
    }
  }

  /** Entry j, when occupied, comes after occupied entries only, and its
      pages are the ones that follow the pages of the entries before it. */
  ghost predicate Placed(table: seq<Option<Process>>, pageSize: nat, j: nat)
    requires pageSize > 0 && j < |table|
  {
    table[j].Some? ==>
      && (forall i :: 0 <= i < j ==> table[i].Some?)
      && table[j].value.pageTable == Range(TotalPages(table[..j], pageSize), Pages(table[j].value.size, pageSize))
  }

  /** The invariant of the process table after any sequence of requests:
      occupied entries form a prefix; entry j holds the next Pages(size) page
      indices after those of the entries before it; the table accounts for no
      more pages than were taken from the free list, and for exactly those
      while it still has an empty slot (frames are taken without a table
      entry only once it is full). */
  ghost predicate TableInvariant(table: seq<Option<Process>>, pageSize: nat, consumed: int)
    requires pageSize > 0
  {
    && (forall j :: 0 <= j < |table| ==> Placed(table, pageSize, j))
    && TotalPages(table, pageSize) <= consumed
    && (FirstEmptyFrom(table, 0).Some? ==> TotalPages(table, pageSize) == consumed)
  }

  /** Frames consumed while the table is full leave the invariant in force. */
  lemma ConsumeWhileFull(table: seq<Option<Process>>, pageSize: nat, consumed: int, n: nat)
    requires pageSize > 0 && TableInvariant(table, pageSize, consumed)
    requires FirstEmptyFrom(table, 0).None?
    ensures TableInvariant(table, pageSize, consumed + n)
  {
  }

  /** Registering a process that took the next pages in the first empty slot
      keeps the invariant, and the scan of getProcessById then finds its id
      at or before that slot. */
  lemma InsertAtFirstEmpty(table: seq<Option<Process>>, pageSize: nat, consumed: nat, p: Process)
    requires pageSize > 0 && TableInvariant(table, pageSize, consumed)
    requires FirstEmptyFrom(table, 0).Some?
    requires p.pageTable == Range(consumed, Pages(p.size, pageSize))
    ensures var idx := FirstEmptyFrom(table, 0).value;
            var t := table[idx := Some(p)];
            && TableInvariant(t, pageSize, consumed + Pages(p.size, pageSize))
            && FindFrom(t, p.id, 0).Success? && FindFrom(t, p.id, 0).value <= idx
  {
    var idx := FirstEmptyFrom(table, 0).value;
    var t := table[idx := Some(p)];
    var n := Pages(p.size, pageSize);
    forall j | idx < j < |table|
      ensures table[j].None?
    {
      assert Placed(table, pageSize, j);
    }
    TotalPagesEmptyTail(table, pageSize, idx);
    TotalPagesEmptyTail(t, pageSize, idx + 1);
    assert t[..idx + 1][..idx] == table[..idx];
    assert t[..idx] == table[..idx];
    assert TotalPages(t, pageSize) == consumed + n;
    forall j | 0 <= j < |t|
      ensures Placed(t, pageSize, j)
    {
      if j < idx {
        assert Placed(table, pageSize, j);
        assert t[..j] == table[..j];
      }
    }
    FindInOccupiedPrefix(t, p.id, idx);
  }

  /** The pages of a registered entry were all taken from the free list. */
  lemma RegisteredPagesConsumed(table: seq<Option<Process>>, pageSize: nat, consumed: int, j: nat)
    requires pageSize > 0 && TableInvariant(table, pageSize, consumed)
    requires j < |table| && table[j].Some?
    ensures forall q :: 0 <= q < |table[j].value.pageTable| ==> table[j].value.pageTable[q] < consumed
  {
    assert Placed(table, pageSize, j);
    PrefixTotal(table, pageSize, j);
  }

  /** No page belongs to two registered entries: the pages of an earlier
      entry all come before those of a later one. */
  lemma RegisteredPagesDisjoint(table: seq<Option<Process>>, pageSize: nat, consumed: int, i: nat, j: nat)
    requires pageSize > 0 && TableInvariant(table, pageSize, consumed)
    requires i < j < |table| && table[j].Some?
    ensures table[i].Some?
    ensures forall a, b :: 0 <= a < |table[i].value.pageTable| && 0 <= b < |table[j].value.pageTable| ==>
      table[i].value.pageTable[a] < table[j].value.pageTable[b]
  {
    assert Placed(table, pageSize, j);
    assert Placed(table, pageSize, i);
    var t := table[..j];
    PrefixTotal(t, pageSize, i);
    assert t[..i] == table[..i];
  }

  // ---------------------------------------------------------------------
  // The raw-memory write of occupyMemorySlots

  /** raw with the indices lo .. hi-1 set to b. */
  function FillRange(raw: seq<int8>, lo: int, hi: int, b: int8): seq<int8>
  {
    seq(|raw|, x requires 0 <= x < |raw| => FilledAt(raw[x], x, lo, hi, b))
  }

  function FilledAt(previous: int8, x: int, lo: int, hi: int, b: int8): int8
  {
    if lo <= x < hi then b else previous
  }

  /** The first raw-memory index of the first table entry with the id: the
      pages of the entries before it, in table order. */
  function BaseOf(table: seq<Option<Process>>, processId: int, pageSize: nat): nat
    requires pageSize > 0 && FindFrom(table, processId, 0).Success?
  {
    TotalPages(table[..FindFrom(table, processId, 0).value], pageSize) * pageSize
  }

  /** Raw memory after occupyMemorySlots(processId, last): for every page q of
      the FIRST table entry with that id, PageFill(q) bytes from
      BaseOf + q * pageSize; since those runs are contiguous they form one
      range. */
  function RawAfterWrite(raw: seq<int8>, table: seq<Option<Process>>, processId: int, last: nat, pageSize: nat): seq<int8>
    requires pageSize > 0 && FindFrom(table, processId, 0).Success?
  {
    var n := |table[FindFrom(table, processId, 0).value].value.pageTable|;
    var lo := BaseOf(table, processId, pageSize);
    FillRange(raw, lo, lo + FilledBefore(n, n, last, pageSize), ToByte(processId))
  }

  /** Slot d of page q of the first entry with the id, for d below that
      page's fill, holds the id narrowed to a byte after the write; every
      written index lies inside the raw memory when the range does. */
  lemma RawAfterWritePageSlot(raw: seq<int8>, table: seq<Option<Process>>, processId: int, last: nat,
                              pageSize: nat, q: nat, d: nat)
    requires pageSize > 0 && FindFrom(table, processId, 0).Success?
    requires var n := |table[FindFrom(table, processId, 0).value].value.pageTable|;
      && BaseOf(table, processId, pageSize) + FilledBefore(n, n, last, pageSize) <= |raw|
      && q < n && d < PageFill(q, n, last, pageSize)
    ensures BaseOf(table, processId, pageSize) + Offset(q, d, pageSize) < |raw|
    ensures RawAfterWrite(raw, table, processId, last, pageSize)[BaseOf(table, processId, pageSize) + Offset(q, d, pageSize)]
            == ToByte(processId)
  {
    var n := |table[FindFrom(table, processId, 0).value].value.pageTable|;
    PageSlotIsWritten(q, d, n, last, pageSize);
  }

  /** The table and raw memory after the tail of allocateProcessIntoMemory
      registered p, whose last page gets last slots: with a free slot, p
      takes the first one and its pages are written; with the table full the
      call fails and both stay as they were. */
  ghost predicate Registered(table0: seq<Option<Process>>, raw0: seq<int8>, table: seq<Option<Process>>,
                             raw: seq<int8>, p: Process, last: nat, pageSize: nat, r: Outcome)
    requires pageSize > 0
  {
    match FirstEmptyFrom(table0, 0)
    case None =>
      r == Fail(UnavailableProcessSpace) && table == table0 && raw == raw0
    case Some(index) =>
      && r == Pass
      && table == table0[index := Some(p)]
      && FindFrom(table, p.id, 0).Success?
      && raw == RawAfterWrite(raw0, table, p.id, last, pageSize)
  }

  /** Everything occupyMemorySlots writes lies below the slots of the frames
      taken so far. */
  lemma WriteInBounds(table: seq<Option<Process>>, pageSize: nat, consumed: nat, processId: int, last: nat)
    requires pageSize > 0 && TableInvariant(table, pageSize, consumed)
    requires FindFrom(table, processId, 0).Success? && last <= pageSize
    ensures var n := |table[FindFrom(table, processId, 0).value].value.pageTable|;
            BaseOf(table, processId, pageSize) + FilledBefore(n, n, last, pageSize) <= consumed * pageSize
  {
    var j := FindFrom(table, processId, 0).value;
    var n := |table[j].value.pageTable|;
    var before := TotalPages(table[..j], pageSize);
    assert Placed(table, pageSize, j);
    PrefixTotal(table, pageSize, j);
    FilledBeforeBound(n, n, last, pageSize);
    MulMono(before + n, consumed, pageSize);
    Distribute(before, n, pageSize);
  }

  lemma Distribute(a: nat, b: nat, c: nat)
    ensures (a + b) * c == a * c + b * c
  {
  }

  // ---------------------------------------------------------------------
  // Display rows

  /** One line of a display: a raw-memory slot with its frame number, or a
      slot of a page with the page's position in the process and its frame's
      index in the frame pool. */
  datatype Row = MemoryRow(frame: nat, value: int8) | PageRow(page: nat, frame: nat, value: int8)

  /** The rows of showMemory, one per raw-memory slot, in order. */
  function MemoryRows(raw: seq<int8>, pageSize: nat): (rows: seq<Row>)
    requires pageSize > 0
    ensures |rows| == |raw|
  {
    if raw == [] then []
    else MemoryRows(raw[..|raw| - 1], pageSize)
         + [MemoryRow(CalculateFrameIndexForMemoryIndex(|raw| - 1, pageSize), raw[|raw| - 1])]
  }

  /** Row i of showMemory reports frame i / pageSize and raw-memory slot i. */
  lemma {:induction false} MemoryRowsAt(raw: seq<int8>, pageSize: nat, i: nat)
    requires pageSize > 0 && i < |raw|
    ensures |MemoryRows(raw, pageSize)| == |raw|
    ensures MemoryRows(raw, pageSize)[i] == MemoryRow(i / pageSize, raw[i])
  {
    var m := |raw| - 1;
    if i < m {
      MemoryRowsAt(raw[..m], pageSize, i);
    } else if m > 0 {
      MemoryRowsAt(raw[..m], pageSize, 0);
    }
  }

  /** rows followed by the rows of one page of a process, one per slot of
      its frame, as displayPageTableForProcess appends them. */
  function AppendPageRows(rows: seq<Row>, page: nat, frame: nat, slots: seq<int8>): (r: seq<Row>)
    ensures |r| == |rows| + |slots|
    ensures r[..|rows|] == rows
  {
    if slots == [] then rows
    else AppendPageRows(rows, page, frame, slots[..|slots| - 1]) + [PageRow(page, frame, slots[|slots| - 1])]
  }

  /** Appending one more slot appends its row. */
  lemma AppendPageRowsExtend(rows: seq<Row>, page: nat, frame: nat, slots: seq<int8>, m: nat)
    requires m < |slots|
    ensures AppendPageRows(rows, page, frame, slots[..m + 1])
            == AppendPageRows(rows, page, frame, slots[..m]) + [PageRow(page, frame, slots[m])]
  {
    assert slots[..m + 1][..m] == slots[..m];
  }

  /** Row |rows| + s of the block reports the page, the frame and slot s. */
  lemma {:induction false} AppendPageRowsAt(rows: seq<Row>, page: nat, frame: nat, slots: seq<int8>, s: nat)
    requires s < |slots|
    ensures AppendPageRows(rows, page, frame, slots)[|rows| + s] == PageRow(page, frame, slots[s])
  {
    var m := |slots| - 1;
    if s < m {
      AppendPageRowsAt(rows, page, frame, slots[..m], s);
    }
  }

  /** The rows of displayPageTableForProcess(pages): for the page at position
      i, one row per slot of its frame, naming i and the frame's position in
      the pool. frameIndex and contents give, per page, that position and the
      frame's slots. */
  function PageTableRows(pages: seq<nat>, frameIndex: map<nat, nat>, contents: map<nat, seq<int8>>): (rows: seq<Row>)
    requires forall q :: 0 <= q < |pages| ==> pages[q] in frameIndex && pages[q] in contents
  {
    if pages == [] then []
    else
      var i := |pages| - 1;
      AppendPageRows(PageTableRows(pages[..i], frameIndex, contents), i, frameIndex[pages[i]], contents[pages[i]])
  }

  /** With frames of pageSize slots there are pageSize rows per page. */
  lemma {:induction false} PageTableRowsLength(pages: seq<nat>, frameIndex: map<nat, nat>, contents: map<nat, seq<int8>>,
                                               pageSize: nat)
    requires forall q :: 0 <= q < |pages| ==> pages[q] in frameIndex && pages[q] in contents
    requires forall q :: 0 <= q < |pages| ==> |contents[pages[q]]| == pageSize
    ensures |PageTableRows(pages, frameIndex, contents)| == |pages| * pageSize
  {
    if pages != [] {
      var m := |pages| - 1;
      PageTableRowsLength(pages[..m], frameIndex, contents, pageSize);
      Distribute(m, 1, pageSize);
    }
  }

  /** With frames of pageSize slots, the block of page i starts at row
      i * pageSize, and its row s reports i, the page's frame and slot s. */
  lemma {:induction false} PageTableRowsAt(pages: seq<nat>, frameIndex: map<nat, nat>, contents: map<nat, seq<int8>>,
                                           pageSize: nat, i: nat, s: nat)
    requires forall q :: 0 <= q < |pages| ==> pages[q] in frameIndex && pages[q] in contents
    requires forall q :: 0 <= q < |pages| ==> |contents[pages[q]]| == pageSize
    requires i < |pages| && s < pageSize
    ensures i * pageSize + s < |PageTableRows(pages, frameIndex, contents)|
    ensures PageTableRows(pages, frameIndex, contents)[i * pageSize + s]
            == PageRow(i, frameIndex[pages[i]], contents[pages[i]][s])
  {
    var m := |pages| - 1;
    var init := pages[..m];
    var front := PageTableRows(init, frameIndex, contents);
    var rows := AppendPageRows(front, m, frameIndex[pages[m]], contents[pages[m]]);
    assert PageTableRows(pages, frameIndex, contents) == rows;
    PageTableRowsLength(init, frameIndex, contents, pageSize);
    if i < m {
      PageTableRowsAt(init, frameIndex, contents, pageSize, i, s);
      MulMono(i + 1, m, pageSize);
      Distribute(i, 1, pageSize);
      assert i * pageSize + s < |front|;
      assert rows[..|front|] == front;
    } else {
      assert i * pageSize + s == |front| + s;
      AppendPageRowsAt(front, m, frameIndex[pages[m]], contents[pages[m]], s);
    }
  }
}
