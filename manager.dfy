/** The allocation engine of src/manager/MemoryManager.java: the raw memory
    image, the frame pool with its free list, the page table, the process
    table and the id counter, all updated in place. */
module Manager {
  import opened Bytes
  import opened Errors
  import opened Records
  import opened Frames
  import opened Allocation

  class MemoryManager {
    const configuration: Configuration
    /** The text buffer the displays share, as the rows appended to it. */
    var builder: seq<Row>
    var lastProcessId: int
    /** The frame pool, in creation order; the source's array is filled once,
        by initializeFrames, and never written again. */
    const frames: seq<Frame>
    /** The position in the pool of each frame's slot array. */
    ghost const slotOwner: map<array<int8>, nat>
    const rawMemory: array<int8>
    /** The process table; None stands for a null slot. */
    const runningProcesses: array<Option<Process>>
    /** The contents of the process table, as a value. */
    ghost var processes: seq<Option<Process>>
    /** The free list, head first. */
    var availableFrames: seq<Frame>
    /** Each page the manager created, named by its creation index, to the
        frame it was given. */
    var pageTable: map<nat, Frame>

    /** The slot arrays of the frames in the pool. */
    ghost function Slots(): set<array<int8>>
    {
      set i | 0 <= i < |frames| :: frames[i].slots
    }

    /** The slot arrays of the frames not yet handed out. */
    ghost function FreeSlots(): set<array<int8>>
      reads this`availableFrames
    {
      set i | 0 <= i < |frames| && Consumed() <= i :: frames[i].slots
    }

    /** Frames taken from the free list so far; every page created took one,
        so this is also the index the next page gets. */
    function Consumed(): int
      reads this`availableFrames
    {
      |frames| - |availableFrames|
    }

    /** Sizes fixed by the configuration, and a frame pool of distinct slot
        arrays of one page each, none of which is the raw memory. */
    ghost predicate Layout()
    {
      && 0 < configuration.pageSize && 0 < configuration.maxProcessSize && 0 <= configuration.memorySize
      && rawMemory.Length == configuration.memorySize
      && |frames| == configuration.memorySize / configuration.pageSize
      && runningProcesses.Length == configuration.memorySize / configuration.maxProcessSize
      && (forall i :: 0 <= i < |frames| ==>
            frames[i].slots.Length == configuration.pageSize && frames[i].slots != rawMemory)
      && (forall i :: 0 <= i < |frames| ==> frames[i].slots in slotOwner && slotOwner[frames[i].slots] == i)
    }

    /** The free list is the frames not yet taken, in creation order, and page
        k was given frame k. */
    ghost predicate FreeList()
      reads this`availableFrames, this`pageTable
    {
      && |availableFrames| <= |frames|
      && availableFrames == frames[Consumed()..]
      && (forall k: nat :: k in pageTable <==> k < Consumed())
      && (forall k: nat :: k in pageTable ==> k < |frames| && pageTable[k] == frames[k])
    }

    /** Every slot of frame k is free. */
    ghost predicate FrameFree(k: int)
      reads frames[k].slots
      requires 0 <= configuration.pageSize && 0 <= k < |frames|
    {
      frames[k].slots[..] == Blank(configuration.pageSize)
    }

    /** Frame k holds page k - c0 of a process of n pages whose last page
        fills `last` slots: the id in the first PageFill(k - c0) slots, the
        rest free. */
    ghost predicate FrameHoldsPage(k: int, c0: int, n: nat, last: nat, processId: int)
      reads frames[k].slots
      requires 0 <= configuration.pageSize && 0 <= c0 <= k < |frames|
    {
      frames[k].slots[..] == Occupied(Blank(configuration.pageSize), PageFill(k - c0, n, last, configuration.pageSize), processId)
    }

    /** Frames on the free list have every slot free. */
    ghost predicate FreeFramesBlank()
      reads this`availableFrames, Slots()
      requires 0 <= configuration.pageSize
    {
      forall k :: 0 <= k < |frames| && Consumed() <= k ==> FrameFree(k)
    }

    ghost predicate Valid()
      reads this`availableFrames, this`pageTable, this`processes, runningProcesses, Slots()
    {
      && Layout()
      && FreeList()
      && FreeFramesBlank()
      && runningProcesses[..] == processes
      && TableInvariant(processes, configuration.pageSize, Consumed())
    }

    // -------------------------------------------------------------------
    // Configuration

    /** `new MemoryManager(controller)` followed by its one storeConfiguration
        call: raw memory of memorySize free bytes, memorySize / pageSize free
        frames all queued on the free list in creation order, an empty page
        table and an empty process table of memorySize / maxProcessSize slots. */
    constructor StoreConfiguration(configuration: Configuration)
      requires 0 < configuration.pageSize && 0 < configuration.maxProcessSize && 0 <= configuration.memorySize
      ensures Valid() && builder == []
      ensures this.configuration == configuration && lastProcessId == 0
      ensures rawMemory[..] == Blank(configuration.memorySize)
      ensures |frames| == configuration.memorySize / configuration.pageSize
      ensures availableFrames == frames && pageTable == map[]
      ensures runningProcesses.Length == configuration.memorySize / configuration.maxProcessSize
      ensures forall i :: 0 <= i < runningProcesses.Length ==> runningProcesses[i].None?
      ensures fresh(rawMemory) && fresh(runningProcesses) && fresh(Slots())
    {
      this.configuration := configuration;
      var raw, created, owner := InitializeMemories(configuration);
      rawMemory := raw;
      frames := created;
      slotOwner := owner;
      availableFrames := created;
      pageTable := map[];
      builder := [];
      lastProcessId := 0;
      runningProcesses := new Option<Process>[configuration.memorySize / configuration.maxProcessSize](_ => None);
      new;
      processes := runningProcesses[..];
      TotalPagesEmptyTail(processes, configuration.pageSize, 0);
    }

    /** initializeMemories: the raw image with every byte free, then the frames. */
    static method InitializeMemories(configuration: Configuration)
      returns (raw: array<int8>, pool: seq<Frame>, ghost owner: map<array<int8>, nat>)
      requires 0 < configuration.pageSize && 0 <= configuration.memorySize
      ensures fresh(raw) && raw[..] == Blank(configuration.memorySize)
      ensures |pool| == configuration.memorySize / configuration.pageSize
      ensures forall i :: 0 <= i < |pool| ==>
        fresh(pool[i].slots) && pool[i].slots != raw
        && pool[i].slots.Length == configuration.pageSize && pool[i].slots[..] == Blank(configuration.pageSize)
        && pool[i].slots in owner && owner[pool[i].slots] == i
    {
      raw := new int8[configuration.memorySize];
      var i := 0;
      while i < raw.Length
        invariant 0 <= i <= raw.Length
        invariant forall k :: 0 <= k < i ==> raw[k] == Free
      {
        raw[i] := Free;
        i := i + 1;
      }
      var numberOfFrames := configuration.memorySize / configuration.pageSize;
      pool, owner := InitializeFrames(numberOfFrames, configuration.pageSize);
    }

    /** initializeFrames: numberOfFrames new frames of pageSize free slots, in
        creation order (the order they are queued on the free list). */
    static method InitializeFrames(numberOfFrames: nat, pageSize: nat)
      returns (pool: seq<Frame>, ghost owner: map<array<int8>, nat>)
      ensures |pool| == numberOfFrames
      ensures forall i :: 0 <= i < |pool| ==>
        fresh(pool[i].slots) && pool[i].slots.Length == pageSize && pool[i].slots[..] == Blank(pageSize)
        && pool[i].slots in owner && owner[pool[i].slots] == i
    {
      pool := [];
      owner := map[];
      while |pool| < numberOfFrames
        invariant |pool| <= numberOfFrames
        invariant forall i :: 0 <= i < |pool| ==>
          fresh(pool[i].slots) && pool[i].slots.Length == pageSize && pool[i].slots[..] == Blank(pageSize)
          && pool[i].slots in owner && owner[pool[i].slots] == i
        invariant forall a :: a in owner ==> owner[a] < |pool| && pool[owner[a]].slots == a
      {
        var frame := new Frame(pageSize);
        owner := owner[frame.slots := |pool|];
        pool := pool + [frame];
      }
    }

    // -------------------------------------------------------------------
    // Read-only scans

    /** calculateAvailableProcessIndex: the first null slot of the table. */
    method CalculateAvailableProcessIndex() returns (r: Result<nat>)
      ensures FirstEmptyFrom(runningProcesses[..], 0).Some? ==>
        r == Success(FirstEmptyFrom(runningProcesses[..], 0).value)
      ensures FirstEmptyFrom(runningProcesses[..], 0).None? ==> r == Failure(UnavailableProcessSpace)
    {
      var i := 0;
      while i < runningProcesses.Length
        invariant 0 <= i <= runningProcesses.Length
        invariant FirstEmptyFrom(runningProcesses[..], i) == FirstEmptyFrom(runningProcesses[..], 0)
      {
        if runningProcesses[i].None? {
          return Success(i);
        }
        i := i + 1;
      }
      return Failure(UnavailableProcessSpace);
    }

    /** getProcessById: the first entry with the id; a null slot reached
        first is dereferenced. */
    method GetProcessById(processId: int) returns (r: Result<Process>)
      ensures FindFrom(runningProcesses[..], processId, 0).Success? ==>
        r == Success(runningProcesses[FindFrom(runningProcesses[..], processId, 0).value].value)
      ensures FindFrom(runningProcesses[..], processId, 0).Failure? ==>
        r == Failure(FindFrom(runningProcesses[..], processId, 0).error)
    {
      var i := 0;
      while i < runningProcesses.Length
        invariant 0 <= i <= runningProcesses.Length
        invariant FindFrom(runningProcesses[..], processId, i) == FindFrom(runningProcesses[..], processId, 0)
      {
        var runningProcess := runningProcesses[i];
        if runningProcess.None? {
          return Failure(NullDereference);
        }
        if runningProcess.value.id == processId {
          return Success(runningProcess.value);
        }
        i := i + 1;
      }
      return Failure(UnsupportedId);
    }

    /** getBaseStartingIndexForProcess: the pages of the entries before the
        first one with the process's id, in slots, plus currentPageIndex pages. */
    method GetBaseStartingIndexForProcess(process: Process, currentPageIndex: int) returns (r: Result<int>)
      requires 0 < configuration.pageSize
      ensures var f := FindFrom(runningProcesses[..], process.id, 0);
        && (f.Success? ==> r == Success(TotalPages(runningProcesses[..f.value], configuration.pageSize) * configuration.pageSize
                                        + currentPageIndex * configuration.pageSize))
        && (f == Failure(NullDereference) ==> r == Failure(NullDereference))
        && (f == Failure(UnsupportedId) ==>
              r == Success(TotalPages(runningProcesses[..], configuration.pageSize) * configuration.pageSize))
    {
      var pageSize := configuration.pageSize;
      var startingPosition := 0;
      var i := 0;
      while i < runningProcesses.Length
        invariant 0 <= i <= runningProcesses.Length
        invariant FindFrom(runningProcesses[..], process.id, i) == FindFrom(runningProcesses[..], process.id, 0)
        invariant startingPosition == TotalPages(runningProcesses[..i], pageSize) * pageSize
      {
        var currentProcess := runningProcesses[i];
        if currentProcess.None? {
          return Failure(NullDereference);
        }
        if currentProcess.value.id != process.id {
          var numberOfPages := CalculateProcessAllocationInfo(currentProcess.value.size, pageSize).numberOfPagesForProcess;
          assert runningProcesses[..i + 1][..i] == runningProcesses[..i];
          Distribute(TotalPages(runningProcesses[..i], pageSize), numberOfPages, pageSize);
          startingPosition := startingPosition + numberOfPages * pageSize;
        } else {
          return Success(startingPosition + currentPageIndex * pageSize);
        }
        i := i + 1;
      }
      assert runningProcesses[..i] == runningProcesses[..];
      return Success(startingPosition);
    }

    /** getMemoryFrameIndexForFrame: the first position of the frame in the
        frames, or 0 when it is not there. */
    method GetMemoryFrameIndexForFrame(frame: Frame) returns (r: nat)
      ensures r == IndexFrom(frames, frame, 0)
    {
      var i := 0;
      while i < |frames|
        invariant 0 <= i <= |frames|
        invariant IndexFrom(frames, frame, i) == IndexFrom(frames, frame, 0)
      {
        if frames[i] == frame {
          return i;
        }
        i := i + 1;
      }
      return 0;
    }

    // -------------------------------------------------------------------
    // Facts about a valid state

    /** The pool holds each frame once. */
    lemma FramesDistinct()
      requires Layout()
      ensures forall i, j :: 0 <= i < j < |frames| ==> frames[i] != frames[j]
    {
      forall i, j | 0 <= i < j < |frames|
        ensures frames[i] != frames[j]
      {
        assert slotOwner[frames[i].slots] != slotOwner[frames[j].slots];
      }
    }

    /** The page table reports page k in frame k of the pool. */
    lemma PageTableFrameIndex(k: nat)
      requires Valid() && k in pageTable
      ensures IndexFrom(frames, pageTable[k], 0) == k
    {
      FramesDistinct();
      IndexOfDistinct(frames, k);
    }

    /** Every page of a registered process is in the page table. */
    lemma RegisteredPagesMapped(j: nat)
      requires Valid() && j < runningProcesses.Length && runningProcesses[j].Some?
      ensures forall q :: 0 <= q < |runningProcesses[j].value.pageTable| ==>
        runningProcesses[j].value.pageTable[q] in pageTable
    {
      RegisteredPagesConsumed(processes, configuration.pageSize, Consumed(), j);
    }

    /** No frame is held by two registered processes. */
    lemma ProcessesShareNoFrame(i: nat, j: nat)
      requires Valid() && i < j < runningProcesses.Length && runningProcesses[j].Some?
      ensures runningProcesses[i].Some?
      ensures forall a, b :: 0 <= a < |runningProcesses[i].value.pageTable| && 0 <= b < |runningProcesses[j].value.pageTable| ==>
        runningProcesses[i].value.pageTable[a] in pageTable && runningProcesses[j].value.pageTable[b] in pageTable
        && pageTable[runningProcesses[i].value.pageTable[a]] != pageTable[runningProcesses[j].value.pageTable[b]]
    {
      var t := processes;
      RegisteredPagesDisjoint(t, configuration.pageSize, Consumed(), i, j);
      RegisteredPagesMapped(i);
      RegisteredPagesMapped(j);
      FramesDistinct();
    }

    // -------------------------------------------------------------------
    // Admission checks

    /** checkProcessFitsIntoMemory: a size above maxProcessSize is refused. */
    method CheckProcessFitsIntoMemory(size: int) returns (o: Outcome)
      ensures o.Fail? <==> configuration.maxProcessSize < size
      ensures o.Fail? ==> o.error == ProcessTooLarge
    {
      if size > configuration.maxProcessSize {
        return Fail(ProcessTooLarge);
      }
      return Pass;
    }

    /** checkHasMemoryForAllocatingProcess: refused when the free list is
        shorter than the page count. */
    method CheckHasMemoryForAllocatingProcess(size: nat) returns (o: Outcome)
      requires 0 < configuration.pageSize
      ensures o.Fail? <==> |availableFrames| < Pages(size, configuration.pageSize)
      ensures o.Fail? ==> o.error == InsufficientMemory
    {
      var numberOfPagesForProcess := CalculateProcessAllocationInfo(size, configuration.pageSize).numberOfPagesForProcess;
      if |availableFrames| < numberOfPagesForProcess {
        return Fail(InsufficientMemory);
      }
      return Pass;
    }

    /** checkProcessId: -1 takes the next counter value; any other id below
        the counter is refused; the counter moves only for -1. */
    method CheckProcessId(processId: int) returns (r: Result<int>)
      modifies this`lastProcessId
      ensures r == ResolveId(old(lastProcessId), processId)
      ensures lastProcessId == NextLastProcessId(old(lastProcessId), processId)
    {
      if processId == -1 {
        lastProcessId := lastProcessId + 1;
        return Success(lastProcessId);
      } else {
        if processId < lastProcessId {
          return Failure(UnsupportedId);
        }
        return Success(processId);
      }
    }

    // -------------------------------------------------------------------
    // Allocation

    /** The free list, process table and raw memory after
        allocateProcessIntoMemory(processId, processSize) was called on a
        state with c0 frames taken, free list free0, table table0 and raw
        image raw0: the first page-count frames of free0 are taken, frame
        c0 + q holds its page's fill of the id; then either the table is
        full (the frames stay taken, nothing is registered or written) or
        the process is registered in the first null slot with pages c0,
        c0 + 1, ... and raw memory is written from its first table entry. */
    ghost predicate AllocatedFrom(c0: nat, free0: seq<Frame>, table0: seq<Option<Process>>, raw0: seq<int8>,
                                  processId: int, processSize: nat, r: Outcome)
      reads this`availableFrames, this`pageTable, this`processes, runningProcesses, rawMemory, Slots()
      requires Valid()
    {
      var ps := configuration.pageSize;
      var info := CalculateProcessAllocationInfo(processSize, ps);
      var n := info.numberOfPagesForProcess;
      && n <= |free0| && availableFrames == free0[n..]
      && (forall k :: 0 <= k < |frames| && c0 <= k < c0 + n ==>
            FrameHoldsPage(k, c0, n, info.unfilledPageSlotsSize, processId))
      && Registered(table0, raw0, processes, rawMemory[..], Process(processId, processSize, Range(c0, n)),
                    LastPageSlots(n, info.unfilledPageSlotsSize, ps), ps, r)
    }

    /** One turn of the page loop of allocateProcessIntoMemory: the head of
        the free list, frame Consumed(), gets the id in its first
        slotsToFill slots, is removed from the list and becomes the frame
        of the new page, which is named Consumed() as well. */
    method AllocatePage(processId: int, slotsToFill: nat) returns (pageForProcess: nat)
      requires Layout() && FreeList() && FreeFramesBlank()
      requires 0 < |availableFrames| && slotsToFill <= configuration.pageSize
      modifies this`availableFrames, this`pageTable, frames[Consumed()].slots
      ensures FreeList() && FreeFramesBlank()
      ensures pageForProcess == old(Consumed()) && Consumed() == pageForProcess + 1
      ensures frames[pageForProcess].slots[..] == Occupied(Blank(configuration.pageSize), slotsToFill, processId)
    {
      var currentFrame := availableFrames[0];
      assert currentFrame == frames[Consumed()];
      assert FrameFree(Consumed());
      currentFrame.OccupyMemorySlotsWithProcessId(slotsToFill, processId);
      pageForProcess := Consumed();
      var correspondingFrame := availableFrames[0];
      availableFrames := availableFrames[1..];
      pageTable := pageTable[pageForProcess := correspondingFrame];
    }

    /** The page loop of allocateProcessIntoMemory: numberOfPages frames are
        taken from the head of the free list in order, frame c0 + q (c0 the
        frames taken before) gets the id in its first PageFill(q) slots and
        becomes page c0 + q of the page table. Returns the pages and the
        last value of slotsToFill. */
    method AllocatePages(processId: int, numberOfPages: nat, unfilledPageSlotsSize: nat)
      returns (allocatedPagesForProcess: seq<nat>, slotsToFill: nat)
      requires Layout() && FreeList() && FreeFramesBlank()
      requires numberOfPages <= |availableFrames| && unfilledPageSlotsSize <= configuration.pageSize
      modifies this`availableFrames, this`pageTable, FreeSlots()
      ensures FreeList() && FreeFramesBlank()
      ensures availableFrames == old(availableFrames)[numberOfPages..]
      ensures allocatedPagesForProcess == Range(old(Consumed()), numberOfPages)
      ensures slotsToFill == LastPageSlots(numberOfPages, unfilledPageSlotsSize, configuration.pageSize)
      ensures forall k :: 0 <= k < |frames| && old(Consumed()) <= k < Consumed() ==>
        FrameHoldsPage(k, old(Consumed()), numberOfPages, unfilledPageSlotsSize, processId)
    {
      ghost var c0: nat := Consumed();
      var pageSize := configuration.pageSize;
      slotsToFill := pageSize;
      allocatedPagesForProcess := [];
      var i := 0;
      while i < numberOfPages
        invariant 0 <= i <= numberOfPages
        invariant Consumed() == c0 + i
        invariant FreeList() && FreeFramesBlank()
        invariant |allocatedPagesForProcess| == i
        invariant forall q :: 0 <= q < i ==> allocatedPagesForProcess[q] == c0 + q
        invariant slotsToFill == if 0 < i && i == numberOfPages then unfilledPageSlotsSize else pageSize
        invariant forall k :: 0 <= k < |frames| && c0 <= k < c0 + i ==>
          FrameHoldsPage(k, c0, numberOfPages, unfilledPageSlotsSize, processId)
      {
        if i == numberOfPages - 1 {
          slotsToFill := unfilledPageSlotsSize;
        }
        assert slotsToFill == PageFill(i, numberOfPages, unfilledPageSlotsSize, pageSize);
        var pageForProcess := AllocatePage(processId, slotsToFill);
        assert FrameHoldsPage(c0 + i, c0, numberOfPages, unfilledPageSlotsSize, processId);
        allocatedPagesForProcess := allocatedPagesForProcess + [pageForProcess];
        i := i + 1;
      }
      assert allocatedPagesForProcess == Range(c0, i);
      assert availableFrames == old(availableFrames)[numberOfPages..];
    }

    /** allocateProcessIntoMemory: the page loop, then registration in the
        first null slot, then the raw-memory write. */
    method AllocateProcessIntoMemory(processId: int, processSize: nat) returns (r: Outcome)
      requires Valid()
      requires Pages(processSize, configuration.pageSize) <= |availableFrames|
      modifies this`availableFrames, this`pageTable, this`processes, rawMemory, runningProcesses, Slots()
      ensures Valid()
      ensures AllocatedFrom(old(Consumed()), old(availableFrames), old(processes), old(rawMemory[..]),
                            processId, processSize, r)
      ensures forall k :: 0 <= k < old(Consumed()) ==> unchanged(frames[k].slots)
    {
      ghost var c0: nat := Consumed();
      ghost var table0 := processes;
      var pageSize := configuration.pageSize;
      var allocationInfo := CalculateProcessAllocationInfo(processSize, pageSize);
      var numberOfPages := allocationInfo.numberOfPagesForProcess;
      var unfilledPageSlotsSize := allocationInfo.unfilledPageSlotsSize;
      var newProcess := Process(processId, processSize, []);
      var allocatedPagesForProcess, slotsToFill := AllocatePages(processId, numberOfPages, unfilledPageSlotsSize);
      newProcess := newProcess.SetPageTable(allocatedPagesForProcess);
      r := RegisterProcess(newProcess, slotsToFill);
    }

    /** The tail of allocateProcessIntoMemory: the process takes the first
        free slot of the table and its pages are written into the raw
        memory, or, with the table full, the call fails after its pages were
        already taken. */
    method RegisterProcess(newProcess: Process, slotsToFill: nat) returns (r: Outcome)
      requires Layout() && FreeList() && FreeFramesBlank() && runningProcesses[..] == processes
      requires |newProcess.pageTable| <= Consumed() && slotsToFill <= configuration.pageSize
      requires newProcess.pageTable == Range(Consumed() - |newProcess.pageTable|,
                                             Pages(newProcess.size, configuration.pageSize))
      requires TableInvariant(processes, configuration.pageSize, Consumed() - |newProcess.pageTable|)
      modifies this`processes, rawMemory, runningProcesses
      ensures Valid()
      ensures Registered(old(processes), old(rawMemory[..]), processes, rawMemory[..], newProcess, slotsToFill,
                         configuration.pageSize, r)
    {
      ghost var c0 := Consumed() - |newProcess.pageTable|;
      ghost var table0 := processes;
      var newProcessIndex := CalculateAvailableProcessIndex();
      if newProcessIndex.Failure? {
        ConsumeWhileFull(table0, configuration.pageSize, c0, |newProcess.pageTable|);
        return Fail(newProcessIndex.error);
      }
      InsertAtFirstEmpty(table0, configuration.pageSize, c0, newProcess);
      runningProcesses[newProcessIndex.value] := Some(newProcess);
      processes := processes[newProcessIndex.value := Some(newProcess)];
      r := OccupyMemorySlots(newProcess.id, slotsToFill);
    }

    /** occupyMemorySlots: for each page q of the first table entry with the
        id, write the id narrowed to a byte into pageSize raw slots (the
        given count on its last page) from that page's starting index. */
    method OccupyMemorySlots(processId: int, slotsToFillOnLastPage: nat) returns (r: Outcome)
      requires 0 < configuration.pageSize && 0 <= configuration.memorySize && rawMemory.Length == configuration.memorySize
      requires |frames| == configuration.memorySize / configuration.pageSize && 0 <= Consumed() <= |frames|
      requires runningProcesses[..] == processes && TableInvariant(processes, configuration.pageSize, Consumed())
      requires slotsToFillOnLastPage <= configuration.pageSize
      modifies rawMemory
      ensures FindFrom(processes, processId, 0).Success? ==>
        r == Pass
        && rawMemory[..] == RawAfterWrite(old(rawMemory[..]), processes, processId,
                                          slotsToFillOnLastPage, configuration.pageSize)
      ensures FindFrom(processes, processId, 0).Failure? ==>
        r == Fail(FindFrom(processes, processId, 0).error) && rawMemory[..] == old(rawMemory[..])
    {
      ghost var table := processes;
      var found := GetProcessById(processId);
      if found.Failure? {
        return Fail(found.error);
      }
      var process := found.value;
      var pageSize := configuration.pageSize;
      ghost var lo := BaseOf(table, processId, pageSize);
      WriteInBounds(table, pageSize, Consumed(), processId, slotsToFillOnLastPage);
      MulMono(Consumed(), |frames|, pageSize);
      WholePagesFit(rawMemory.Length, pageSize);
      WriteProcessPages(process, slotsToFillOnLastPage, lo);
      return Pass;
    }

    /** The page loop of occupyMemorySlots: page i of the process starts
        where getBaseStartingIndexForProcess puts it, lo + i * pageSize, and
        gets a full page of its id, the last page only the last-page figure. */
    method WriteProcessPages(process: Process, slotsToFillOnLastPage: nat, ghost lo: int)
      requires 0 < configuration.pageSize && slotsToFillOnLastPage <= configuration.pageSize
      requires FindFrom(runningProcesses[..], process.id, 0).Success?
      requires lo == BaseOf(runningProcesses[..], process.id, configuration.pageSize)
      requires var n := |process.pageTable|;
        lo + FilledBefore(n, n, slotsToFillOnLastPage, configuration.pageSize) <= rawMemory.Length
      modifies rawMemory
      ensures var n := |process.pageTable|;
        forall x :: 0 <= x < rawMemory.Length ==>
          rawMemory[x] == FilledAt(old(rawMemory[x]), x, lo,
                                   lo + FilledBefore(n, n, slotsToFillOnLastPage, configuration.pageSize),
                                   ToByte(process.id))
    {
      var pagesForProcess := process.pageTable;
      var pageSize := configuration.pageSize;
      ghost var n := |pagesForProcess|;
      ghost var b := ToByte(process.id);
      ghost var raw0 := rawMemory[..];
      var i := 0;
      while i < |pagesForProcess|
        invariant 0 <= i <= n
        invariant forall x :: 0 <= x < rawMemory.Length ==>
          rawMemory[x] == FilledAt(raw0[x], x, lo, lo + FilledBefore(i, n, slotsToFillOnLastPage, pageSize), b)
      {
        var startingIndex := GetBaseStartingIndexForProcess(process, i);
        assert startingIndex == Success(lo + i * pageSize);
        var displacement;
        if i == |pagesForProcess| - 1 {
          displacement := slotsToFillOnLastPage;
        } else {
          displacement := pageSize;
        }
        FilledBeforeFull(i, n, slotsToFillOnLastPage, pageSize);
        FilledBeforeMono(i + 1, n, n, slotsToFillOnLastPage, pageSize);
        WritePageSlots(startingIndex.value, displacement, process.id);
        i := i + 1;
      }
    }

    /** The inner loop of occupyMemorySlots: the id narrowed to a byte into
        raw slots startingIndex .. startingIndex + displacement - 1. */
    method WritePageSlots(startingIndex: int, displacement: int, processId: int)
      requires 0 <= startingIndex && startingIndex + displacement <= rawMemory.Length
      modifies rawMemory
      ensures forall x :: 0 <= x < rawMemory.Length ==>
        rawMemory[x] == FilledAt(old(rawMemory[x]), x, startingIndex, startingIndex + displacement, ToByte(processId))
    {
      var d := 0;
      while d < displacement
        invariant 0 <= d && (displacement <= 0 ==> d == 0) && (0 < displacement ==> d <= displacement)
        invariant forall x :: 0 <= x < rawMemory.Length ==>
          rawMemory[x] == FilledAt(old(rawMemory[x]), x, startingIndex, startingIndex + d, ToByte(processId))
      {
        rawMemory[startingIndex + d] := ToByte(processId);
        d := d + 1;
      }
    }

    /** createProcess: the three admission checks in order, then the
        allocation with the resolved id. A refused request changes nothing
        (a refused explicit id leaves the counter as it was). */
    method CreateProcess(processId: int, processSize: int) returns (r: Outcome)
      requires Valid() && 0 <= processSize
      modifies this`lastProcessId, this`availableFrames, this`pageTable, this`processes, rawMemory, runningProcesses, Slots()
      ensures Valid()
      ensures var v := CheckCreate(configuration, |old(availableFrames)|, old(lastProcessId), processId, processSize);
        && (v.Failure? ==>
              r == Fail(v.error) && lastProcessId == old(lastProcessId) && availableFrames == old(availableFrames)
              && pageTable == old(pageTable) && processes == old(processes)
              && unchanged(rawMemory, runningProcesses) && unchanged(Slots()))
        && (v.Success? ==>
              lastProcessId == NextLastProcessId(old(lastProcessId), processId)
              && AllocatedFrom(old(Consumed()), old(availableFrames), old(processes), old(rawMemory[..]),
                               v.value, processSize, r)
              && (forall k :: 0 <= k < old(Consumed()) ==> unchanged(frames[k].slots)))
    {
      var o := CheckProcessFitsIntoMemory(processSize);
      if o.Fail? {
        return o;
      }
      o := CheckHasMemoryForAllocatingProcess(processSize);
      if o.Fail? {
        return o;
      }
      var pid := CheckProcessId(processId);
      if pid.Failure? {
        return Fail(pid.error);
      }
      r := AllocateProcessIntoMemory(pid.value, processSize);
    }

    // -------------------------------------------------------------------
    // Displays

    /** clearStringBuilder. */
    method ClearStringBuilder()
      modifies this`builder
      ensures builder == []
    {
      builder := [];
    }

    /** showMemory: one row per raw slot, naming its frame; the text goes to
        the controller (here, the result) and the buffer is cleared. */
    method ShowMemory() returns (output: seq<Row>)
      requires Valid() && builder == []
      modifies this`builder
      ensures Valid() && builder == []
      ensures output == MemoryRows(rawMemory[..], configuration.pageSize)
    {
      var i := 0;
      while i < rawMemory.Length
        invariant 0 <= i <= rawMemory.Length
        invariant builder == MemoryRows(rawMemory[..i], configuration.pageSize)
      {
        var currentMemorySlot := rawMemory[i];
        var pageNumber := CalculateFrameIndexForMemoryIndex(i, configuration.pageSize);
        assert rawMemory[..i + 1][..i] == rawMemory[..i];
        builder := builder + [MemoryRow(pageNumber, currentMemorySlot)];
        i := i + 1;
      }
      assert rawMemory[..i] == rawMemory[..];
      output := builder;
      ClearStringBuilder();
    }

    /** For each page in the page table, the position of its frame in the
        pool, as getMemoryFrameIndexForFrame reports it. */
    ghost function FrameIndexOf(): (m: map<nat, nat>)
      reads this`pageTable
      ensures m.Keys == pageTable.Keys
      ensures forall k :: k in m ==> m[k] == IndexFrom(frames, pageTable[k], 0)
    {
      map k | k in pageTable :: IndexFrom(frames, pageTable[k], 0)
    }

    /** For each page in the page table, the slots of its frame. */
    ghost function PageContents(): (m: map<nat, seq<int8>>)
      reads this`pageTable, set k | k in pageTable :: pageTable[k].slots
      ensures m.Keys == pageTable.Keys
      ensures forall k :: k in m ==> m[k] == pageTable[k].slots[..]
    {
      map k | k in pageTable :: pageTable[k].slots[..]
    }

    /** In a valid state page k is shown in frame k, with frame k's slots. */
    lemma PageView(k: nat)
      requires Valid() && k in pageTable
      ensures FrameIndexOf()[k] == k
      ensures PageContents()[k] == frames[k].slots[..]
      ensures |PageContents()[k]| == configuration.pageSize
    {
      PageTableFrameIndex(k);
    }

    /** displayPageTableForProcess: the blocks of rows for processPages, in
        order; the text goes to the controller (here, the result) and the
        buffer is cleared. */
    method DisplayPageTableForProcess(processPages: seq<nat>, ghost frameIndexOf: map<nat, nat>,
                                      ghost contents: map<nat, seq<int8>>) returns (output: seq<Row>)
      requires builder == []
      requires forall q :: 0 <= q < |processPages| ==> processPages[q] in pageTable
      requires frameIndexOf == FrameIndexOf() && contents == PageContents()
      modifies this`builder
      ensures builder == []
      ensures output == PageTableRows(processPages, frameIndexOf, contents)
    {
      var i := 0;
      while i < |processPages|
        invariant 0 <= i <= |processPages|
        invariant builder == PageTableRows(processPages[..i], frameIndexOf, contents)
      {
        var currentPage := processPages[i];
        var correspondingFrame := pageTable[currentPage];
        var memorySlots := correspondingFrame.GetSlots();
        var frameIndex := GetMemoryFrameIndexForFrame(correspondingFrame);
        assert processPages[..i + 1][..i] == processPages[..i];
        ghost var before := builder;
        ghost var slots := memorySlots[..];
        assert slots == contents[currentPage];
        var memSlot := 0;
        assert slots[..memSlot] == [];
        while memSlot < memorySlots.Length
          invariant 0 <= memSlot <= memorySlots.Length
          invariant builder == AppendPageRows(before, i, frameIndex, slots[..memSlot])
        {
          AppendPageRowsExtend(before, i, frameIndex, slots, memSlot);
          builder := builder + [PageRow(i, frameIndex, memorySlots[memSlot])];
          memSlot := memSlot + 1;
        }
        assert slots[..memSlot] == slots;
        i := i + 1;
      }
      assert processPages[..i] == processPages;
      output := builder;
      ClearStringBuilder();
    }

    /** showPageTableForProcess: the page display of the first table entry
        with the id, or the lookup's failure. */
    method ShowPageTableForProcess(processId: int) returns (r: Result<seq<Row>>)
      requires Valid() && builder == []
      modifies this`builder
      ensures Valid() && builder == []
      ensures FindFrom(runningProcesses[..], processId, 0).Failure? ==>
        r == Failure(FindFrom(runningProcesses[..], processId, 0).error)
      ensures FindFrom(runningProcesses[..], processId, 0).Success? ==>
        var pages := runningProcesses[FindFrom(runningProcesses[..], processId, 0).value].value.pageTable;
        && (forall q :: 0 <= q < |pages| ==> pages[q] in pageTable)
        && r == Success(PageTableRows(pages, old(FrameIndexOf()), old(PageContents())))
    {
      ghost var table := processes;
      ghost var frameIndexOf := FrameIndexOf();
      ghost var contents := PageContents();
      var processToBeShown := GetProcessById(processId);
      if processToBeShown.Failure? {
        return Failure(processToBeShown.error);
      }
      RegisteredPagesMapped(FindFrom(table, processId, 0).value);
      var rows := DisplayPageTableForProcess(processToBeShown.value.pageTable, frameIndexOf, contents);
      return Success(rows);
    }
  }
}
