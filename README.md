# Paged memory manager

A Dafny model of the allocation engine of a small simulator of paged memory.
The code is `MemoryManager`, together with the `Frame` slot buffer and the `Page` record it builds on.

A run is configured once with three values: a memory size, a page size and a maximum process size. Configuration creates:

- a raw byte image of the memory, every byte set to -1;
- a pool of `memorySize / pageSize` frames of `pageSize` slots each, all queued on a first-in-first-out free list;
- a fixed-capacity process table of `memorySize / maxProcessSize` slots.

`createProcess(id, size)` works in order:

1. It checks the size against the maximum.
2. It checks the number of free frames against the pages the size needs.
3. It resolves the id: -1 takes the next counter value; an explicit id must not be below the counter.
4. It takes that many frames from the head of the free list and writes the id, narrowed to a byte, into their slots.
5. It registers the process in the first empty table slot.
6. It writes the id into the raw image, from an offset computed from the pages of the entries registered before it.

`showMemory` and `showPageTableForProcess` list slots as rows.

Files:

- `bytes.dfy`: Java's `byte` type and the `(byte)` cast.
- `errors.dfy`: the failures, modelled as an error datatype.
- `records.dfy`: configuration, allocation info and process records.
- `frame.dfy`: the `Frame` class.
- `page.dfy`: the `Page` class.
- `allocation.dfy`: the value-level logic.
  - page arithmetic;
  - id resolution and the admission checks;
  - the table scans and the table invariant;
  - the raw-memory range a process is written to;
  - the display rows.
- `manager.dfy`: the `MemoryManager` class. Its fields are updated in place, and its methods are proved against the functions of `allocation.dfy`.

The state invariant `MemoryManager.Valid` says:

- The free list is always the suffix of the frame pool that has not yet been taken, in creation order.
- Page `k` of the page table is frame `k`.
- Untaken frames are blank.
- The process table equals its ghost value mirror and satisfies `TableInvariant`:
  - occupied entries form a prefix;
  - each entry holds the next block of page indices after those of the entries before it;
  - the table accounts for every frame taken while it still had an empty slot.

The model reproduces these behaviours of the code unchanged:

- When the size is a positive exact multiple of the page size, the last page gets `size % pageSize` slots, which is 0.
- An explicit id that is not below the counter is accepted without advancing the counter, so ids can repeat.
- A lookup by id resolves to the first table entry with that id.
- A full table is only detected after the frames were taken, mapped and filled, and after an automatic id advanced the counter.

In four places the code does not do what one would expect of it, and the model follows the code:

- **Exact-multiple sizes.** An exact multiple of the page size fills 0 slots of its last page, not a full page (see `Allocation.FilledSlotsOfProcess`).
- **Full table.** A request refused because the table is full leaves its frames taken and mapped, instead of returning them to the free list (see `Manager.MemoryManager.AllocateProcessIntoMemory`).
- **Unknown id in `showPageTableForProcess`.** An unknown id does not simply fail with `UnsupportedId`.
  - The code reads `getId()` of the first null slot, if there is one before the end of the table.
  - This is modelled as the separate failure `NullDereference`.
  - `UnsupportedId` only arises when the table is full.
- **Page-table rows.** A row carries the page's position in the process and the frame's index in the pool, not an absolute slot index; `Allocation.PageTableRows` models exactly that.

## Model

| member | source | states |
|---|---|---|
| Bytes.ToByte | src/data/memory/Frame.java:24 | `(byte) x` is congruent to x modulo 256 and is x itself when x already fits in a byte |
| Bytes.ToByteUnique | src/manager/MemoryManager.java:190 | the narrowed byte is the only byte congruent to the id modulo 256, so ids 256 apart write the same byte |
| Records.Process.SetPageTable | src/manager/MemoryManager.java:161 | setting the page table keeps id and size and installs exactly the given pages |
| Frames.OccupyNothing | src/data/memory/Frame.java:22-26 | occupying with a count of zero or less leaves the slots as they were (the exact-multiple last page) |
| Frames.OccupyIdempotent | src/data/memory/Frame.java:22-26 | occupying twice with the same count and id has the effect of occupying once |
| Frames.Frame.constructor | src/data/memory/Frame.java:11-20 | a new frame has exactly `size` fresh slots, every one -1 |
| Frames.Frame.OccupyMemorySlotsWithProcessId | src/data/memory/Frame.java:22-26 | slots below the count become `(byte) processId` and the slots at or above it keep their old values |
| Frames.Frame.CleanMemorySlots | src/data/memory/Frame.java:28-32 | every slot becomes -1 whatever it held, so a second call changes nothing; the length is unchanged |
| Frames.Frame.GetSlots | src/data/memory/Frame.java:34-36 | returns the live slot array itself (aliased, not a copy) |
| Frames.Frame.GetByteAt | src/data/memory/Frame.java:38-40 | returns slot i and changes nothing |
| Pages.Page.constructor | src/data/memory/Page.java:19-23 | a new page has the given id, processId -1, and a fresh frame of the given size with every slot -1 |
| Pages.Page.OccupyMemorySlotsWithProcessId | src/data/memory/Page.java:25-28 | records the owner id untruncated and fills the first count frame slots with its narrowed byte, leaving the rest |
| Pages.Page.CleanMemorySlots | src/data/memory/Page.java:30-33 | owner back to -1 and every frame slot back to -1 |
| Pages.Page.GetProcessId | src/data/memory/Page.java:35-37 | returns the current owner and changes nothing |
| Pages.Page.GetId | src/data/memory/Page.java:39-41 | returns the id fixed at construction |
| Pages.Page.GetFrame | src/data/memory/Page.java:43-45 | returns the frame paired at construction, which never changes |
| Allocation.CalculateProcessAllocationInfo | src/manager/MemoryManager.java:322-335 | the remainder is size % pageSize; pages·pageSize ≥ size; (pages−1)·pageSize < size for a positive size; no pages for size 0; pages·pageSize == size exactly when the remainder is 0 |
| Allocation.PagesIsLeast | src/manager/MemoryManager.java:322-335 | the page count is the least number of whole pages that hold the size (the ceiling) |
| Allocation.CalculateFrameIndexForMemoryIndex | src/manager/MemoryManager.java:363-365 | the frame number r of a raw index satisfies r·pageSize ≤ index < (r+1)·pageSize |
| Allocation.FilledBeforeMono | src/manager/MemoryManager.java:179-191 | the slots written over the first i pages never decrease as i grows |
| Allocation.FilledBeforeFull | src/manager/MemoryManager.java:182-187 | every page before the last receives a full page, so the first i < n pages hold i·pageSize slots |
| Allocation.FilledBeforeAll | src/manager/MemoryManager.java:145-152 | the n pages together hold (n−1) full pages plus the last-page figure |
| Allocation.FilledSlotsOfProcess | src/manager/MemoryManager.java:142-152 | the slots filled add up to the size, except for a positive exact multiple of the page size, where one page's worth is missing because the last page gets size % pageSize = 0 slots |
| Allocation.FilledBeforeBound | src/manager/MemoryManager.java:182-187 | with a last figure of at most one page, n pages never fill more than n·pageSize slots |
| Allocation.PageSlotIsWritten | src/manager/MemoryManager.java:179-191 | slot d of page q, for d below that page's fill, lies inside the written range |
| Allocation.WrittenOffsetIsPageSlot | src/manager/MemoryManager.java:179-191 | conversely, every offset of the written range is slot offset%pageSize of page offset/pageSize, below that page's fill |
| Allocation.ResolveId | src/manager/MemoryManager.java:115-124 | succeeds exactly when the id is -1 or not below the counter; -1 gives counter+1; an explicit id is returned as given; any other id fails with UnsupportedId |
| Allocation.ResolvedIdAndCounter | src/manager/MemoryManager.java:115-124 | the counter never decreases; an automatic id equals the new counter; an explicit id leaves the counter unchanged |
| Allocation.FirstAutomaticIds | src/manager/MemoryManager.java:115-117 | from the initial counter 0 the first two automatic ids are 1 and 2 |
| Allocation.RepeatedIdsAccepted | src/manager/MemoryManager.java:119-122 | an accepted explicit id is accepted again, and an automatic id can repeat an explicit one |
| Allocation.CheckCreate | src/manager/MemoryManager.java:65-71 | ProcessTooLarge iff the size exceeds the maximum; InsufficientMemory iff it fits but free frames are fewer than its pages; UnsupportedId iff both checks pass and the id is refused; otherwise the resolved id |
| Allocation.FindFrom | src/manager/MemoryManager.java:216-223 | a found index is the first entry with the id after occupied non-matching entries; NullDereference means an empty slot came first; UnsupportedId means the table is full and no entry has the id |
| Allocation.FindInOccupiedPrefix | src/manager/MemoryManager.java:216-223 | an id held by an entry of an occupied prefix is found, at or before that entry |
| Allocation.FirstEmptyFrom | src/manager/MemoryManager.java:343-350 | the result is an empty slot with every earlier slot occupied, or none when all slots are occupied |
| Allocation.IndexFrom | src/manager/MemoryManager.java:258-265 | the first position holding the frame, or 0 when it is absent |
| Allocation.IndexOfDistinct | src/manager/MemoryManager.java:258-265 | in a pool without repetitions the scan returns each frame's own position |
| Allocation.PrefixTotal | src/manager/MemoryManager.java:195-208 | the pages of an entry and of those before it never exceed the pages of the whole table |
| Allocation.TotalPagesEmptyTail | src/manager/MemoryManager.java:195-208 | empty slots at the end of the table add no pages |
| Allocation.ConsumeWhileFull | src/manager/MemoryManager.java:155-162 | frames taken while the table is full keep the table invariant |
| Allocation.InsertAtFirstEmpty | src/manager/MemoryManager.java:162-163 | registering in the first empty slot a process that took the next pages keeps the table invariant, and a lookup of its id succeeds at or before that slot |
| Allocation.RegisteredPagesConsumed | src/manager/MemoryManager.java:145-163 | every page of a registered process was taken from the free list |
| Allocation.RegisteredPagesDisjoint | src/manager/MemoryManager.java:145-163 | the pages of an earlier entry all come before those of a later one, so no page has two owners |
| Allocation.WriteInBounds | src/manager/MemoryManager.java:175-208 | the raw range occupyMemorySlots writes for the first entry with the id ends within the slots of the frames taken so far |
| Allocation.RawAfterWritePageSlot | src/manager/MemoryManager.java:179-191 | after the write, raw index start + q·pageSize + d holds `(byte) id` for every page q and every d below that page's fill, and that index is inside memory |
| Allocation.MemoryRows | src/manager/MemoryManager.java:39-62 | showMemory produces exactly one row per raw-memory slot |
| Allocation.MemoryRowsAt | src/manager/MemoryManager.java:41-53 | row i reports frame i / pageSize and the byte in raw slot i |
| Allocation.AppendPageRows | src/manager/MemoryManager.java:246-251 | one row per slot of the frame is appended, and the rows already in the buffer are kept |
| Allocation.AppendPageRowsExtend | src/manager/MemoryManager.java:246-251 | each further slot appends exactly its own row |
| Allocation.AppendPageRowsAt | src/manager/MemoryManager.java:246-251 | row s of a page's block reports the page position, its frame index and slot s |
| Allocation.PageTableRowsLength | src/manager/MemoryManager.java:233-256 | with frames of pageSize slots the display has pageSize rows per page |
| Allocation.PageTableRowsAt | src/manager/MemoryManager.java:233-256 | row i·pageSize + s reports page position i, the frame index of page i and slot s of its frame |
| Manager.MemoryManager.StoreConfiguration | src/manager/MemoryManager.java:276-280 | establishes Valid: raw memory all -1; memorySize/pageSize blank frames, all on the free list in creation order; empty page table and empty buffer; counter 0; a table of memorySize/maxProcessSize empty slots |
| Manager.MemoryManager.InitializeMemories | src/manager/MemoryManager.java:288-296 | a fresh raw image of memorySize bytes all -1, then memorySize/pageSize fresh blank frames with distinct slot arrays |
| Manager.MemoryManager.InitializeFrames | src/manager/MemoryManager.java:306-312 | numberOfFrames fresh frames of pageSize blank slots each, in creation order, each with its own slot array |
| Manager.MemoryManager.CalculateAvailableProcessIndex | src/manager/MemoryManager.java:343-350 | returns the first null slot, or UnavailableProcessSpace when there is none |
| Manager.MemoryManager.GetProcessById | src/manager/MemoryManager.java:216-223 | returns the first entry with the id; NullDereference if an empty slot is reached first; UnsupportedId if the full table lacks the id |
| Manager.MemoryManager.GetBaseStartingIndexForProcess | src/manager/MemoryManager.java:195-208 | the slots of the pages of all entries before the first one with the id, plus currentPageIndex pages; the whole table's total when the id is absent from a full table; NullDereference on an earlier empty slot |
| Manager.MemoryManager.GetMemoryFrameIndexForFrame | src/manager/MemoryManager.java:258-265 | the first position of the frame in the pool, or 0 when it is not there |
| Manager.MemoryManager.FramesDistinct | src/manager/MemoryManager.java:306-312 | no frame appears twice in the pool |
| Manager.MemoryManager.PageTableFrameIndex | src/manager/MemoryManager.java:155-156 | in a valid state the frame mapped to page k sits at position k of the pool, so the frame-index scan reports k |
| Manager.MemoryManager.RegisteredPagesMapped | src/manager/MemoryManager.java:156-163 | every page of a registered process is a key of the page table |
| Manager.MemoryManager.ProcessesShareNoFrame | src/manager/MemoryManager.java:145-159 | two registered processes never hold the same frame |
| Manager.MemoryManager.CheckProcessFitsIntoMemory | src/manager/MemoryManager.java:85-89 | fails, with ProcessTooLarge, exactly when the size exceeds maxProcessSize |
| Manager.MemoryManager.CheckHasMemoryForAllocatingProcess | src/manager/MemoryManager.java:100-105 | fails, with InsufficientMemory, exactly when the free list is shorter than the page count |
| Manager.MemoryManager.CheckProcessId | src/manager/MemoryManager.java:115-124 | the result is ResolveId of the old counter and the counter becomes NextLastProcessId |
| Manager.MemoryManager.AllocatePage | src/manager/MemoryManager.java:146-156 | the head of the free list, frame Consumed(), gets the id in its first slotsToFill slots, leaves the list and becomes the new page's frame; free list and blank untaken frames are preserved |
| Manager.MemoryManager.AllocatePages | src/manager/MemoryManager.java:142-159 | exactly numberOfPages frames leave the head of the free list; the pages are the consecutive indices after those already taken; every frame but the last is fully filled and the last gets the last-page figure; slotsToFill ends as the last-page figure; only untaken frames are modified |
| Manager.MemoryManager.AllocateProcessIntoMemory | src/manager/MemoryManager.java:135-165 | keeps Valid; takes the page count of frames and fills them; if the table is full, fails with the frames still taken and nothing registered or written; otherwise registers the process in the first null slot with consecutive pages and writes raw memory from its first table entry; earlier frames are unchanged |
| Manager.MemoryManager.RegisterProcess | src/manager/MemoryManager.java:162-164 | gives Valid and `Registered`: the first null slot receives the process and raw memory receives its write, or UnavailableProcessSpace with table and raw memory unchanged |
| Manager.MemoryManager.OccupyMemorySlots | src/manager/MemoryManager.java:175-193 | for an id the lookup finds, raw memory becomes RawAfterWrite of the first entry with that id (all other bytes unchanged); otherwise the lookup's failure and raw memory unchanged |
| Manager.MemoryManager.WriteProcessPages | src/manager/MemoryManager.java:179-192 | the bytes from the process's base up to base + FilledBefore(n) become the narrowed id and all others stay |
| Manager.MemoryManager.WritePageSlots | src/manager/MemoryManager.java:189-191 | raw indices startingIndex .. startingIndex+displacement−1 become the narrowed id and every other byte keeps its value |
| Manager.MemoryManager.CreateProcess | src/manager/MemoryManager.java:65-71 | keeps Valid; a refused request (in CheckCreate's order) changes nothing, the counter included; an accepted one advances the counter only for -1 and has the effect of AllocatedFrom with the resolved id |
| Manager.MemoryManager.ClearStringBuilder | src/manager/MemoryManager.java:359-361 | the buffer is empty afterwards |
| Manager.MemoryManager.ShowMemory | src/manager/MemoryManager.java:39-62 | outputs MemoryRows of the raw image, leaves the buffer empty and changes nothing else |
| Manager.MemoryManager.PageView | src/manager/MemoryManager.java:241-244 | in a valid state page k is shown with frame index k and frame k's pageSize slots |
| Manager.MemoryManager.DisplayPageTableForProcess | src/manager/MemoryManager.java:233-256 | outputs PageTableRows of the given pages and leaves the buffer empty |
| Manager.MemoryManager.ShowPageTableForProcess | src/manager/MemoryManager.java:211-214 | the lookup's failure, or the page rows of the first entry with the id, all of whose pages are mapped; keeps Valid and the empty buffer |

## Left out

- Console I/O: the controller, the menu loop and the interface classes. The text a display passes to `controller.print` becomes the method's result.
- The exact text layout of the displays (tabs, dashes, newlines). Rows (`Allocation.Row`) stand for the lines.
- Exception classes and their messages. Failures are the values of `Errors.Error`.
- `IMemoryManager`, which is only a signature, and `ProcessCreationInfo`, which is a pair used by the interface.
- Java `int` overflow. Sizes, ids, counters and offsets are unbounded integers; only the `(byte)` cast is modelled, by `Bytes.ToByte`.
- Manager.MemoryManager.StoreConfiguration: the Java constructor and its single `storeConfiguration` call are one named constructor. It requires positive pageSize and maxProcessSize and a non-negative memorySize. A second configuration, which the code allows without clearing the free list or the page table, is not modelled.
- Manager.MemoryManager.CreateProcess: requires a non-negative size, so Java's truncating `%` on negative sizes is left out.
- The frame array is modelled as an immutable sequence. The code fills it once in `initializeFrames` and never writes it again.
- Manager-created pages are named by their creation index `k`, and the identity-keyed page table becomes `map<nat, Frame>`.
  - The code calls a one-argument `new Page(pageSize)` that `Page` does not declare. Its pages only serve as keys, so the `Page` class is modelled on its own, and its inner frame and owner field are never used by the manager.
  - The code also calls a two-argument `new Process(id, size)` followed by `setPageTable`, which `Process` does not declare. The model follows MemoryManager's use.
- The page loop of `allocateProcessIntoMemory`, its tail, and the two loops of `occupyMemorySlots` are split into the methods `AllocatePage`, `AllocatePages`, `RegisterProcess`, `WriteProcessPages` and `WritePageSlots`. The statements are the same. The one change of order is that the head of the free list is read after the `slotsToFill` update, inside `AllocatePage`; the two steps do not depend on each other.
- Manager.MemoryManager.OccupyMemorySlots and Manager.MemoryManager.RegisterProcess: these private methods require what their only caller establishes: a valid table and a last-page figure of at most one page.
- Frames.Frame.OccupyMemorySlotsWithProcessId and Frames.Frame.GetByteAt: require indices within the array, where the code would throw ArrayIndexOutOfBoundsException (after partial writes, in the occupy loop).
- Pages.Page.OccupyMemorySlotsWithProcessId: requires a count within the frame, so the same ArrayIndexOutOfBoundsException path is left out.
- Frames.Frame.constructor: takes a `nat` size, so the NegativeArraySizeException of `new byte[size]` is left out.
- Pages.Page.constructor: takes a `nat` size for the same reason.
- Manager.MemoryManager.ShowMemory, Manager.MemoryManager.DisplayPageTableForProcess and Manager.MemoryManager.ShowPageTableForProcess: require an empty buffer on entry. Every display clears the buffer before it returns, so the buffer is empty between calls.
