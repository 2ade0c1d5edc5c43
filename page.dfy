/** The page record of src/data/memory/Page.java: an id, the frame paired with
    it at creation, and the id of the process occupying it. */
module Pages {
  import opened Bytes
  import opened Frames

  class Page {
    const id: int
    /** The frame paired with this page; the pairing never changes. */
    const frame: Frame
    /** The occupying process, -1 when none. */
    var processId: int

    /** `new Page(id, size)`: unoccupied, with a fresh frame of size free slots. */
    constructor (id: int, size: nat)
      ensures this.id == id && processId == -1
      ensures fresh(frame) && fresh(frame.slots)
      ensures frame.slots.Length == size && frame.slots[..] == Blank(size)
    {
      this.id := id;
      processId := -1;
      frame := new Frame(size);
    }

    /** Records the owner, untruncated, and fills the first `count` slots of
        the frame with its narrowed id. */
    method OccupyMemorySlotsWithProcessId(count: int, processId: int)
      requires count <= frame.slots.Length
      modifies this, frame.slots
      ensures this.processId == processId
      ensures frame.slots[..] == Occupied(old(frame.slots[..]), count, processId)
    {
      this.processId := processId;
      frame.OccupyMemorySlotsWithProcessId(count, processId);
    }

    /** Releases the page: no owner and every slot free. */
    method CleanMemorySlots()
      modifies this, frame.slots
      ensures processId == -1
      ensures frame.slots[..] == Blank(frame.slots.Length)
    {
      processId := -1;
      frame.CleanMemorySlots();
    }

    method GetProcessId() returns (r: int)
      ensures r == processId
    {
      r := processId;
    }

    method GetId() returns (r: int)
      ensures r == id
    {
      r := id;
    }

    method GetFrame() returns (r: Frame)
      ensures r == frame
    {
      r := frame;
    }
  }
}
