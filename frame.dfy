/** The physical frame of src/data/memory/Frame.java: a buffer of byte slots,
    each holding the (narrowed) id of the process that owns it, or -1. */
module Frames {
  import opened Bytes

  /** n free slots. */
  function Blank(n: nat): seq<int8>
  {
    seq(n, _ => Free)
  }

  /** Slots s after the first `count` of them have been set to
      `(byte) processId`. */
  function Occupied(s: seq<int8>, count: int, processId: int): seq<int8>
  {
    seq(|s|, i requires 0 <= i < |s| => SlotAfterOccupy(s[i], i, count, processId))
  }

  /** Slot i of a frame after its first `count` slots were occupied. */
  function SlotAfterOccupy(previous: int8, i: int, count: int, processId: int): int8
  {
    if i < count then ToByte(processId) else previous
  }

  /** A count of zero or less occupies nothing: this is what happens to the
      last page of a process whose size is an exact multiple of the page size. */
  lemma OccupyNothing(s: seq<int8>, count: int, processId: int)
    requires count <= 0
    ensures Occupied(s, count, processId) == s
  {
  }

  /** Occupying twice with the same arguments is occupying once. */
  lemma OccupyIdempotent(s: seq<int8>, count: int, processId: int)
    ensures Occupied(Occupied(s, count, processId), count, processId) == Occupied(s, count, processId)
  {
  }

  class Frame {
    /** occupiedMemorySlots; nothing reassigns the array, so its length is fixed. */
    const slots: array<int8>

    /** `new Frame(size)`: size slots, all free. */
    constructor (size: nat)
      ensures fresh(slots) && slots.Length == size
      ensures slots[..] == Blank(size)
    {
      slots := new int8[size];
      new;
      var i := 0;
      while i < slots.Length
        invariant 0 <= i <= slots.Length
        invariant forall k :: 0 <= k < i ==> slots[k] == Free
      {
        slots[i] := Free;
        i := i + 1;
      }
    }

    /** Sets the slots below `count` to `(byte) processId` and leaves the
        rest; the source indexes the array, so count may not exceed its length. */
    method OccupyMemorySlotsWithProcessId(count: int, processId: int)
      requires count <= slots.Length
      modifies slots
      ensures slots[..] == Occupied(old(slots[..]), count, processId)
    {
      var i := 0;
      while i < count
        invariant 0 <= i && (count <= 0 ==> i == 0) && (0 < count ==> i <= count)
        invariant forall k :: 0 <= k < slots.Length ==>
          slots[k] == if k < i then ToByte(processId) else old(slots[k])
      {
        slots[i] := ToByte(processId);
        i := i + 1;
      }
    }

    /** Frees every slot. */
    method CleanMemorySlots()
      modifies slots
      ensures slots[..] == Blank(slots.Length)
    {
      var i := 0;
      while i < slots.Length
        invariant 0 <= i <= slots.Length
        invariant forall k :: 0 <= k < i ==> slots[k] == Free
      {
        slots[i] := Free;
        i := i + 1;
      }
    }

    /** The live slot array, not a copy: writes through it change the frame. */
    method GetSlots() returns (s: array<int8>)
      ensures s == slots
    {
      s := slots;
    }

    /** The byte in one slot. */
    method GetByteAt(slotIndex: int) returns (b: int8)
      requires 0 <= slotIndex < slots.Length
      ensures b == slots[slotIndex]
    {
      b := slots[slotIndex];
    }
  }
}
