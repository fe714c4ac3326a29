/** The in-place code of the two bounded buffers, on arrays: add_buffer and
    get_buffer of pthread_prodcons.c, and the critical sections of add_next and
    get_next of the shared-memory programs. */
module Buffers {
  import opened CircularArray

  class BoundedBuffer {
    const buffer: array<int>
    var front: nat
    var rear: nat
    var bufCount: nat

    ghost function Cells(): Ring
      reads this, buffer
    {
      Ring(buffer[..], front, rear)
    }

    ghost predicate Valid()
      reads this, buffer
    {
      0 < buffer.Length && Holds(Cells(), bufCount)
    }

    ghost function Queue(): seq<int>
      requires Valid()
      reads this, buffer
    {
      Contents(Cells(), bufCount)
    }

    constructor (size: nat)
      requires 0 < size
      ensures Valid() && fresh(buffer) && buffer.Length == size && Queue() == []
    {
      buffer := new int[size];
      front, rear, bufCount := 0, 0, 0;
    }

    /** Callers hold the lock and have found the buffer not full. */
    method AddBuffer(data: int)
      requires Valid() && bufCount < buffer.Length
      modifies this`rear, this`bufCount, buffer
      ensures Valid()
      ensures bufCount == old(bufCount) + 1
      ensures rear == (old(rear) + 1) % buffer.Length
      ensures buffer[..] == old(buffer[..])[old(rear) := data]
      ensures Cells() == AdvanceRear(WriteRear(old(Cells()), data))
      ensures Queue() == old(Queue()) + [data]
    {
      ghost var r := Cells();
      WriteKeepsContents(r, bufCount, data);
      AdvanceAppends(WriteRear(r, data), bufCount);
      buffer[rear] := data;
      assert Cells() == WriteRear(r, data);
      rear := (rear + 1) % buffer.Length;
      bufCount := bufCount + 1;
      assert Cells() == AdvanceRear(WriteRear(r, data));
    }

    /** Callers hold the lock and have found the buffer not empty. */
    method GetBuffer() returns (v: int)
      requires Valid() && 0 < bufCount
      modifies this`front, this`bufCount
      ensures Valid()
      ensures bufCount == old(bufCount) - 1
      ensures front == (old(front) + 1) % buffer.Length
      ensures Cells() == AdvanceFront(old(Cells()))
      ensures old(Queue()) == [v] + Queue()
    {
      ghost var r := Cells();
      AdvanceRemoves(r, bufCount);
      v := buffer[front];
      front := (front + 1) % buffer.Length;
      bufCount := bufCount - 1;
      assert Cells() == AdvanceFront(r);
    }
  }

  /** The shared structure of the shared-memory programs: it has no count of its
      own, so the number of unread cells is what the semaphores guarantee. */
  class SharedBuffer {
    const buf: array<int>
    var front: nat
    var rear: nat

    ghost function Cells(): Ring
      reads this, buf
    {
      Ring(buf[..], front, rear)
    }

    constructor (size: nat)
      requires 0 < size
      ensures fresh(buf) && buf.Length == size
      ensures Holds(Cells(), 0)
    {
      buf := new int[size];
      front, rear := 0, 0;
    }

    /** The critical section of add_next, entered with `unread` cells in use. */
    method AddNext(data: int, ghost unread: nat)
      requires Holds(Cells(), unread) && unread < buf.Length
      modifies this`rear, buf
      ensures Cells() == AdvanceRear(WriteRear(old(Cells()), data))
      ensures Holds(Cells(), unread + 1)
      ensures Contents(Cells(), unread + 1) == old(Contents(Cells(), unread)) + [data]
    {
      ghost var r := Cells();
      WriteKeepsContents(r, unread, data);
      AdvanceAppends(WriteRear(r, data), unread);
      buf[rear] := data;
      assert Cells() == WriteRear(r, data);
      rear := (rear + 1) % buf.Length;
      assert Cells() == AdvanceRear(WriteRear(r, data));
    }

    /** The critical section of get_next, entered with `unread` cells in use. */
    method GetNext(ghost unread: nat) returns (val: int)
      requires Holds(Cells(), unread) && 0 < unread
      modifies this`front
      ensures Cells() == AdvanceFront(old(Cells()))
      ensures Holds(Cells(), unread - 1)
      ensures old(Contents(Cells(), unread)) == [val] + Contents(Cells(), unread - 1)
    {
      ghost var r := Cells();
      AdvanceRemoves(r, unread);
      val := buf[front];
      front := (front + 1) % buf.Length;
      assert Cells() == AdvanceFront(r);
    }
  }
}
