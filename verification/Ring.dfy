/** The circular array both bounded buffers of the repository are built on:
    cells are written at `rear` and read at `front`, and both indices advance
    modulo the number of cells. */
module CircularArray {

  datatype Ring = Ring(cells: seq<int>, front: nat, rear: nat)

  /** The k-th cell from `front` on, where index 0 follows the last one. */
  function Slot(r: Ring, k: nat): nat {
    if r.front + k < |r.cells| then r.front + k else r.front + k - |r.cells|
  }

  /** `n` cells, starting at `front`, hold values that were written and not read. */
  ghost predicate Holds(r: Ring, n: nat) {
    && 0 < |r.cells|
    && r.front < |r.cells|
    && n <= |r.cells|
    && r.rear == Slot(r, n)
  }

  /** The unread values, oldest first. */
  ghost function Contents(r: Ring, n: nat): (c: seq<int>)
    requires Holds(r, n)
    ensures |c| == n
  {
    seq(n, k requires 0 <= k < n => r.cells[Slot(r, k)])
  }

  function WriteRear(r: Ring, v: int): Ring
    requires r.rear < |r.cells|
  {
    r.(cells := r.cells[r.rear := v])
  }

  function AdvanceRear(r: Ring): Ring
    requires 0 < |r.cells|
  {
    r.(rear := (r.rear + 1) % |r.cells|)
  }

  function AdvanceFront(r: Ring): Ring
    requires 0 < |r.cells|
  {
    r.(front := (r.front + 1) % |r.cells|)
  }

  /** Advancing modulo the number of cells goes to the next cell. */
  lemma Next(x: nat, n: nat)
    requires x < n
    ensures (x + 1) % n == if x + 1 < n then x + 1 else 0
  {
  }

  /** Writing at `rear` leaves every unread value alone as long as a cell is free. */
  lemma WriteKeepsContents(r: Ring, n: nat, v: int)
    requires Holds(r, n) && n < |r.cells|
    ensures r.rear < |r.cells|
    ensures Holds(WriteRear(r, v), n)
    ensures Contents(WriteRear(r, v), n) == Contents(r, n)
  {
    assert forall k :: 0 <= k < n ==> Slot(r, k) != r.rear;
    assert Contents(WriteRear(r, v), n) == Contents(r, n);
  }

  /** Advancing `rear` over a cell appends that cell's value. */
  lemma AdvanceAppends(r: Ring, n: nat)
    requires Holds(r, n) && n < |r.cells|
    ensures r.rear < |r.cells|
    ensures Holds(AdvanceRear(r), n + 1)
    ensures Contents(AdvanceRear(r), n + 1) == Contents(r, n) + [r.cells[r.rear]]
  {
    Next(r.rear, |r.cells|);
    assert Contents(AdvanceRear(r), n + 1) == Contents(r, n) + [r.cells[r.rear]];
  }

  /** The cell at `front` holds the oldest unread value, and advancing `front` removes it. */
  lemma AdvanceRemoves(r: Ring, n: nat)
    requires Holds(r, n) && 0 < n
    ensures r.cells[r.front] == Contents(r, n)[0]
    ensures Holds(AdvanceFront(r), n - 1)
    ensures Contents(AdvanceFront(r), n - 1) == Contents(r, n)[1..]
  {
    Next(r.front, |r.cells|);
    assert Contents(AdvanceFront(r), n - 1) == Contents(r, n)[1..];
  }
}
