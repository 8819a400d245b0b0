/**
 How the rolling checksums use the circular buffer: clear, fill, then one push
 and one pop per update. Every resize in such a use meets an unwrapped queue,
 and resizing stops.
*/
module WindowDiscipline {
  import opened CircleQueues

  /** The capacity one push and one pop leave behind, for a window of `length` bytes. */
  function NextCapacity(capacity: int, length: int): int {
    Shrunk(length + 1, Grown(length, capacity))
  }

  /** The facts about a rolling window that keep every resize away from a wrapped queue. */
  predicate Disciplined(capacity: int, length: int, front: int) {
    && (length >= capacity - 1 ==> front == 0)
    && (ShrinkDue(length + 1, capacity) ==> front <= 1)
  }

  lemma DisciplineKept(capacity: int, length: int, front: int)
    requires 1 <= length < capacity && 0 <= front && Disciplined(capacity, length, front)
    ensures var grown := Grown(length, capacity);
            && (length >= capacity - 1 ==> front == 0)
            && (ShrinkDue(length + 1, grown) ==> grown == capacity && front + length + 1 < capacity)
            && forall front' {:trigger Disciplined(NextCapacity(capacity, length), length, front')} ::
                 (ShrinkDue(length + 1, grown) ==> front' == 1)
                 ==> Disciplined(NextCapacity(capacity, length), length, front')
  {
  }

  /** The capacity after `n` updates. */
  function CapacityAfter(capacity: int, length: int, n: nat): int
    decreases n
  {
    if n == 0 then capacity else CapacityAfter(NextCapacity(capacity, length), length, n - 1)
  }

  /** Resizing stops for good after finitely many updates. */
  lemma {:induction false} ResizingStops(capacity: int, length: int) returns (n: nat)
    requires 1 <= length < capacity
    ensures n <= capacity + 1
    ensures var settled := CapacityAfter(capacity, length, n); NextCapacity(settled, length) == settled
    decreases if length >= capacity - 1 then 1 else 0, capacity
  {
    var next := NextCapacity(capacity, length);
    if next == capacity {
      n := 0;
    } else if length >= capacity - 1 {
      assert NextCapacity(next, length) == next;
      n := 1;
      assert CapacityAfter(capacity, length, 1) == CapacityAfter(next, length, 0);
    } else {
      n := ResizingStops(next, length);
      n := n + 1;
    }
  }

  lemma {:induction false} SettledStays(capacity: int, length: int, n: nat)
    requires NextCapacity(capacity, length) == capacity
    ensures CapacityAfter(capacity, length, n) == capacity
  {
    if n > 0 {
      SettledStays(capacity, length, n - 1);
    }
  }
}
