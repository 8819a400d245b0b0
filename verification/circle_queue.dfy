/**
 The circular buffer behind the rolling checksums. `Realloc` overwrites the
 capacity before it looks for the wrap point, so it keeps the contents only of
 an unwrapped queue, or when the size does not change.
*/
module CircleQueues {

  /** The guard under which a pop halves the buffer. */
  predicate ShrinkDue(size: int, capacity: int) {
    0 < size < capacity / 3 && capacity > 15
  }

  /** The capacity a push leaves behind, and the one a pop does. */
  function Grown(size: int, capacity: int): int {
    if size >= capacity - 1 then 2 * capacity else capacity
  }

  function Shrunk(size: int, capacity: int): int {
    if ShrinkDue(size, capacity) then capacity / 2 else capacity
  }

  datatype Moved<T> = Moved(bytes: seq<T>) | Undefined

  /** The values between `front` and `end` of a buffer, oldest first. */
  function Queued<T>(origin: seq<T>, front: nat, end: nat): seq<T>
    requires front < |origin| && end < |origin|
  {
    if front <= end then origin[front..end] else origin[front..] + origin[..end]
  }

  /**
   What the `memmove`s of `Realloc` put at the start of the new buffer, for any
   state; undefined when they would leave either buffer.
  */
  function ReallocMoves<T>(origin: seq<T>, front: nat, end: nat, newSize: nat): Moved<T>
    requires front < |origin| && end < |origin|
  {
    if front < end then if end - front <= newSize then Moved(origin[front..end]) else Undefined
    else if front == end then Moved([])
    else if front <= newSize <= |origin| then Moved(origin[front..newSize] + origin[..end])
    else Undefined
  }

  /** `Realloc` keeps the queue exactly when it is unwrapped and fits the new buffer, or the size does not change. */
  lemma ReallocKeepsIff<T>(origin: seq<T>, front: nat, end: nat, newSize: nat)
    requires front < |origin| && end < |origin|
    ensures ReallocMoves(origin, front, end, newSize) == Moved(Queued(origin, front, end))
            <==> (front <= end && end - front <= newSize) || newSize == |origin|
  {
    if front > end && front <= newSize <= |origin| {
      assert |ReallocMoves(origin, front, end, newSize).bytes| == newSize - front + end;
      assert |Queued(origin, front, end)| == |origin| - front + end;
      if newSize == |origin| {
        assert origin[front..newSize] == origin[front..];
      }
    }
  }

  /**
   Pushes and pops alone reach a wrapped queue whose next push must grow the
   buffer, and the growth then reads beyond the old one.
  */
  method WrappedAndFull() returns (q: CircleQueue<int>)
    ensures fresh(q) && q.Valid() && !q.Unwrapped() && q.size >= q.capacity - 1
    ensures ReallocMoves(q.data[..], q.front, q.end, 2 * q.capacity).Undefined?
  {
    q := new CircleQueue(0);
    for i := 0 to 8
      invariant q.Valid() && fresh(q) && fresh(q.data) && q.size == i && q.capacity == 10 && q.front == 0
    {
      q.Push(i);
    }
    q.Pop();
    q.Push(8);
    q.Push(9);
  }

  class CircleQueue<T(0)> {
    var data: array<T>
    var size: int
    var capacity: int
    var front: int
    var end: int

    ghost predicate Valid()
      reads this, data
    {
      && data.Length == capacity && 2 <= capacity
      && 0 <= size < capacity && 0 <= front < capacity
      && end == (if front + size < capacity then front + size else front + size - capacity)
    }

    /** The queued values, oldest first. */
    ghost function Contents(): (s: seq<T>)
      requires Valid()
      reads this, data
      ensures |s| == size
    {
      if front + size <= capacity then data[front..front + size]
      else data[front..] + data[..end]
    }

    ghost predicate Unwrapped()
      reads this
    {
      front <= end
    }

    constructor (n: int)
      requires 0 <= n
      ensures Valid() && Contents() == [] && capacity == n + 10 && front == 0
      ensures fresh(data)
    {
      data := new T[n + 10];
      size, capacity, front, end := 0, n + 10, 0, 0;
    }

    /** Outside its precondition the second `memmove` pair starts from a wrong wrap point. */
    method Realloc(newSize: int)
      requires Valid() && size < newSize && 2 <= newSize
      requires Unwrapped() || newSize == capacity
      modifies this
      ensures Valid() && fresh(data)
      ensures Contents() == old(Contents()) && size == old(size)
      ensures capacity == newSize && front == 0
    {
      ghost var was := Contents();
      capacity := newSize;
      var origin := data;
      data := new T[newSize];
      if front < end {
        forall i | 0 <= i < size { data[i] := origin[front + i]; }
        assert data[..size] == was;
      } else if front > end {
        forall i | 0 <= i < capacity - front { data[i] := origin[front + i]; }
        forall i | 0 <= i < end { data[capacity - front + i] := origin[i]; }
        assert data[..size] == was;
      }
      front := 0;
      end := size;
    }

    method Push(t: T)
      requires Valid()
      requires size >= capacity - 1 ==> Unwrapped()
      modifies this, data
      ensures Valid() && (data == old(data) || fresh(data))
      ensures Contents() == old(Contents()) + [t]
      ensures capacity == Grown(old(size), old(capacity))
      ensures front == if old(size) >= old(capacity) - 1 then 0 else old(front)
      ensures capacity == old(capacity) ==> data == old(data)
    {
      if size >= capacity - 1 {
        Realloc(capacity * 2);
      }
      data[end] := t;
      if end >= capacity - 1 {
        end := 0;
      } else {
        end := end + 1;
      }
      size := size + 1;
    }

    method Pop()
      requires Valid()
      requires ShrinkDue(size, capacity) ==> Unwrapped()
      modifies this
      ensures Valid() && (data == old(data) || fresh(data))
      ensures Contents() == if old(size) == 0 then [] else old(Contents())[1..]
      ensures capacity == Shrunk(old(size), old(capacity))
      ensures ShrinkDue(old(size), old(capacity)) ==> front == 1
      ensures old(size) > 0 && !ShrinkDue(old(size), old(capacity)) ==>
                front == if old(front) >= old(capacity) - 1 then 0 else old(front) + 1
      ensures capacity == old(capacity) ==> data == old(data)
    {
      if size <= 0 {
        return;
      }
      if size < capacity / 3 && capacity > 15 {
        Realloc(capacity / 2);
      }
      if front >= capacity - 1 {
        front := 0;
      } else {
        front := front + 1;
      }
      size := size - 1;
    }

    /** `front()`; on an empty queue it returns whatever the slot holds. */
    function Front(): (t: T)
      requires Valid()
      reads this, data
      ensures size > 0 ==> t == Contents()[0]
    {
      data[front]
    }

    method Clear()
      requires Valid()
      modifies `front, `size, `end
      ensures Valid() && Contents() == [] && front == 0
    {
      front := 0;
      size := 0;
      end := 0;
    }

    /** The contents, moved to the start of a buffer of the same size. */
    method GetData() returns (d: array<T>)
      requires Valid()
      modifies this
      ensures Valid() && fresh(data) && d == data
      ensures Contents() == old(Contents()) && d[..size] == Contents()
      ensures capacity == old(capacity) && front == 0
    {
      Realloc(capacity);
      d := data;
    }
  }
}
