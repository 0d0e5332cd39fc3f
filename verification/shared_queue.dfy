/** The bounded buffer `ThreadBasicsBase.SharedQueue<T>` as an immutable value.

    Both public methods of the Java class are `synchronized`, so a call runs as
    one atomic step with respect to every other call on the same queue. The
    `while (...) wait();` loop at the head of each method does not change the
    state; it only decides WHEN the step may happen. It is modelled as a guard
    (`CanPut`, `CanTake`) that the step requires.
 */
module SharedQueue {

  /** The two fields of the monitor: the backing `ArrayList` (head first) and the
      capacity given to the constructor. */
  datatype Queue<T> = Queue(items: seq<T>, capacity: int)
  {
    /** `queue.size()` */
    function Size(): (n: nat)
    {
      |items|
    }

    /** The capacity bound: never more items than the capacity. The size is a
        `nat`, so this also says the capacity is not negative. */
    predicate Bounded()
    {
      |items| <= capacity
    }
  }

  /** `new SharedQueue<>(capacity)`. The constructor accepts any `int`: a zero or
      negative capacity is stored as given. */
  function New<T>(capacity: int): (q: Queue<T>)
    ensures q.Size() == 0 && q.capacity == capacity
    ensures q.Bounded() <==> capacity >= 0
    ensures capacity != 0 ==> CanPut(q)
    ensures !CanTake(q)
  {
    Queue([], capacity)
  }

  /** Guard of `put`: the loop `while (queue.size() == capacity) wait();` lets the
      caller through exactly when the size differs from the capacity. */
  predicate CanPut<T>(q: Queue<T>)
  {
    q.Size() != q.capacity
  }

  /** Guard of `take`: the loop `while (queue.isEmpty()) wait();`. */
  predicate CanTake<T>(q: Queue<T>)
  {
    q.Size() != 0
  }

  /** `put(item)` once its guard holds: `queue.add(item)` appends at the tail.
      The capacity bound survives the step because the guard tests `!=`: a
      bounded queue that is not full is strictly below its capacity. */
  function Put<T>(q: Queue<T>, item: T): (q': Queue<T>)
    requires CanPut(q)
    ensures q'.capacity == q.capacity
    ensures q'.Size() == q.Size() + 1
    ensures q'.items[..q.Size()] == q.items && q'.items[q.Size()] == item
    ensures q.Bounded() ==> q'.Bounded()
    ensures CanTake(q')
  {
    q.(items := q.items + [item])
  }

  /** `take()` once its guard holds: `queue.remove(0)` removes the head and
      returns it. Taking from a bounded queue always frees a slot for `put`. */
  function Take<T>(q: Queue<T>): (r: (T, Queue<T>))
    requires CanTake(q)
    ensures r.1.capacity == q.capacity
    ensures [r.0] + r.1.items == q.items
    ensures r.1.Size() == q.Size() - 1
    ensures q.Bounded() ==> r.1.Bounded() && CanPut(r.1)
  {
    (q.items[0], q.(items := q.items[1..]))
  }

  /** With capacity 0 the bounded (hence empty) queue never lets a `put`
      through, and it has nothing to `take`: every call blocks. */
  lemma ZeroCapacityBlocksAll<T>(q: Queue<T>)
    requires q.capacity == 0 && q.Bounded()
    ensures !CanPut(q) && !CanTake(q)
  {
  }

  /** With a negative capacity the `==` test never fires: `put` is always
      enabled, so the buffer has no bound at all. */
  lemma NegativeCapacityNeverFull<T>(q: Queue<T>, item: T)
    requires q.capacity < 0
    ensures CanPut(q) && !Put(q, item).Bounded()
  {
  }
}
