/** The solution that the TODO comments of `ThreadBasics.producer_consumer` ask
    for; the repository leaves both threads unwritten. One producer thread
    puts the items `xs` (the numbers 1 to 10 in the exercise)
    into a `SharedQueue`, and one consumer thread takes `|xs|` items and appends
    each to its `consumed` list. Each thread's program is a counter of what is
    left to do; a schedule is the order in which the two threads win the
    monitor, and a thread can only win it when its guard holds.
 */
module ProducerConsumer {
  import opened SharedQueue
  import opened Wrappers

  datatype Thread = Producer | Consumer

  /** The shared queue, the producer's items still to put, the number of items
      the consumer still has to take, and what the consumer has taken so far. */
  datatype System<T> = System(queue: Queue<T>, toPut: seq<T>, toTake: nat, consumed: seq<T>)

  /** Both threads started on a fresh queue of the given capacity. */
  function Start<T>(capacity: int, xs: seq<T>): (s: System<T>)
    ensures Conserves(s, xs) && Pending(s) == 2 * |xs|
  {
    System(New(capacity), xs, |xs|, [])
  }

  /** The calls still to be made by both threads together. */
  function Pending<T>(s: System<T>): (calls: nat)
  {
    |s.toPut| + s.toTake
  }

  predicate Done<T>(s: System<T>)
  {
    s.toPut == [] && s.toTake == 0
  }

  /** Conservation of the items `xs`: consumed, then buffered, then not yet put,
      they are `xs` in order; and the consumer still expects exactly as many
      items as are buffered or yet to be put. */
  ghost predicate Conserves<T>(s: System<T>, xs: seq<T>)
  {
    Flow(s) == xs && Owed(s) == 0
  }

  /** The items in the order they travel: consumed, buffered, not yet put. */
  function Flow<T>(s: System<T>): (items: seq<T>)
  {
    s.consumed + s.queue.items + s.toPut
  }

  /** Takes the consumer still expects beyond the items buffered or yet to come. */
  function Owed<T>(s: System<T>): (excess: int)
  {
    s.toTake - |s.queue.items| - |s.toPut|
  }

  predicate Enabled<T>(s: System<T>, t: Thread)
  {
    match t
    case Producer => s.toPut != [] && CanPut(s.queue)
    case Consumer => s.toTake > 0 && CanTake(s.queue)
  }

  /** One atomic call by thread `t`: the producer's next `put`, or the
      consumer's next `take` with the item appended to `consumed`. */
  function Step<T>(s: System<T>, t: Thread): (s': System<T>)
    requires Enabled(s, t)
    ensures t == Producer ==>
      s'.queue.items == s.queue.items + [s.toPut[0]] && s'.toPut == s.toPut[1..]
      && s'.toTake == s.toTake && s'.consumed == s.consumed
    ensures t == Consumer ==>
      s'.consumed == s.consumed + [s.queue.items[0]] && s'.queue.items == s.queue.items[1..]
      && s'.toPut == s.toPut && s'.toTake == s.toTake - 1
    ensures Flow(s') == Flow(s) && Owed(s') == Owed(s)
    ensures Pending(s') == Pending(s) - 1
    ensures s'.queue.capacity == s.queue.capacity
    ensures s.queue.Bounded() ==> s'.queue.Bounded()
  {
    match t
    case Producer =>
      assert s.toPut == [s.toPut[0]] + s.toPut[1..];
      s.(queue := Put(s.queue, s.toPut[0]), toPut := s.toPut[1..])
    case Consumer =>
      var (x, q') := Take(s.queue);
      s.(queue := q', toTake := s.toTake - 1, consumed := s.consumed + [x])
  }

  /** Executes a schedule; absent when some thread in it is not enabled at its turn. */
  function Run<T>(s: System<T>, sched: seq<Thread>): (r: Option<System<T>>)
    ensures r.Some? ==> Pending(r.value) + |sched| == Pending(s)
    ensures r.Some? ==> r.value.queue.capacity == s.queue.capacity
    decreases |sched|
  {
    if sched == [] then Some(s)
    else if !Enabled(s, sched[0]) then None
    else Run(Step(s, sched[0]), sched[1..])
  }

  /** Every state reached from `s` conserves the items, and keeps the capacity
      bound if `s` did. */
  lemma {:induction false} RunConserves<T>(s: System<T>, sched: seq<Thread>, xs: seq<T>)
    requires Conserves(s, xs) && Run(s, sched).Some?
    ensures Conserves(Run(s, sched).value, xs)
    ensures s.queue.Bounded() ==> Run(s, sched).value.queue.Bounded()
    decreases |sched|
  {
    if sched != [] {
      RunConserves(Step(s, sched[0]), sched[1..], xs);
    }
  }

  /** When both threads are done, the consumer has taken exactly `xs`, in order,
      and the queue is empty. */
  lemma DoneConsumedAll<T>(s: System<T>, xs: seq<T>)
    requires Conserves(s, xs) && Done(s)
    ensures s.consumed == xs && s.queue.items == []
  {
  }

  /** No deadlock: unless both threads are done, one of them can proceed,
      provided the capacity is not 0 (a negative capacity never blocks `put`). */
  lemma NoDeadlock<T>(s: System<T>, xs: seq<T>)
    requires Conserves(s, xs) && s.queue.capacity != 0
    requires !Done(s)
    ensures Enabled(s, Producer) || Enabled(s, Consumer)
  {
  }

  /** With capacity 0 both threads block at once when there is anything to put. */
  lemma ZeroCapacityDeadlock<T>(xs: seq<T>)
    requires xs != []
    ensures !Enabled(Start(0, xs), Producer) && !Enabled(Start(0, xs), Consumer)
    ensures !Done(Start(0, xs))
  {
  }

  /** Every run from the start ends with the consumer holding exactly `xs` in
      order once it can go no further: a run that stops with neither thread
      enabled has completed all `2 * |xs|` calls. */
  lemma MaximalRunFinishes<T>(capacity: int, xs: seq<T>, sched: seq<Thread>)
    requires capacity != 0
    requires Run(Start(capacity, xs), sched).Some?
    requires var s := Run(Start(capacity, xs), sched).value;
      !Enabled(s, Producer) && !Enabled(s, Consumer)
    ensures Run(Start(capacity, xs), sched).value.consumed == xs
    ensures |sched| == 2 * |xs|
  {
    var s := Run(Start(capacity, xs), sched).value;
    RunConserves(Start(capacity, xs), sched, xs);
    if !Done(s) {
      NoDeadlock(s, xs);
    }
    DoneConsumedAll(s, xs);
  }

  /** `n` rounds of producer then consumer. */
  function Alternate(n: nat): (sched: seq<Thread>)
    ensures |sched| == 2 * n
  {
    if n == 0 then [] else [Producer, Consumer] + Alternate(n - 1)
  }

  /** The alternating schedule always goes through when the capacity is not 0:
      each item is put into the empty queue and taken straight back. */
  lemma {:induction false} AlternateCompletes<T>(capacity: int, xs: seq<T>, done: seq<T>)
    requires capacity != 0
    ensures Run(System(Queue([], capacity), xs, |xs|, done), Alternate(|xs|))
         == Some(System(Queue([], capacity), [], 0, done + xs))
    decreases |xs|
  {
    var s := System(Queue([], capacity), xs, |xs|, done);
    if xs == [] {
      assert done + xs == done;
    } else {
      var sched := Alternate(|xs|);
      var s1 := Step(s, Producer);
      var s2 := Step(s1, Consumer);
      assert s2 == System(Queue([], capacity), xs[1..], |xs[1..]|, done + [xs[0]]);
      assert sched[2..] == Alternate(|xs| - 1);
      assert Run(s, sched) == Run(s2, sched[2..]);
      AlternateCompletes(capacity, xs[1..], done + [xs[0]]);
      assert done + [xs[0]] + xs[1..] == done + xs;
    }
  }

  /** The numbers 1 to `n`. */
  function OneTo(n: nat): (xs: seq<int>)
    ensures |xs| == n && forall i :: 0 <= i < n ==> xs[i] == i + 1
  {
    seq(n, i => i + 1)
  }

  /** The exercise's assertions: with a capacity-5 queue and the numbers 1 to
      10, any schedule in which both threads finish leaves `consumed` holding
      10 items, the `i`-th being `i + 1`; and such a schedule exists. */
  lemma ExerciseOutcome(sched: seq<Thread>)
    requires Run(Start(5, OneTo(10)), sched).Some?
    requires Done(Run(Start(5, OneTo(10)), sched).value)
    ensures var consumed := Run(Start(5, OneTo(10)), sched).value.consumed;
      |consumed| == 10 && forall i :: 0 <= i < 10 ==> consumed[i] == i + 1
    ensures Run(Start(5, OneTo(10)), Alternate(10)).Some?
  {
    var s := Run(Start(5, OneTo(10)), sched).value;
    RunConserves(Start(5, OneTo(10)), sched, OneTo(10));
    DoneConsumedAll(s, OneTo(10));
    AlternateCompletes(5, OneTo(10), []);
  }
}
