# Monitor counter and bounded shared queue, modelled in Dafny

The repository is a set of Java threading exercises. Its only implemented logic
is two monitor classes nested in `ThreadBasicsBase`:

- `Counter`: an `int` field `count` starting at 0, with `synchronized`
  `increment()` (`count++`) and `getValue()`.
- `SharedQueue<T>`: a bounded FIFO buffer over an `ArrayList`, with a capacity
  fixed by the constructor. `put(item)` waits while `size() == capacity`, then
  appends at the tail. `take()` waits while the list is empty, then removes and
  returns the head. Both notify all waiters afterwards.

Every method is `synchronized`, so each call is one atomic step, and threads
interleave only between whole calls. The model is therefore a functional state
machine:

- `shared_queue.dfy` (module `SharedQueue`): the queue as an immutable value.
  Each `wait()` loop becomes a guard (`CanPut`, `CanTake`) that the step
  (`Put`, `Take`) requires.
- `queue_runs.dfy` (module `QueueRuns`): a run is any sequence of `put`/`take`
  calls in lock order, by any number of threads. `Run` executes it, or reports
  the first call whose guard is false. The lemmas cover FIFO order, the
  capacity bound, no loss and no duplication, per-producer order, and the
  capacity-0 and negative-capacity cases.
- `producer_consumer.dfy` (module `ProducerConsumer`): the solution that the
  TODO comments of the `producer_consumer` test describe. In the repository the
  test body is only those comments (`ThreadBasics.java:73-75`), so no thread
  runs there. The model supplies the described threads: one producer puts `xs`
  (1 to 10 in the test), one consumer takes `|xs|` items, and a schedule says
  which thread wins the monitor at each step. The module proves that the items
  are conserved, that there is no deadlock unless the capacity is 0, and that
  such a solution would meet the test's assertions (1 to 10 through a
  capacity-5 queue).
- `counter.dfy` (module `Counter`): the counter. `count++` on a Java `int`
  wraps from 2^31 - 1 to -2^31, and the model writes that out.
- `counter_threads.dfy` (module `CounterThreads`): the solution that the TODO
  comments of the `synchronized_counter` test describe. That test body too is
  only comments (`ThreadBasics.java:52-54`). In the model, `n` threads each
  make `m` increments under any schedule. Once all are done the counter reads
  `n * m` truncated to an `int`, the same value as the Java `int` product the
  test compares it with; for the test's 10 and 1000 that is 10000.
- `wrappers.dfy` (module `Wrappers`): `Option`, the result of running a schedule.

`getValue()` is `Counter.GetValue`. It only reads the field, so it carries no
contract of its own. What it returns after a series of increments is stated by
`Counter.IncrementsFromZero` and `CounterThreads.FinalValue`.

The queue code checks very little:

- The constructor stores any capacity unchanged.
- The guard of `put` tests `==`, not `>=`.
- There is no `close` operation, and neither method handles interruption.

The model follows the code. With capacity 0 neither call can ever proceed on a
fresh queue. With a negative capacity `put` is never blocked, so the buffer is
unbounded. The bound `size <= capacity` is an invariant only for a capacity of
at least 0.

## Model

| member | source | states |
|---|---|---|
| SharedQueue.New | app/src/test/java/org/example/ThreadBasics.java:125-128 | A new queue is empty and keeps the given capacity unvalidated. It satisfies the bound exactly when the capacity is at least 0. `put` is enabled unless the capacity is 0. `take` is not enabled. |
| SharedQueue.Put | app/src/test/java/org/example/ThreadBasics.java:130-136 | Enabled only when the size differs from the capacity. Keeps the old items as a prefix and places the new item last, so the size grows by one and the capacity does not change. Preserves the bound `size <= capacity`. Afterwards `take` is enabled. |
| SharedQueue.Take | app/src/test/java/org/example/ThreadBasics.java:138-145 | Enabled only on a non-empty queue. The returned item followed by the remaining items is the old contents, so it is the head and the size drops by one. Preserves the bound. On a bounded queue it always leaves room for a `put`. |
| SharedQueue.ZeroCapacityBlocksAll | app/src/test/java/org/example/ThreadBasics.java:125-141 | With capacity 0 and the bound holding, neither `put` nor `take` is enabled. |
| SharedQueue.NegativeCapacityNeverFull | app/src/test/java/org/example/ThreadBasics.java:130-134 | With a negative capacity `put` is always enabled, and the result breaks the bound. |
| QueueRuns.Step | app/src/test/java/org/example/ThreadBasics.java:130-145 | One enabled call. What it hands back followed by the new contents equals the old contents followed by what it puts. It keeps the capacity and the bound, and hands back exactly one item for `take` and none for `put`. |
| QueueRuns.Run | app/src/test/java/org/example/ThreadBasics.java:130-145 | A blocked run blocks at an index inside the run. A completed run keeps the capacity and returns one item per `take` call. |
| QueueRuns.RunBlockedAt | app/src/test/java/org/example/ThreadBasics.java:130-141 | If a run blocks at index `i`, its first `i` calls complete, and call `i` finds its guard false in the state they produce. |
| QueueRuns.RunFifo | app/src/test/java/org/example/ThreadBasics.java:130-145 | FIFO over any interleaving: the taken items followed by the current contents equal the initial contents followed by all put items, in order. |
| QueueRuns.RunKeepsBound | app/src/test/java/org/example/ThreadBasics.java:130-145 | Every completed run from a state within the capacity bound ends within it. |
| QueueRuns.FreshRun | app/src/test/java/org/example/ThreadBasics.java:125-145 | From a new queue with capacity at least 0, every reachable state is within the bound. The taken items are always a prefix of the put items. |
| QueueRuns.NoLossNoDuplication | app/src/test/java/org/example/ThreadBasics.java:130-145 | From a new queue, the multiset of put items equals the taken items plus the buffered ones. The number of puts equals the number of takes plus the current size. |
| QueueRuns.Drained | app/src/test/java/org/example/ThreadBasics.java:130-145 | A run from a new queue with as many takes as puts returns exactly the put items, in order, and leaves the queue empty. |
| QueueRuns.PerProducerFifo | app/src/test/java/org/example/ThreadBasics.java:130-145 | For any selection of items, such as one producer's tagged items, the selected taken items are a prefix of the selected put items. So each producer's items come out in its own order. |
| QueueRuns.ZeroCapacityRun | app/src/test/java/org/example/ThreadBasics.java:125-141 | From a new queue with capacity 0, only the empty run completes. |
| QueueRuns.NegativeCapacityUnbounded | app/src/test/java/org/example/ThreadBasics.java:125-136 | With a negative capacity, any batch of puts completes and appends all its items: there is no bound. |
| QueueRuns.PutBatchFits | app/src/test/java/org/example/ThreadBasics.java:130-136 | From a state within the bound, a batch of puts with no takes completes if and only if it fits in the capacity. |
| ProducerConsumer.Start | app/src/test/java/org/example/ThreadBasics.java:66-75 | The start of the solution the TODO comments describe: a producer holding `xs` and a consumer owing `|xs|` takes, on a new queue. It conserves the items, and `2 * |xs|` calls are pending. |
| ProducerConsumer.Step | app/src/test/java/org/example/ThreadBasics.java:130-145 | A producer turn puts the producer's next item at the tail of the queue and leaves the consumer's state alone. A consumer turn moves the head of the queue to the end of `consumed` and lowers the takes still owed by one, leaving the producer's items alone. Either call keeps the order consumed, buffered, not yet put, and keeps what the consumer is owed. One pending call is used up, and the capacity and the bound are kept. |
| ProducerConsumer.Run | app/src/test/java/org/example/ThreadBasics.java:130-145 | A schedule that runs uses up exactly as many pending calls as it has steps. It keeps the capacity. |
| ProducerConsumer.RunConserves | app/src/test/java/org/example/ThreadBasics.java:130-145 | Every state a schedule reaches conserves the items in order, and keeps the bound if the start did. |
| ProducerConsumer.DoneConsumedAll | app/src/test/java/org/example/ThreadBasics.java:82-85 | When both threads are done, the consumer holds exactly the produced items, in order, and the queue is empty. |
| ProducerConsumer.NoDeadlock | app/src/test/java/org/example/ThreadBasics.java:130-145 | If the capacity is not 0 and the items are conserved, then until both threads are done, one of them is enabled. |
| ProducerConsumer.ZeroCapacityDeadlock | app/src/test/java/org/example/ThreadBasics.java:125-141 | With capacity 0 and something to put, both threads are blocked at the start, yet they are not done. |
| ProducerConsumer.MaximalRunFinishes | app/src/test/java/org/example/ThreadBasics.java:66-86 | For a capacity other than 0, a schedule after which neither thread can move has made all `2 * |xs|` calls, and the consumer holds `xs`. |
| ProducerConsumer.AlternateCompletes | app/src/test/java/org/example/ThreadBasics.java:130-145 | Alternating put and take always completes for a capacity other than 0. It delivers all items in order. |
| ProducerConsumer.ExerciseOutcome | app/src/test/java/org/example/ThreadBasics.java:67-86 | For the described solution with capacity 5 and the numbers 1 to 10, every finishing schedule leaves 10 consumed items, the `i`-th equal to `i + 1`, which are the test's assertions. A finishing schedule exists. |
| Counter.Wrap | app/src/test/java/org/example/ThreadBasics.java:110-113 | Truncation to a Java `int`: the result is a 32-bit value congruent to the input modulo 2^32, and in-range inputs are unchanged. |
| Counter.New | app/src/test/java/org/example/ThreadBasics.java:110 | A new counter reads 0. |
| Counter.Increment | app/src/test/java/org/example/ThreadBasics.java:112-114 | `count++` gives the old value plus one, truncated to 32 bits: below the largest `int` the value read grows by exactly 1, and at the largest `int` it wraps to the smallest. |
| Counter.IncrementTimes | app/src/test/java/org/example/ThreadBasics.java:112-114 | `n` increments in a row add `n` to the count, modulo 2^32. |
| Counter.IncrementsFromZero | app/src/test/java/org/example/ThreadBasics.java:110-118 | From a new counter, `getValue()` after `n` increments reads `n` while `n` fits in an `int`, and reads the smallest `int` one past it. |
| CounterThreads.Start | app/src/test/java/org/example/ThreadBasics.java:46-50 | The start of the solution the TODO comments describe: `n` threads with `m` increments each, on a counter that reads 0. |
| CounterThreads.Step | app/src/test/java/org/example/ThreadBasics.java:112-114 | An increment by an enabled thread adds one to the count, truncated to 32 bits. It uses up one unit of that thread's work and leaves every other thread's work unchanged. |
| CounterThreads.Run | app/src/test/java/org/example/ThreadBasics.java:112-114 | Any schedule that runs adds its length to the count, truncated to 32 bits, and uses up that much work. |
| CounterThreads.NoDeadlock | app/src/test/java/org/example/ThreadBasics.java:112-114 | While some thread has work left, some thread is enabled; the first thread with work left is one. |
| CounterThreads.FinalValue | app/src/test/java/org/example/ThreadBasics.java:46-59 | Under any interleaving, once all threads are done, the schedule had exactly `n * m` steps and `getValue()` reads `n * m` truncated to an `int`, which is the value of the Java `int` product it is compared with at line 59. |
| CounterThreads.MaximalRunFinishes | app/src/test/java/org/example/ThreadBasics.java:46-59 | A schedule after which no thread can move has made exactly `n * m` steps and leaves the counter at `n * m` truncated to an `int`. |
| CounterThreads.Greedy | app/src/test/java/org/example/ThreadBasics.java:112-114 | From any state there is a schedule that runs every thread to completion, and it has as many steps as the work left. |
| CounterThreads.ExerciseOutcome | app/src/test/java/org/example/ThreadBasics.java:46-59 | For the described solution with 10 threads of 1000 increments, every finishing interleaving reads 10000, which is the test's assertion. A finishing one exists. |

## Left out

- The wakeups from `wait()` and `notifyAll()` are left out: which waiter wakes, fairness, and whether a blocked thread eventually proceeds. These belong to the Java runtime's scheduler. Blocking is modelled only as a guard that keeps a step from happening, and spurious wakeups change nothing because the guard is rechecked.
- `InterruptedException` is left out. Neither method handles it: it only propagates out of `wait()`, before any change to the queue.
- The `handle_interruption` and `create_and_start_thread` tests are left out. Like all four test bodies, they are TODO comments followed by assertions; these two work on an `AtomicInteger` rather than on the monitor classes, so there is no repository logic for them to exercise.
- Thread creation, `CountDownLatch`, and the `latch.await` timeouts are left out. They are harness plumbing; thread programs are modelled only as counts of remaining calls.
- Capacity validation and `close()` are not modelled because the code has neither.
- The internals of `ArrayList` and `AtomicInteger` are left out. The list is a `seq` and its size is unbounded. An `ArrayList` cannot hold more than 2^31 - 1 elements, so an unbounded queue with a negative capacity would in practice fail at that size.
- `Counter.GetValue` has no contract of its own. It only reads the field; what it returns is stated by the lemmas about it.
