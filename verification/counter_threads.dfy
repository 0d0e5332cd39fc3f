/** The solution that the TODO comments of `ThreadBasics.synchronized_counter`
    ask for; the repository leaves the threads unwritten. `n` threads each call
    `increment()` `m` times on one shared `Counter` (10 threads and 1000
    increments in the exercise). Each thread's program is the number of
    increments it has left; a schedule names, step by step, the thread that
    wins the monitor, and only a thread with work left can be named.
 */
module CounterThreads {
  import opened Counter
  import opened Wrappers

  /** The shared counter and, per thread, the increments it has left. */
  datatype System = System(counter: Counter, remaining: seq<nat>)

  /** The total of `xs`. */
  function Sum(xs: seq<nat>): (total: nat)
  {
    if xs == [] then 0 else xs[0] + Sum(xs[1..])
  }

  /** `n` threads, each with `m` increments to make, on a new counter. */
  function Start(n: nat, m: nat): (s: System)
    ensures |s.remaining| == n && GetValue(s.counter) == 0
    ensures forall t :: 0 <= t < n ==> s.remaining[t] == m
  {
    System(New(), seq(n, _ => m))
  }

  predicate Enabled(s: System, t: nat)
  {
    t < |s.remaining| && s.remaining[t] > 0
  }

  predicate Done(s: System)
  {
    forall t :: 0 <= t < |s.remaining| ==> s.remaining[t] == 0
  }

  lemma {:induction false} SumDecrement(xs: seq<nat>, t: nat)
    requires t < |xs| && xs[t] > 0
    ensures Sum(xs[t := xs[t] - 1]) == Sum(xs) - 1
    decreases |xs|
  {
    if t > 0 {
      assert xs[t := xs[t] - 1][1..] == xs[1..][t - 1 := xs[t] - 1];
      SumDecrement(xs[1..], t - 1);
    }
  }

  /** The total is zero exactly when every entry is zero. */
  lemma {:induction false} SumZero(xs: seq<nat>)
    ensures Sum(xs) == 0 <==> forall t :: 0 <= t < |xs| ==> xs[t] == 0
    decreases |xs|
  {
    if xs != [] {
      SumZero(xs[1..]);
      if Sum(xs) == 0 {
        forall t | 0 <= t < |xs|
          ensures xs[t] == 0
        {
          if t > 0 {
            assert xs[t] == xs[1..][t - 1];
          }
        }
      } else if xs[0] == 0 {
        var u :| 0 <= u < |xs[1..]| && xs[1..][u] != 0;
        assert xs[u + 1] != 0;
      }
    }
  }

  /** `n` threads of `m` increments each make `n * m` increments in all. */
  lemma {:induction false} SumStart(n: nat, m: nat)
    ensures Sum(Start(n, m).remaining) == n * m
    decreases n
  {
    if n > 0 {
      assert Start(n, m).remaining[1..] == Start(n - 1, m).remaining;
      SumStart(n - 1, m);
    }
  }

  /** One atomic `increment()` by thread `t`. */
  function Step(s: System, t: nat): (s': System)
    requires Enabled(s, t)
    ensures s'.counter.count == Wrap(s.counter.count + 1)
    ensures Sum(s'.remaining) == Sum(s.remaining) - 1
    ensures |s'.remaining| == |s.remaining|
    ensures s'.remaining[t] == s.remaining[t] - 1
    ensures forall u :: 0 <= u < |s.remaining| && u != t ==> s'.remaining[u] == s.remaining[u]
  {
    SumDecrement(s.remaining, t);
    System(Increment(s.counter), s.remaining[t := s.remaining[t] - 1])
  }

  /** Executes a schedule; absent when a thread in it has no increment left at its turn.
      Each executed step moves one unit of work from the threads to the counter. */
  function Run(s: System, sched: seq<nat>): (r: Option<System>)
    ensures r.Some? ==> Sum(r.value.remaining) + |sched| == Sum(s.remaining)
    ensures r.Some? ==> r.value.counter.count == Wrap(s.counter.count + |sched|)
    ensures r.Some? ==> |r.value.remaining| == |s.remaining|
    decreases |sched|
  {
    if sched == [] then Some(s)
    else if !Enabled(s, sched[0]) then None
    else
      var s1 := Step(s, sched[0]);
      var r := Run(s1, sched[1..]);
      if r.Some? then WrapAdd(s.counter.count + 1, |sched| - 1); r else r
  }

  /** No deadlock: while some thread has work left, some thread is enabled;
      the first thread with work left is one. */
  lemma NoDeadlock(s: System)
    requires !Done(s)
    ensures Enabled(s, FirstEnabled(s.remaining))
    ensures exists t :: Enabled(s, t)
  {
    var t :| 0 <= t < |s.remaining| && s.remaining[t] != 0;
    assert Enabled(s, t);
  }

  /** The exercise's assertion: whatever the interleaving, once every thread is
      done the schedule made exactly `n * m` increments and the counter reads
      `n * m` truncated to an `int`, the same value as the Java `int` product
      `numberOfThreads * incrementsPerThread` it is compared with. */
  lemma FinalValue(n: nat, m: nat, sched: seq<nat>)
    requires Run(Start(n, m), sched).Some? && Done(Run(Start(n, m), sched).value)
    ensures GetValue(Run(Start(n, m), sched).value.counter) == Wrap(n * m)
    ensures |sched| == n * m
  {
    var s := Run(Start(n, m), sched).value;
    SumStart(n, m);
    SumZero(s.remaining);
    assert Sum(s.remaining) == 0;
    assert |sched| == Sum(Start(n, m).remaining);
    assert s.counter.count == Wrap(0 + |sched|);
  }

  /** Every run stops only when all threads are done: a run after which no
      thread is enabled has made all `n * m` increments, and the counter reads
      their total truncated to an `int`. */
  lemma MaximalRunFinishes(n: nat, m: nat, sched: seq<nat>)
    requires Run(Start(n, m), sched).Some?
    requires forall t :: !Enabled(Run(Start(n, m), sched).value, t)
    ensures GetValue(Run(Start(n, m), sched).value.counter) == Wrap(n * m)
    ensures |sched| == n * m
  {
    if !Done(Run(Start(n, m), sched).value) {
      NoDeadlock(Run(Start(n, m), sched).value);
    }
    FinalValue(n, m, sched);
  }

  /** The first thread with work left, if any. */
  function FirstEnabled(xs: seq<nat>): (t: nat)
    ensures t <= |xs|
    ensures t < |xs| ==> xs[t] > 0
    ensures forall u :: 0 <= u < t ==> xs[u] == 0
  {
    if xs == [] then 0
    else if xs[0] > 0 then 0
    else 1 + FirstEnabled(xs[1..])
  }

  /** A schedule that lets the first thread with work left run each time; it
      always completes, so every thread finishes under some interleaving. */
  function Greedy(s: System): (sched: seq<nat>)
    ensures Run(s, sched).Some? && Done(Run(s, sched).value)
    ensures |sched| == Sum(s.remaining)
    decreases Sum(s.remaining)
  {
    var t := FirstEnabled(s.remaining);
    if t == |s.remaining| then
      SumZero(s.remaining);
      []
    else
      var rest := Greedy(Step(s, t));
      assert ([t] + rest)[1..] == rest;
      [t] + rest
  }

  /** With the exercise's 10 threads of 1000 increments, any finishing
      interleaving leaves the counter at 10000, and one exists. */
  lemma ExerciseOutcome(sched: seq<nat>)
    requires Run(Start(10, 1000), sched).Some? && Done(Run(Start(10, 1000), sched).value)
    ensures GetValue(Run(Start(10, 1000), sched).value.counter) == 10000
    ensures Run(Start(10, 1000), Greedy(Start(10, 1000))).Some?
  {
    FinalValue(10, 1000, sched);
  }
}
