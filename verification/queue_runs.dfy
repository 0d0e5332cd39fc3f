/** Runs of a `SharedQueue`: any interleaving of `put` and `take` calls, by any
    number of threads, reaches the monitor as one sequence of atomic steps in
    the order the callers acquired the lock. A run is that sequence; who called
    does not matter to the queue's state.
 */
module QueueRuns {
  import opened SharedQueue

  /** One atomic call: `put(item)` or `take()`. */
  datatype Event<T> = PutEvent(item: T) | TakeEvent

  /** The result of executing a run: either every step was enabled, giving the
      final queue and the items `take` returned in order, or the step at index
      `at` found its guard false (its caller would still be waiting). */
  datatype Outcome<T> = Completed(last: Queue<T>, taken: seq<T>) | Blocked(at: nat)

  predicate Enabled<T>(q: Queue<T>, e: Event<T>)
  {
    match e
    case PutEvent(_) => CanPut(q)
    case TakeEvent => CanTake(q)
  }

  /** The items handed to `put`, in lock order. */
  function Puts<T>(evs: seq<Event<T>>): (xs: seq<T>)
    ensures |xs| <= |evs|
  {
    if evs == [] then []
    else (if evs[0].PutEvent? then [evs[0].item] else []) + Puts(evs[1..])
  }

  /** The number of `take` calls. */
  function TakeCount<T>(evs: seq<Event<T>>): (n: nat)
    ensures n + |Puts(evs)| == |evs|
  {
    if evs == [] then 0
    else (if evs[0].TakeEvent? then 1 else 0) + TakeCount(evs[1..])
  }

  /** The items put by one call: the singleton `[item]` for `put`, nothing for `take`. */
  function PutOf<T>(e: Event<T>): (xs: seq<T>)
  {
    if e.PutEvent? then [e.item] else []
  }

  /** One enabled call: the items it hands back to its caller (the head for
      `take`, nothing for `put`) and the queue it leaves. */
  function Step<T>(q: Queue<T>, e: Event<T>): (r: (seq<T>, Queue<T>))
    requires Enabled(q, e)
    ensures r.0 + r.1.items == q.items + PutOf(e)
    ensures r.1.capacity == q.capacity
    ensures |r.0| == (if e.TakeEvent? then 1 else 0)
    ensures q.Bounded() ==> r.1.Bounded()
  {
    match e
    case PutEvent(x) => ([], Put(q, x))
    case TakeEvent => ([Take(q).0], Take(q).1)
  }

  /** Prefixes the output of one executed step to the outcome of the rest of a
      run, shifting the index of a blocked step past it. */
  function After<T>(out: seq<T>, o: Outcome<T>): (o': Outcome<T>)
  {
    match o
    case Completed(l, t) => Completed(l, out + t)
    case Blocked(i) => Blocked(i + 1)
  }

  /** Executes the calls of `evs` one after another from `q`. */
  function Run<T>(q: Queue<T>, evs: seq<Event<T>>): (o: Outcome<T>)
    ensures o.Blocked? ==> o.at < |evs|
    ensures o.Completed? ==> o.last.capacity == q.capacity
    ensures o.Completed? ==> |o.taken| == TakeCount(evs)
    decreases |evs|
  {
    if evs == [] then Completed(q, [])
    else if !Enabled(q, evs[0]) then Blocked(0)
    else
      var (out, q') := Step(q, evs[0]);
      After(out, Run(q', evs[1..]))
  }

  /** Where a run blocks: every step before index `at` was enabled, and the step
      at `at` finds its guard false in the state those steps produced. */
  lemma {:induction false} RunBlockedAt<T>(q: Queue<T>, evs: seq<Event<T>>)
    requires Run(q, evs).Blocked?
    ensures var i := Run(q, evs).at;
      Run(q, evs[..i]).Completed? && !Enabled(Run(q, evs[..i]).last, evs[i])
    decreases |evs|
  {
    var i := Run(q, evs).at;
    if i == 0 {
      assert evs[..0] == [];
    } else {
      var q' := Step(q, evs[0]).1;
      RunBlockedAt(q', evs[1..]);
      assert evs[..i][0] == evs[0];
      assert evs[..i][1..] == evs[1..][..i - 1];
    }
  }

  /** FIFO: what has been taken, followed by what is still buffered, is exactly
      what was buffered at the start followed by everything put, in order. */
  lemma {:induction false} RunFifo<T>(q: Queue<T>, evs: seq<Event<T>>)
    requires Run(q, evs).Completed?
    ensures Run(q, evs).taken + Run(q, evs).last.items == q.items + Puts(evs)
    decreases |evs|
  {
    if evs != [] {
      var (out, q') := Step(q, evs[0]);
      RunFifo(q', evs[1..]);
      var o := Run(q', evs[1..]);
      assert Run(q, evs) == After(out, o);
      var t, l, rest := o.taken, o.last.items, Puts(evs[1..]);
      assert Puts(evs) == PutOf(evs[0]) + rest;
      assert out + q'.items == q.items + PutOf(evs[0]);
      assert t + l == q'.items + rest;
      assert Run(q, evs).taken == out + t && Run(q, evs).last.items == l;
      AppendAssoc(out, t, l);
      AppendAssoc(out, q'.items, rest);
      AppendAssoc(q.items, PutOf(evs[0]), rest);
    }
  }

  lemma AppendAssoc<T>(a: seq<T>, b: seq<T>, c: seq<T>)
    ensures (a + b) + c == a + (b + c)
  {
  }

  /** The capacity bound `0 <= size <= capacity` holds after every run that
      starts from a state where it holds. */
  lemma {:induction false} RunKeepsBound<T>(q: Queue<T>, evs: seq<Event<T>>)
    requires q.Bounded() && Run(q, evs).Completed?
    ensures Run(q, evs).last.Bounded()
    decreases |evs|
  {
    if evs != [] {
      RunKeepsBound(Step(q, evs[0]).1, evs[1..]);
    }
  }

  /** From a fresh queue with a non-negative capacity, the bound holds in every
      reachable state, and the taken items are always a prefix of the put items. */
  lemma FreshRun<T>(capacity: int, evs: seq<Event<T>>)
    requires capacity >= 0 && Run(New<T>(capacity), evs).Completed?
    ensures Run(New<T>(capacity), evs).last.Bounded()
    ensures Run(New<T>(capacity), evs).taken <= Puts(evs)
  {
    RunKeepsBound(New<T>(capacity), evs);
    RunFifo(New<T>(capacity), evs);
    var o := Run(New<T>(capacity), evs);
    assert New<T>(capacity).items + Puts(evs) == Puts(evs);
    assert Puts(evs)[..|o.taken|] == o.taken;
  }

  /** No loss and no duplication: the items put are, as a multiset, exactly the
      items taken plus the items still buffered; and the number of puts is the
      number of takes plus the current size. */
  lemma NoLossNoDuplication<T>(capacity: int, evs: seq<Event<T>>)
    requires Run(New<T>(capacity), evs).Completed?
    ensures var o := Run(New<T>(capacity), evs);
      multiset(o.taken) + multiset(o.last.items) == multiset(Puts(evs))
    ensures |Puts(evs)| == TakeCount(evs) + Run(New<T>(capacity), evs).last.Size()
  {
    var o := Run(New<T>(capacity), evs);
    RunFifo(New<T>(capacity), evs);
    calc {
      multiset(Puts(evs));
      { assert New<T>(capacity).items + Puts(evs) == Puts(evs); }
      multiset(o.taken + o.last.items);
    }
  }

  /** A run that takes as many items as it puts, from a fresh queue, leaves the
      queue empty and hands out exactly the put items in the same order. */
  lemma Drained<T>(capacity: int, evs: seq<Event<T>>)
    requires Run(New<T>(capacity), evs).Completed?
    requires TakeCount(evs) == |Puts(evs)|
    ensures Run(New<T>(capacity), evs).taken == Puts(evs)
    ensures Run(New<T>(capacity), evs).last.items == []
  {
    RunFifo(New<T>(capacity), evs);
    assert New<T>(capacity).items + Puts(evs) == Puts(evs);
  }

  /** The subsequence of `xs` whose elements satisfy `p`. */
  function Filter<T>(p: T -> bool, xs: seq<T>): (ys: seq<T>)
    ensures |ys| <= |xs|
    ensures forall i :: 0 <= i < |ys| ==> p(ys[i])
  {
    if xs == [] then [] else (if p(xs[0]) then [xs[0]] else []) + Filter(p, xs[1..])
  }

  lemma {:induction false} FilterAppend<T>(p: T -> bool, xs: seq<T>, ys: seq<T>)
    ensures Filter(p, xs + ys) == Filter(p, xs) + Filter(p, ys)
    decreases |xs|
  {
    if xs == [] {
      assert xs + ys == ys;
    } else {
      assert (xs + ys)[1..] == xs[1..] + ys;
      FilterAppend(p, xs[1..], ys);
    }
  }

  /** Order per producer: tag each item with the thread that put it and let `p`
      select one producer's items. Whatever the interleaving with other
      producers and consumers, that producer's items come out in the order it
      put them, and none is skipped. */
  lemma PerProducerFifo<T>(p: T -> bool, capacity: int, evs: seq<Event<T>>)
    requires Run(New<T>(capacity), evs).Completed?
    ensures Filter(p, Run(New<T>(capacity), evs).taken) <= Filter(p, Puts(evs))
  {
    var o := Run(New<T>(capacity), evs);
    RunFifo(New<T>(capacity), evs);
    assert New<T>(capacity).items + Puts(evs) == Puts(evs);
    FilterAppend(p, o.taken, o.last.items);
  }

  /** With capacity 0 no call of a run from a fresh queue can proceed: the only
      run that completes is the empty one. */
  lemma ZeroCapacityRun<T>(evs: seq<Event<T>>)
    requires Run(New<T>(0), evs).Completed?
    ensures evs == []
  {
  }

  /** `n` consecutive `put` calls. */
  function PutAll<T>(xs: seq<T>): (evs: seq<Event<T>>)
    ensures |evs| == |xs| && Puts(evs) == xs && TakeCount(evs) == 0
  {
    if xs == [] then [] else [PutEvent(xs[0])] + PutAll(xs[1..])
  }

  /** With a negative capacity every sequence of `put` calls goes through: the
      buffer grows without bound. */
  lemma {:induction false} NegativeCapacityUnbounded<T>(q: Queue<T>, xs: seq<T>)
    requires q.capacity < 0
    ensures Run(q, PutAll(xs)) == Completed(Queue(q.items + xs, q.capacity), [])
    decreases |xs|
  {
    if xs == [] {
      assert q.items + xs == q.items;
    } else {
      var evs := PutAll(xs);
      assert evs[0] == PutEvent(xs[0]) && evs[1..] == PutAll(xs[1..]);
      var q' := Put(q, xs[0]);
      NegativeCapacityUnbounded(q', xs[1..]);
      assert Step(q, evs[0]) == ([], q');
      assert Run(q, evs) == After([], Run(q', evs[1..]));
      AppendAssoc(q.items, [xs[0]], xs[1..]);
      assert [xs[0]] + xs[1..] == xs;
    }
  }

  /** A queue within its capacity bound accepts a batch of `put` calls without
      any `take` exactly when the batch fits in the room left. */
  lemma {:induction false} PutBatchFits<T>(q: Queue<T>, xs: seq<T>)
    requires q.Bounded()
    ensures Run(q, PutAll(xs)).Completed? <==> |q.items| + |xs| <= q.capacity
    decreases |xs|
  {
    if xs != [] {
      assert PutAll(xs)[1..] == PutAll(xs[1..]);
      if CanPut(q) {
        PutBatchFits(Put(q, xs[0]), xs[1..]);
      }
    }
  }
}
