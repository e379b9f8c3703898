/**
 * Properties of whole sequences of queue operations: draining a queue by
 * repeated peek and dequeue, first-in-first-out order, and the behaviour of
 * the demonstration that ships with the queue.
 */
module QueueLaws {
  import opened Outcomes
  import S = PersistentStack
  import opened PersistentQueue

  /** The elements read off `q` by peeking and dequeuing until the queue is empty. */
  ghost function Drain<E>(q: Queue<E>): seq<E>
    requires Valid(q)
    decreases |Elements(q)|
  {
    match Peek(q)
    case Err(_) => []
    case Ok(x) => [x] + Drain(Dequeue(q).value)
  }

  /** Draining yields exactly the queue's elements, and as many as `Size` reports. */
  lemma {:induction false} DrainYieldsElements<E>(q: Queue<E>)
    requires Valid(q)
    ensures Drain(q) == Elements(q)
    ensures |Drain(q)| == Size(q)
    decreases |Elements(q)|
  {
    if Elements(q) != [] {
      var rest := Dequeue(q).value;
      DrainYieldsElements(rest);
      assert Elements(q) == [Elements(q)[0]] + Elements(q)[1..];
    }
  }

  /** The queue after enqueuing each of `xs` in turn. */
  function EnqueueAll<E>(q: Queue<E>, xs: seq<E>): (r: Queue<E>)
    requires Valid(q)
    ensures Valid(r)
    decreases |xs|
  {
    if xs == [] then q else EnqueueAll(Enqueue(q, Some(xs[0])).value, xs[1..])
  }

  lemma {:induction false} EnqueueAllAppends<E>(q: Queue<E>, xs: seq<E>)
    requires Valid(q)
    ensures Elements(EnqueueAll(q, xs)) == Elements(q) + xs
    decreases |xs|
  {
    if xs != [] {
      EnqueueAllAppends(Enqueue(q, Some(xs[0])).value, xs[1..]);
      assert xs == [xs[0]] + xs[1..];
    }
  }

  /** First in, first out: draining a queue filled from empty gives back the enqueue order. */
  lemma FifoOrder<E>(xs: seq<E>)
    ensures Drain(EnqueueAll(EmptyQueue(), xs)) == xs
  {
    EnqueueAllAppends(EmptyQueue<E>(), xs);
    DrainYieldsElements(EnqueueAll(EmptyQueue<E>(), xs));
  }

  /** The queue after `n` dequeues, or the failure of the first one that fails. */
  function DequeueTimes<E>(q: Queue<E>, n: nat): (r: Result<Queue<E>>)
    requires Valid(q)
    ensures r.Err? <==> n > |Elements(q)|
    ensures r.Ok? ==> Valid(r.value) && Elements(r.value) == Elements(q)[n..]
    decreases n
  {
    if n == 0 then Ok(q)
    else match Dequeue(q)
      case Err(e) => Err(e)
      case Ok(rest) => DequeueTimes(rest, n - 1)
  }

  /** The demonstration's first version: six enqueues onto the empty queue, which stays empty. */
  lemma DemoFill()
    ensures var q1 := EmptyQueue<int>();
      var q2 := EnqueueAll(q1, [7, 1, 3, 3, 5, 1]);
      && Size(q1) == 0 && Drain(q1) == []
      && Size(q2) == 6 && Peek(q2) == Ok(7) && Drain(q2) == [7, 1, 3, 3, 5, 1]
  {
  }

  /** Dequeuing twice from 7 1 3 3 5 1 leaves 3 3 5 1; four more dequeues empty it. */
  lemma DemoDrain(q2: Queue<int>)
    requires Valid(q2) && Elements(q2) == [7, 1, 3, 3, 5, 1]
    ensures DequeueTimes(q2, 2).Ok? && Drain(DequeueTimes(q2, 2).value) == [3, 3, 5, 1]
    ensures DequeueTimes(DequeueTimes(q2, 2).value, 4).Ok?
    ensures Size(DequeueTimes(DequeueTimes(q2, 2).value, 4).value) == 0
    ensures Drain(EnqueueAll(DequeueTimes(q2, 2).value, [8, 9])) == [3, 3, 5, 1, 8, 9]
  {
    var q3 := DequeueTimes(q2, 2).value;
    assert Elements(q3) == [3, 3, 5, 1];
    DrainYieldsElements(q3);
    EnqueueAllAppends(q3, [8, 9]);
    DrainYieldsElements(EnqueueAll(q3, [8, 9]));
  }

  /** Enqueuing 10 and 1 onto an emptied queue, then dequeuing one and two of them. */
  lemma DemoRefill(q4: Queue<int>)
    requires Valid(q4) && Elements(q4) == []
    ensures Drain(EnqueueAll(q4, [10, 1])) == [10, 1]
    ensures Drain(Dequeue(EnqueueAll(q4, [10, 1])).value) == [1]
    ensures Drain(DequeueTimes(EnqueueAll(q4, [10, 1]), 2).value) == []
  {
  }
}
