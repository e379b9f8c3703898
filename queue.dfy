/**
 * An immutable FIFO queue made of two persistent stacks (Okasaki's two-stack
 * queue, in the form of Lippert's "Immutability in C#"). Its elements are the
 * dequeue stack top to bottom followed by the enqueue stack reversed. Every
 * operation returns a new queue and shares the stacks of the old one.
 */
module PersistentQueue {
  import opened Outcomes
  import S = PersistentStack

  datatype Queue<E> = Queue(enqueueStack: S.Stack<E>, dequeueStack: S.Stack<E>)

  /** The queue's elements, head first. */
  ghost function Elements<E>(q: Queue<E>): seq<E>
  {
    S.Seq(q.dequeueStack) + S.Reversed(S.Seq(q.enqueueStack))
  }

  /** Both stacks are well formed, and the dequeue stack is non-empty whenever the queue is. */
  ghost predicate Valid<E>(q: Queue<E>)
  {
    && S.Valid(q.enqueueStack)
    && S.Valid(q.dequeueStack)
    && (Elements(q) != [] ==> S.Seq(q.dequeueStack) != [])
  }

  /** The empty queue: both stacks empty. */
  function EmptyQueue<E>(): (q: Queue<E>)
    ensures Valid(q) && Elements(q) == []
    ensures Size(q) == 0
    ensures Peek(q) == Err(NoSuchElement) && Dequeue(q) == Err(NoSuchElement)
  {
    Queue(S.Empty(), S.Empty())
  }

  /** The number of elements: the sum of the two stacks' cached sizes. */
  function Size<E>(q: Queue<E>): (r: nat)
    requires Valid(q)
    ensures r == |Elements(q)|
    ensures r == 0 <==> q.enqueueStack.Nil? && q.dequeueStack.Nil?
  {
    S.Size(q.enqueueStack) + S.Size(q.dequeueStack)
  }

  /**
   * The queue with `e` appended; a `null` element is refused. Into an empty
   * queue the element goes straight onto the dequeue stack.
   */
  function Enqueue<E>(q: Queue<E>, e: Option<E>): (r: Result<Queue<E>>)
    requires Valid(q)
    ensures r.Err? <==> e.None?
    ensures r.Err? ==> r.error == IllegalArgument
    ensures r.Ok? ==> Valid(r.value) && Elements(r.value) == Elements(q) + [e.value]
  {
    if e.None? then
      Err(IllegalArgument)
    else if Size(q) == 0 then
      Ok(Queue(S.Empty(), S.Push(q.dequeueStack, e.value)))
    else
      Ok(Queue(S.Push(q.enqueueStack, e.value), q.dequeueStack))
  }

  /**
   * The queue without its head. When the dequeue stack holds its last element
   * and elements are pending, the enqueue stack is reversed into its place.
   */
  function Dequeue<E>(q: Queue<E>): (r: Result<Queue<E>>)
    requires Valid(q)
    ensures r.Err? <==> Elements(q) == []
    ensures r.Err? ==> r.error == NoSuchElement
    ensures r.Ok? ==> Valid(r.value) && Elements(r.value) == Elements(q)[1..]
  {
    if Size(q) == 0 then
      Err(NoSuchElement)
    else if S.Size(q.dequeueStack) > 1 then
      Ok(Queue(q.enqueueStack, S.Pop(q.dequeueStack).value))
    else if S.IsEmpty(q.enqueueStack) then
      Ok(Queue(S.Empty(), S.Empty()))
    else
      Ok(Queue(S.Empty(), S.ReverseOnto(q.enqueueStack, S.Empty())))
  }

  /** The head of the queue, the top of the dequeue stack. */
  function Peek<E>(q: Queue<E>): (r: Result<E>)
    requires Valid(q)
    ensures r.Err? <==> Elements(q) == []
    ensures r.Err? ==> r.error == NoSuchElement
    ensures r.Ok? ==> r.value == Elements(q)[0]
  {
    if Size(q) == 0 then Err(NoSuchElement) else Ok(S.Peek(q.dequeueStack).value)
  }
}
