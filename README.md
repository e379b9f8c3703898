# Persistent two-stack queue

A model of an immutable FIFO queue built from two immutable linked stacks
(Okasaki's two-stack queue, in the form Eric Lippert describes in
"Immutability in C#"), together with proofs of its behaviour.

- `PersistentStack` (`stack.dfy`) is the immutable singly linked LIFO stack.
  It is a datatype `Nil | Cons(head, tail, size)`. Each node caches its size.
  `Seq` gives its elements top first. `Valid` says every cached size is
  correct; every stack the operations build is valid. `push`, `pop`, `peek`,
  `isEmpty`, `size` and `empty` are functions. `reverse` is a method with the
  source's loop: it pops a cursor and pushes onto an accumulator. It is proved
  equal to the function `ReverseOnto`, which the queue uses.
- `PersistentQueue` (`queue.dfy`) is a pair `(enqueueStack, dequeueStack)`.
  Its elements (`Elements`) are the dequeue stack top to bottom, followed by
  the enqueue stack reversed. `Valid` is the class invariant: both stacks are
  valid, and the dequeue stack is non-empty whenever the queue is non-empty.
  Every operation is stated against `Elements` and shown to keep `Valid`.
- `QueueLaws` (`laws.dfy`) relates sequences of operations. `Drain` reads a
  queue by repeated peek and dequeue. The lemmas prove that draining gives
  the elements in FIFO order. They also prove the outcomes of the
  demonstration driver's scenario.
- `Outcomes` (`outcomes.dfy`) holds `Option` and `Result`. A Java `null`
  element is `None`. A thrown `IllegalArgumentException` or
  `NoSuchElementException` is an `Err` result.

All values are immutable datatypes. So an operation cannot change the queue or
stack it is applied to, and versions share their stacks. Operations on a stack
or queue require `Valid`: Java's private constructors ensure that every stack
and queue a client can hold satisfies it.

## Model

| member | source | states |
|---|---|---|
| `PersistentStack.Empty` | PersistentQueue.java:162-165 | the empty stack has no elements and size 0, is empty, and peek and pop on it fail with NoSuchElement |
| `PersistentStack.Size` | PersistentQueue.java:185-187 | the cached size equals the number of elements |
| `PersistentStack.IsEmpty` | PersistentQueue.java:167-169 | the stack is empty exactly when it holds no elements, which is exactly the `Nil` stack |
| `PersistentStack.Push` | PersistentQueue.java:147-149 | push puts the element on top of the old elements, adds one to the cached size, keeps the stack valid, and peek and pop undo it |
| `PersistentStack.Pop` | PersistentQueue.java:178-183 | pop fails with NoSuchElement exactly on an empty stack; otherwise it gives a valid stack of the elements without the top one |
| `PersistentStack.Peek` | PersistentQueue.java:171-176 | peek fails with NoSuchElement exactly on an empty stack; otherwise it gives the top element |
| `PersistentStack.Reversed` | PersistentQueue.java:151-160 | the reference reversal keeps the length and puts element i at position length-1-i |
| `PersistentStack.ReversedTwice` | PersistentQueue.java:151-160 | reversing a sequence twice gives it back |
| `PersistentStack.ReverseOnto` | PersistentQueue.java:151-160 | popping a stack onto an accumulator until empty gives a valid stack holding the reversed elements followed by the accumulator's, with sizes added |
| `PersistentStack.ReverseTwice` | PersistentQueue.java:151-160 | reversing a stack twice gives back its elements and its size |
| `PersistentStack.Reverse` | PersistentQueue.java:151-160 | the reversal loop returns a valid stack with the same size and the elements in reverse order |
| `PersistentQueue.EmptyQueue` | PersistentQueue.java:14-17 | the new queue is valid, has no elements and size 0, and peek and dequeue on it fail with NoSuchElement |
| `PersistentQueue.Size` | PersistentQueue.java:119-121 | the sum of the two stacks' sizes equals the number of elements; it is 0 exactly when both stacks are empty |
| `PersistentQueue.Enqueue` | PersistentQueue.java:45-56 | enqueue fails with IllegalArgument exactly for a null element; otherwise it gives a valid queue of the old elements followed by the new one |
| `PersistentQueue.Dequeue` | PersistentQueue.java:75-89 | dequeue fails with NoSuchElement exactly on an empty queue; otherwise, in all three branches, it gives a valid queue of the old elements without the first |
| `PersistentQueue.Peek` | PersistentQueue.java:107-112 | peek fails with NoSuchElement exactly on an empty queue; otherwise it gives the first element |
| `QueueLaws.DrainYieldsElements` | PersistentQueue.java:75-121 | repeated peek and dequeue until empty reads exactly the queue's elements, as many as size reports |
| `QueueLaws.EnqueueAllAppends` | PersistentQueue.java:45-56 | enqueuing a sequence of elements appends them in order |
| `QueueLaws.FifoOrder` | PersistentQueue.java:45-112 | draining a queue filled from empty gives the elements in the order they were enqueued |
| `QueueLaws.DequeueTimes` | PersistentQueue.java:75-89 | n dequeues succeed exactly when the queue has at least n elements, and leave all but the first n |
| `QueueLaws.DemoFill` | PersistentQueue.java:207-210 | the demonstration's empty queue stays empty, and enqueuing 7 1 3 3 5 1 gives size 6, head 7 and those elements in order |
| `QueueLaws.DemoDrain` | PersistentQueue.java:211-217 | two dequeues from 7 1 3 3 5 1 leave 3 3 5 1, four more leave size 0, and enqueuing 8 and 9 gives 3 3 5 1 8 9 |
| `QueueLaws.DemoRefill` | PersistentQueue.java:218-220 | enqueuing 10 and 1 onto an emptied queue gives 10 1; one dequeue leaves 1, two leave nothing |

## Left out

- The printing routine `print` and the console output of `main` (PersistentQueue.java:190-222) are I/O. Only the queue contents that `main` prints are stated, as the three demonstration lemmas.
- The `this == null` test in `isEmpty` (PersistentQueue.java:168) can never hold for a Java receiver. Emptiness is the cached size being 0.
- Reference identity of the shared empty-stack sentinel and the raw-type casts (PersistentQueue.java:137-139, 162-165) are not modelled. Every empty stack is the value `Nil`.
- Sizes are unbounded naturals. The 32-bit overflow of `_size + 1` and of the queue's size sum is not modelled.
- The amortized O(1) cost of `dequeue` and memory sharing between versions are performance properties, not behaviour. They are not stated.
