/**
 * An immutable singly linked LIFO stack. Each node holds its element, the
 * stack below it (shared, never copied) and a cached element count; the empty
 * stack is `Nil`, whose cached count is 0.
 */
module PersistentStack {
  import opened Outcomes

  datatype Stack<E> = Nil | Cons(head: E, tail: Stack<E>, size: nat)

  /** The elements of `s`, top first. */
  ghost function Seq<E>(s: Stack<E>): seq<E>
  {
    match s
    case Nil => []
    case Cons(h, t, _) => [h] + Seq(t)
  }

  /** Every node's cached size is one more than the number of elements below it. */
  ghost predicate Valid<E>(s: Stack<E>)
  {
    match s
    case Nil => true
    case Cons(_, t, n) => Valid(t) && n == |Seq(t)| + 1
  }

  /** Reference definition of reversal on sequences. */
  function Reversed<E>(xs: seq<E>): (r: seq<E>)
    ensures |r| == |xs|
    ensures forall i :: 0 <= i < |xs| ==> r[i] == xs[|xs| - 1 - i]
  {
    if xs == [] then [] else Reversed(xs[1..]) + [xs[0]]
  }

  /** Reversing twice gives back the original sequence. */
  lemma ReversedTwice<E>(xs: seq<E>)
    ensures Reversed(Reversed(xs)) == xs
  {
  }

  /** The shared empty stack. */
  function Empty<E>(): (r: Stack<E>)
    ensures Valid(r) && Seq(r) == []
    ensures Size(r) == 0 && IsEmpty(r)
    ensures Peek(r) == Err(NoSuchElement) && Pop(r) == Err(NoSuchElement)
  {
    Nil
  }

  /** The cached element count, read in O(1). */
  function Size<E>(s: Stack<E>): (r: nat)
    requires Valid(s)
    ensures r == |Seq(s)|
  {
    match s
    case Nil => 0
    case Cons(_, _, n) => n
  }

  /** Emptiness is decided by the cached count alone. */
  function IsEmpty<E>(s: Stack<E>): (r: bool)
    requires Valid(s)
    ensures r <==> Seq(s) == []
    ensures r <==> s.Nil?
  {
    Size(s) == 0
  }

  /** A new node on top of `s`; `s` itself becomes the shared tail. */
  function Push<E>(s: Stack<E>, e: E): (r: Stack<E>)
    requires Valid(s)
    ensures Valid(r) && Seq(r) == [e] + Seq(s)
    ensures Size(r) == Size(s) + 1
    ensures Peek(r) == Ok(e) && Pop(r) == Ok(s)
  {
    Cons(e, s, Size(s) + 1)
  }

  /** The stack below the top element; the empty stack has none. */
  function Pop<E>(s: Stack<E>): (r: Result<Stack<E>>)
    requires Valid(s)
    ensures r.Err? <==> Seq(s) == []
    ensures r.Err? ==> r.error == NoSuchElement
    ensures r.Ok? ==> Valid(r.value) && Seq(r.value) == Seq(s)[1..]
  {
    if IsEmpty(s) then Err(NoSuchElement) else Ok(s.tail)
  }

  /** The top element; the empty stack has none. */
  function Peek<E>(s: Stack<E>): (r: Result<E>)
    requires Valid(s)
    ensures r.Err? <==> Seq(s) == []
    ensures r.Err? ==> r.error == NoSuchElement
    ensures r.Ok? ==> r.value == Seq(s)[0]
  {
    if IsEmpty(s) then Err(NoSuchElement) else Ok(s.head)
  }

  /**
   * What the reversal loop computes from cursor `s` and accumulator `acc`:
   * pop `s` until it is empty, pushing each element onto `acc`.
   */
  function ReverseOnto<E>(s: Stack<E>, acc: Stack<E>): (r: Stack<E>)
    requires Valid(s) && Valid(acc)
    ensures Valid(r) && Seq(r) == Reversed(Seq(s)) + Seq(acc)
    ensures Size(r) == Size(s) + Size(acc)
    decreases s
  {
    if IsEmpty(s) then acc else ReverseOnto(Pop(s).value, Push(acc, Peek(s).value))
  }

  /** Reversing a stack twice gives back its elements and size. */
  lemma ReverseTwice<E>(s: Stack<E>)
    requires Valid(s)
    ensures Seq(ReverseOnto(ReverseOnto(s, Empty()), Empty())) == Seq(s)
    ensures Size(ReverseOnto(ReverseOnto(s, Empty()), Empty())) == Size(s)
  {
    ReversedTwice(Seq(s));
  }

  /** A reversed copy of `s`, built by popping `s` onto a fresh accumulator; `s` is left as it was. */
  method Reverse<E>(s: Stack<E>) returns (reversed: Stack<E>)
    requires Valid(s)
    ensures reversed == ReverseOnto(s, Empty())
    ensures Valid(reversed) && Seq(reversed) == Reversed(Seq(s))
    ensures Size(reversed) == Size(s)
  {
    reversed := Empty();
    var tmp := s;
    while !IsEmpty(tmp)
      invariant Valid(tmp) && Valid(reversed)
      invariant ReverseOnto(tmp, reversed) == ReverseOnto(s, Empty())
      decreases Size(tmp)
    {
      reversed := Push(reversed, Peek(tmp).value);
      tmp := Pop(tmp).value;
    }
  }
}
