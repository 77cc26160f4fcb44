// The last-in, first-out queue that the depth-first traversal uses as its
// explicit stack (include/flipsta/queue.hpp).
module Queue {

  class LifoQueue<E> {
    /** The elements from the first pushed (bottom) to the next to be popped (top). */
    var elements: seq<E>

    constructor ()
      ensures elements == []
    {
      elements := [];
    }

    function Empty(): (r: bool)
      reads this
      ensures r <==> |elements| == 0
    {
      elements == []
    }

    method Push(e: E)
      modifies this
      ensures elements == old(elements) + [e]
      ensures !Empty() && Head() == e
    {
      elements := elements + [e];
    }

    /** The element that the next Pop returns. */
    function Head(): (h: E)
      reads this
      requires !Empty()
      ensures h == elements[|elements| - 1]
    {
      elements[|elements| - 1]
    }

    /** Assignment through the mutable reference that head() returns. */
    method SetHead(e: E)
      requires !Empty()
      modifies this
      ensures |elements| == |old(elements)|
      ensures elements[..|elements| - 1] == old(elements)[..|elements| - 1]
      ensures Head() == e
    {
      elements := elements[..|elements| - 1] + [e];
    }

    method Pop() returns (e: E)
      requires !Empty()
      modifies this
      ensures e == old(Head())
      ensures old(elements) == elements + [e]
    {
      e := elements[|elements| - 1];
      elements := elements[..|elements| - 1];
    }
  }

  /** Pushing then popping returns the pushed element and restores the queue. */
  method PushPopRestores<E>(q: LifoQueue<E>, e: E, f: E) returns (popped: E)
    modifies q
    ensures popped == f
    ensures q.elements == old(q.elements)
  {
    q.Push(e);
    q.SetHead(f);
    popped := q.Pop();
  }
}
