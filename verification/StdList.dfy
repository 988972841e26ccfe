/**
 The doubly linked list of the C++ library, as the search uses it.

 Positions are indices; the position one past the last element is the sentinel.  The links form a ring: stepping
 back from the first element reaches the sentinel, and stepping forward from the sentinel reaches the first
 element.  The program relies on that ring whenever it erases the first element and then steps back.
 */
module StdList {

  class List<T> {
    var elems: seq<T>

    constructor ()
      ensures elems == []
    {
      elems := [];
    }

    predicate Empty()
      reads this
    {
      elems == []
    }

    function Begin(): nat { 0 }

    function End(): nat
      reads this
    {
      |elems|
    }

    function Next(p: nat): nat
      reads this
      requires p <= |elems|
    {
      if p == |elems| then 0 else p + 1
    }

    function Prev(p: nat): nat
      reads this
      requires p <= |elems|
    {
      if p == 0 then |elems| else p - 1
    }

    function At(p: nat): T
      reads this
      requires p < |elems|
    {
      elems[p]
    }

    function Back(): T
      reads this
      requires !Empty()
    {
      elems[|elems| - 1]
    }

    method PushBack(x: T)
      modifies this
      ensures elems == old(elems) + [x]
    {
      elems := elems + [x];
    }

    method SetBack(x: T)
      requires !Empty()
      modifies this
      ensures elems == old(elems)[..|old(elems)| - 1] + [x]
    {
      elems := elems[..|elems| - 1] + [x];
    }

    method PopBack()
      requires !Empty()
      modifies this
      ensures elems == old(elems)[..|old(elems)| - 1]
    {
      elems := elems[..|elems| - 1];
    }

    /** Removes the element at p and returns the position of the one that followed it. */
    method Erase(p: nat) returns (q: nat)
      requires p < |elems|
      modifies this
      ensures elems == old(elems)[..p] + old(elems)[p + 1..]
      ensures q == p
    {
      elems := elems[..p] + elems[p + 1..];
      q := p;
    }
  }
}
