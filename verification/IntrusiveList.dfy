/** The intrusive circular list of kernel/list.cpp that the run queue is made of. A list is its head element; the elements
    carry the links themselves. */
module IntrusiveList {

  /** `container` is what the element is embedded in, here the id of a task. */
  class Elem {
    const container: nat
    var prev: Elem?
    var next: Elem?

    constructor (owner: nat)
      ensures prev == null && next == null && container == owner
    {
      container, prev, next := owner, null, null;
    }
  }

  ghost predicate Unique(s: seq<Elem>)
  {
    forall i, j :: 0 <= i < j < |s| ==> s[i] != s[j]
  }

  /** The head followed by the elements, in order, and around again. */
  ghost function Around(head: Elem, elems: seq<Elem>, i: int): Elem
    requires -1 <= i <= |elems|
  {
    if i == -1 || i == |elems| then head else elems[i]
  }

  /** `head` is a well-formed list of exactly these elements: the links lead around in both directions. */
  ghost predicate IsList(head: Elem, elems: seq<Elem>)
    reads head, elems
  {
    && head !in elems && Unique(elems)
    && forall i {:trigger Around(head, elems, i)} :: -1 <= i < |elems| ==>
         Around(head, elems, i).next == Around(head, elems, i + 1) && Around(head, elems, i + 1).prev == Around(head, elems, i)
  }

  method Init(head: Elem)
    modifies head
    ensures IsList(head, [])
  {
    head.prev := head;
    head.next := head;
  }

  method PushBack(head: Elem, elem: Elem, ghost elems: seq<Elem>)
    requires IsList(head, elems) && elem != head && elem !in elems
    modifies head, elem, elems
    ensures IsList(head, elems + [elem])
  {
    ghost var n := |elems|;
    assert Around(head, elems, n - 1).next == Around(head, elems, n);
    var end := head.prev;
    assert end == Around(head, elems, n - 1);
    end.next := elem;
    elem.prev := end;
    elem.next := head;
    head.prev := elem;
    ghost var longer := elems + [elem];
    forall i | -1 <= i < |longer|
      ensures Around(head, longer, i).next == Around(head, longer, i + 1) && Around(head, longer, i + 1).prev == Around(head, longer, i)
    {
      if i < n - 1 {
        assert old(Around(head, elems, i).next == Around(head, elems, i + 1) && Around(head, elems, i + 1).prev == Around(head, elems, i));
        assert Around(head, elems, i + 1) == Around(head, longer, i + 1);
      }
    }
  }

  /** Takes the first element off; the element itself keeps its old links. */
  method PopFront(head: Elem, ghost elems: seq<Elem>) returns (front: Elem?)
    requires IsList(head, elems)
    modifies head, elems
    ensures elems == [] ==> front == null && IsList(head, [])
    ensures elems != [] ==> front == elems[0] && IsList(head, elems[1..]) && unchanged(front)
  {
    assert Around(head, elems, -1) == head;
    front := head.next;
    if front == head {
      return null;
    }
    assert Around(head, elems, 0) == front;
    var next := front.next;
    head.next := next;
    next.prev := head;
    ghost var rest := elems[1..];
    forall i | -1 <= i < |rest|
      ensures Around(head, rest, i).next == Around(head, rest, i + 1) && Around(head, rest, i + 1).prev == Around(head, rest, i)
    {
      assert old(Around(head, elems, i + 1).next == Around(head, elems, i + 2) && Around(head, elems, i + 2).prev == Around(head, elems, i + 1));
      assert Around(head, rest, i + 1) == Around(head, elems, i + 2);
    }
  }

  method Contains(head: Elem, elem: Elem, ghost elems: seq<Elem>) returns (found: bool)
    requires IsList(head, elems)
    ensures found <==> elem in elems
  {
    assert Around(head, elems, -1) == head;
    var node := head.next;
    ghost var i := 0;
    while node != head
      invariant 0 <= i <= |elems| && node == Around(head, elems, i)
      invariant elem !in elems[..i]
      decreases |elems| - i
    {
      if node == elem {
        return true;
      }
      assert Around(head, elems, i).next == Around(head, elems, i + 1);
      node := node.next;
      i := i + 1;
    }
    assert elems[..i] == elems;
    return false;
  }

  method IsEmpty(head: Elem, ghost elems: seq<Elem>) returns (empty: bool)
    requires IsList(head, elems)
    ensures empty <==> elems == []
  {
    assert Around(head, elems, -1) == head;
    empty := head.next == head;
  }

  method Size(head: Elem, ghost elems: seq<Elem>) returns (size: nat)
    requires IsList(head, elems)
    ensures size == |elems|
  {
    assert Around(head, elems, -1) == head;
    size := 0;
    var node := head.next;
    while node != head
      invariant size <= |elems| && node == Around(head, elems, size)
      decreases |elems| - size
    {
      assert Around(head, elems, size).next == Around(head, elems, size + 1);
      node := node.next;
      size := size + 1;
    }
  }

  /** What the links say is all there is: a list has one contents only. */
  lemma {:induction false} ContentsUnique(head: Elem, a: seq<Elem>, b: seq<Elem>)
    requires IsList(head, a) && IsList(head, b)
    ensures a == b
  {
    var n := if |a| < |b| then |a| else |b|;
    SamePrefix(head, a, b, n);
    assert Around(head, a, n - 1).next == Around(head, a, n);
    assert Around(head, b, n - 1).next == Around(head, b, n);
    assert a == a[..n] || b == b[..n];
  }

  lemma {:induction false} SamePrefix(head: Elem, a: seq<Elem>, b: seq<Elem>, n: nat)
    requires IsList(head, a) && IsList(head, b) && n <= |a| && n <= |b|
    ensures a[..n] == b[..n]
  {
    if n > 0 {
      SamePrefix(head, a, b, n - 1);
      assert n >= 2 ==> a[..n - 1][n - 2] == b[..n - 1][n - 2];
      assert Around(head, a, n - 2).next == Around(head, a, n - 1);
      assert Around(head, b, n - 2).next == Around(head, b, n - 1);
      assert a[..n] == a[..n - 1] + [a[n - 1]] && b[..n] == b[..n - 1] + [b[n - 1]];
    }
  }
}
