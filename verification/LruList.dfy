/** The doubly linked recency list of the cache, with the sequence it stands for. */
module LruList {
  import opened DecisionCache

  /** A list element: the key of one cache entry and its two neighbours. */
  class Element {
    const key: Key
    var prev: Element?
    var next: Element?

    constructor (key: Key)
      ensures this.key == key
    {
      this.key := key;
      prev, next := null, null;
    }
  }

  /** s without its element at i. */
  ghost function Without(s: seq<Element>, i: nat): seq<Element>
    requires i < |s|
  {
    s[..i] + s[i + 1..]
  }

  class List {
    var front: Element?
    var back: Element?
    var len: nat
    ghost var order: seq<Element>
    ghost var nodes: set<Element>

    ghost predicate Valid()
      reads this, nodes`prev, nodes`next
    {
      && len == |order|
      && (forall e :: e in order ==> e in nodes)
      && (forall i, j :: 0 <= i < j < |order| ==> order[i] != order[j])
      && (if order == [] then front == null && back == null
          else && front == order[0] && order[0].prev == null
               && back == order[|order| - 1] && order[|order| - 1].next == null)
      && (forall i {:trigger order[i].next} :: 0 <= i < |order| - 1 ==> order[i].next == order[i + 1])
      && (forall i {:trigger order[i].prev} :: 0 < i < |order| ==> order[i].prev == order[i - 1])
    }

    constructor ()
      ensures Valid() && order == [] && nodes == {}
    {
      front, back, len := null, null, 0;
      order, nodes := [], {};
    }

    method Init()
      modifies this
      ensures Valid() && order == [] && nodes == old(nodes)
    {
      front, back, len := null, null, 0;
      order := [];
    }

    method PushFront(e: Element)
      requires Valid() && e !in order
      modifies this, nodes`prev, e`prev, e`next
      ensures Valid() && order == [e] + old(order) && nodes == old(nodes) + {e}
    {
      e.prev := null;
      e.next := front;
      if front == null {
        back := e;
      } else {
        front.prev := e;
      }
      front := e;
      len := len + 1;
      order, nodes := [e] + order, nodes + {e};
    }

    method Remove(e: Element, ghost i: nat)
      requires Valid() && i < |order| && order[i] == e
      modifies this, nodes`prev, nodes`next
      ensures Valid() && order == Without(old(order), i) && nodes == old(nodes)
    {
      assert i > 0 ==> order[i - 1].next == e && e.prev == order[i - 1];
      assert i < |order| - 1 ==> e.next == order[i + 1] && order[i + 1].prev == e;
      if e.prev == null {
        front := e.next;
      } else {
        e.prev.next := e.next;
      }
      if e.next == null {
        back := e.prev;
      } else {
        e.next.prev := e.prev;
      }
      e.prev := null;
      e.next := null;
      len := len - 1;
      order := Without(order, i);
      assert forall j :: 0 <= j < |order| ==> order[j] == old(order)[if j < i then j else j + 1];
    }

    method MoveToFront(e: Element, ghost i: nat)
      requires Valid() && i < |order| && order[i] == e
      modifies this, nodes`prev, nodes`next
      ensures Valid() && order == [e] + Without(old(order), i) && nodes == old(nodes)
    {
      Remove(e, i);
      assert forall j :: 0 <= j < |order| ==> order[j] == old(order)[if j < i then j else j + 1];
      PushFront(e);
    }
  }
}
