/** The linked list under the key map: each update the cache makes to its recency list, done on links, is the
    update of the sequence of keys that the cache object keeps. */
module KeyedList {
  import opened DecisionCache
  import opened LruList
  import opened KeyOrder

  ghost function KeysOf(order: seq<Element>): seq<Key> { seq(|order|, i requires 0 <= i < |order| => order[i].key) }

  /** The map leads from exactly the keys of the elements to the elements. */
  ghost predicate Indexed(index: map<Key, Element>, order: seq<Element>) {
    && (forall i :: 0 <= i < |order| ==> order[i].key in index && index[order[i].key] == order[i])
    && (forall key :: key in index <==> key in KeysOf(order))
  }

  predicate Distinct(order: seq<Element>) { forall i, j :: 0 <= i < j < |order| ==> order[i] != order[j] }

  /** Where the element of a key stands. */
  lemma Position(index: map<Key, Element>, order: seq<Element>, key: Key) returns (i: nat)
    requires Indexed(index, order) && Distinct(order) && key in index
    ensures i < |order| && order[i] == index[key] && order[i].key == key && IndexOf(KeysOf(order), key) == i
  {
    i := IndexOf(KeysOf(order), key);
    assert KeysOf(order)[i] == order[i].key;
  }

  lemma MovedAt(order: seq<Element>, i: nat, j: nat)
    requires i < |order| && j < |order|
    ensures var moved := [order[i]] + Without(order, i);
            |moved| == |order| && moved[j] == if j == 0 then order[i] else if j <= i then order[j - 1] else order[j]
  {
  }

  lemma KeysFront(order: seq<Element>, i: nat, moved: seq<Element>)
    requires i < |order| && order[i].key in KeysOf(order) && IndexOf(KeysOf(order), order[i].key) == i && moved == [order[i]] + Without(order, i)
    ensures KeysOf(moved) == Front(KeysOf(order), order[i].key)
  {
    var keys, key := KeysOf(order), order[i].key;
    forall j | 0 <= j < |order| ensures KeysOf(moved)[j] == Front(keys, key)[j] {
      FrontAt(keys, key, j);
      MovedAt(order, i, j);
    }
  }

  lemma MovedIndexed(index: map<Key, Element>, order: seq<Element>, i: nat, moved: seq<Element>)
    requires Indexed(index, order) && i < |order| && moved == [order[i]] + Without(order, i)
    ensures Indexed(index, moved)
  {
    forall j | 0 <= j < |moved| ensures moved[j].key in index && index[moved[j].key] == moved[j] { MovedAt(order, i, j); }
    forall key ensures key in KeysOf(order) <==> key in KeysOf(moved) {
      if key in KeysOf(order) {
        var j :| 0 <= j < |order| && KeysOf(order)[j] == key;
        var m := if j < i then j + 1 else if j == i then 0 else j;
        MovedAt(order, i, m);
        assert KeysOf(moved)[m] == key;
      }
      if key in KeysOf(moved) {
        var j :| 0 <= j < |moved| && KeysOf(moved)[j] == key;
        MovedAt(order, i, j);
        assert KeysOf(order)[if j == 0 then i else if j <= i then j - 1 else j] == key;
      }
    }
  }

  lemma Pushed(index: map<Key, Element>, order: seq<Element>, e: Element, m: map<Key, Element>, more: seq<Element>)
    requires Indexed(index, order) && e.key !in index && m == index[e.key := e] && more == [e] + order
    ensures e !in order && Indexed(m, more) && KeysOf(more) == [e.key] + KeysOf(order)
  {
    assert KeysOf(more) == [e.key] + KeysOf(order);
    assert forall i :: 0 < i < |more| ==> more[i] == order[i - 1];
  }

  lemma Dropped(index: map<Key, Element>, order: seq<Element>, m: map<Key, Element>, less: seq<Element>)
    requires Indexed(index, order) && Distinct(order) && order != []
    requires less == order[..|order| - 1] && m == index - {order[|order| - 1].key}
    ensures Without(order, |order| - 1) == less && Indexed(m, less)
    ensures KeysOf(less) == KeysOf(order)[..|less|] && KeysOf(order)[|less|] == order[|less|].key
  {
    var n := |order| - 1;
    assert KeysOf(order) == KeysOf(less) + [order[n].key];
    forall i | 0 <= i < n ensures order[i].key != order[n].key { assert index[order[i].key] != index[order[n].key]; }
  }

  class Recency {
    const list: List
    var index: map<Key, Element>

    ghost predicate Valid()
      reads this, list, list.nodes`prev, list.nodes`next
    {
      list.Valid() && Indexed(index, list.order)
    }

    ghost function Keys(): seq<Key>
      reads this, list
    {
      KeysOf(list.order)
    }

    constructor ()
      ensures Valid() && Keys() == [] && index == map[] && fresh(list) && list.nodes == {}
    {
      list := new List();
      index := map[];
    }

    method Touch(key: Key)
      requires Valid() && key in index
      modifies list, list.nodes`prev, list.nodes`next
      ensures Valid() && key in old(Keys()) && Keys() == Front(old(Keys()), key) && list.nodes == old(list.nodes)
    {
      ghost var i := Position(index, list.order, key);
      ghost var moved := [list.order[i]] + Without(list.order, i);
      KeysFront(list.order, i, moved);
      MovedIndexed(index, list.order, i, moved);
      list.MoveToFront(index[key], i);
    }

    method Push(key: Key)
      requires Valid() && key !in index
      modifies this, list, list.nodes`prev
      ensures Valid() && Keys() == [key] + old(Keys()) && index.Keys == old(index).Keys + {key}
      ensures fresh(list.nodes - old(list.nodes))
    {
      var e := new Element(key);
      Link(e);
    }

    method Link(e: Element)
      requires Valid() && e.key !in index
      modifies this, list, list.nodes`prev, e`prev, e`next
      ensures Valid() && Keys() == [e.key] + old(Keys()) && index == old(index)[e.key := e]
      ensures list.nodes == old(list.nodes) + {e}
    {
      Pushed(index, list.order, e, index[e.key := e], [e] + list.order);
      index := index[e.key := e];
      list.PushFront(e);
    }

    method DropBack() returns (key: Key)
      requires Valid() && Keys() != []
      modifies this, list, list.nodes`prev, list.nodes`next
      ensures Valid() && Keys() == old(Keys())[..|old(Keys())| - 1] && list.nodes == old(list.nodes)
      ensures key == old(Keys())[|old(Keys())| - 1] && index == old(index) - {key}
    {
      var e := list.back;
      ghost var n := list.len - 1;
      key := e.key;
      Dropped(index, list.order, index - {key}, list.order[..n]);
      index := index - {key};
      list.Remove(e, n);
    }

    method Clear()
      modifies this, list
      ensures Valid() && Keys() == [] && index == map[] && list.nodes == old(list.nodes)
    {
      list.Init();
      index := map[];
    }
  }
}
