/** A key map and the order of its keys: what each update of the two does to the sequence of entries. */
module KeyOrder {
  import opened Wrappers
  import opened DecisionCache

  /** The map and the list hold exactly the same keys, each once. */
  ghost predicate Agree(entries: map<Key, Entry>, lru: seq<Key>) {
    && (forall i, j :: 0 <= i < j < |lru| ==> lru[i] != lru[j])
    && (forall k :: k in lru <==> k in entries)
    && (forall k :: k in entries ==> entries[k].key == k)
  }

  /** The entries in list order. */
  ghost function Listed(entries: map<Key, Entry>, lru: seq<Key>): (r: seq<Entry>)
    requires Agree(entries, lru)
    ensures |r| == |lru| && forall i :: 0 <= i < |lru| ==> lru[i] in entries && r[i] == entries[lru[i]]
  {
    assert forall i :: 0 <= i < |lru| ==> lru[i] in lru;
    seq(|lru|, i requires 0 <= i < |lru| && lru[i] in entries => entries[lru[i]])
  }

  function IndexOf(lru: seq<Key>, key: Key): (i: nat)
    requires key in lru
    ensures i < |lru| && lru[i] == key
  {
    if lru[0] == key then 0 else 1 + IndexOf(lru[1..], key)
  }

  /** The list with a key moved to the front. */
  function Front(lru: seq<Key>, key: Key): seq<Key>
    requires key in lru
  {
    var i := IndexOf(lru, key);
    [key] + lru[..i] + lru[i + 1..]
  }

  // ----- what each update of the two does to the sequence -----

  lemma ListedFind(entries: map<Key, Entry>, lru: seq<Key>, key: Key)
    requires Agree(entries, lru)
    ensures DistinctKeys(Listed(entries, lru))
    ensures Find(Listed(entries, lru), key) == if key in entries then Some(IndexOf(lru, key)) else None
    ensures EntryFor(Listed(entries, lru), key) == if key in entries then entries[key] else Unused(key)
  {
    var s := Listed(entries, lru);
    if key in entries {
      var i := IndexOf(lru, key);
      assert s[i].key == key;
      assert Holds(s, key);
    } else {
      assert forall i :: 0 <= i < |s| ==> s[i].key in entries;
    }
  }

  lemma ListedPut(entries: map<Key, Entry>, lru: seq<Key>, m: map<Key, Entry>, v: Entry)
    requires Agree(entries, lru) && v.key in entries && m == entries[v.key := v]
    ensures Agree(m, lru) && Listed(m, lru) == Listed(entries, lru)[IndexOf(lru, v.key) := v]
  {
  }

  lemma FrontAt(lru: seq<Key>, key: Key, j: nat)
    requires key in lru && j < |lru|
    ensures |Front(lru, key)| == |lru|
    ensures Front(lru, key)[j] == if j == 0 then key else if j <= IndexOf(lru, key) then lru[j - 1] else lru[j]
  {
  }

  lemma TouchAt(s: seq<Entry>, i: nat, e: Entry, j: nat)
    requires i < |s| && j < |s|
    ensures |Touch(s, i, e)| == |s|
    ensures Touch(s, i, e)[j] == if j == 0 then e else if j <= i then s[j - 1] else s[j]
  {
  }

  lemma FrontKeys(lru: seq<Key>, key: Key)
    requires key in lru && forall i, j :: 0 <= i < j < |lru| ==> lru[i] != lru[j]
    ensures forall i, j :: 0 <= i < j < |lru| ==> Front(lru, key)[i] != Front(lru, key)[j]
    ensures forall k :: k in Front(lru, key) <==> k in lru
  {
    var i := IndexOf(lru, key);
    assert lru == lru[..i] + [key] + lru[i + 1..];
  }

  lemma ListedFront(entries: map<Key, Entry>, lru: seq<Key>, after: seq<Key>, key: Key)
    requires Agree(entries, lru) && key in entries && after == Front(lru, key)
    ensures Agree(entries, after)
    ensures Listed(entries, after) == Touch(Listed(entries, lru), IndexOf(lru, key), entries[key])
  {
    FrontKeys(lru, key);
    var i, s := IndexOf(lru, key), Listed(entries, lru);
    FrontAt(lru, key, i);
    forall j | 0 <= j < |after| ensures Listed(entries, after)[j] == Touch(s, i, entries[key])[j] {
      FrontAt(lru, key, j);
      TouchAt(s, i, entries[key], j);
    }
  }

  lemma ListedPush(entries: map<Key, Entry>, lru: seq<Key>, m: map<Key, Entry>, after: seq<Key>, v: Entry)
    requires Agree(entries, lru) && v.key !in entries && m == entries[v.key := v] && after == [v.key] + lru
    ensures Agree(m, after) && Listed(m, after) == [v] + Listed(entries, lru)
  {
  }

  /** Setting an entry and moving it to the front is Placed on the sequence. */
  lemma PlacedOver(s: seq<Entry>, i: nat, v: Entry)
    requires i < |s| && Find(s, v.key) == Some(i)
    ensures Touch(s[i := v], i, v) == Placed(s, v)
  {
    assert s[i := v][..i] == s[..i] && s[i := v][i + 1..] == s[i + 1..];
  }

  lemma ListedDrop(entries: map<Key, Entry>, lru: seq<Key>, m: map<Key, Entry>, after: seq<Key>)
    requires Agree(entries, lru) && lru != [] && after == lru[..|lru| - 1] && m == entries - {lru[|lru| - 1]}
    ensures Agree(m, after) && Listed(m, after) == Listed(entries, lru)[..|after|]
  {
    assert lru == after + [lru[|lru| - 1]];
  }

  // ----- a walk along the list -----

  /** A walk that kills below a revision, having passed the first i entries. */
  ghost predicate Walked(s: seq<Entry>, i: nat, revision: nat, t: seq<Entry>) {
    && |t| == |s| && i <= |s|
    && (forall j :: 0 <= j < i ==> t[j] == KilledBelow(s[j], revision))
    && (forall j :: i <= j < |s| ==> t[j] == s[j])
  }

  lemma WalkedOneMore(s: seq<Entry>, i: nat, revision: nat, t: seq<Entry>, u: seq<Entry>)
    requires Walked(s, i, revision, t) && i < |s|
    requires u == t[i := KilledBelow(s[i], revision)]
    ensures Walked(s, i + 1, revision, u)
  {
  }
}
