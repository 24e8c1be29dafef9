/** The cache object, updated in place: a key map and a doubly linked recency list that hold the same keys. Each
    method is one critical section and refines the function of the same name on the recency-ordered sequence of
    entries; the loops are the ones the list walks and the evictions make. */
module CachedClient {
  import opened Wrappers
  import opened DecisionCache
  import opened CacheInvariant
  import opened KeyOrder
  import opened LruList
  import opened KeyedList

  class Client {
    const cfg: Config
    const rec: Recency
    var entries: map<Key, Entry>
    var allows: int
    var seqNo: nat
    var lastFlush: nat
    var floor: nat
    var watermark: nat
    var closed: bool
    ghost var listed: seq<Entry>

    /** The links are sound, the map and the list hold exactly the same keys, and listed is their entries in order. */
    ghost predicate Linked()
      reads this, rec, rec.list, rec.list.nodes`prev, rec.list.nodes`next
    {
      rec.Valid() && Agree(entries, rec.Keys()) && listed == Listed(entries, rec.Keys())
    }

    /** What the object stands for. */
    ghost function State(): Cache
      reads this
    {
      Cache(listed, allows, seqNo, lastFlush, floor, watermark, closed)
    }

    ghost predicate Valid()
      reads this, rec, rec.list, rec.list.nodes`prev, rec.list.nodes`next
    {
      cfg.Valid() && Linked() && Inv(cfg, State())
    }

    constructor (cfg: Config)
      requires cfg.Valid()
      ensures Valid() && State() == EMPTY && this.cfg == cfg && fresh(rec) && fresh(rec.list) && rec.list.nodes == {}
    {
      this.cfg := cfg;
      rec := new Recency();
      entries, listed := map[], [];
      allows, seqNo, lastFlush, floor, watermark, closed := 0, 0, 0, 0, 0, false;
    }

    method Len() returns (n: int)
      requires Valid()
      ensures n == CountLive(State().lru)
    {
      n := allows;
    }

    method Stamp(now: int) returns (stamp: nat, asked: int)
      requires Valid()
      ensures stamp == State().seqNo && asked == now
    {
      stamp, asked := seqNo, now;
    }

    // ----- the map and the list -----

    /** Sets the entry of a key that has one. */
    method Put(v: Entry)
      requires Linked() && v.key in entries
      modifies this`entries, this`listed
      ensures Linked() && listed == old(listed)[IndexOf(rec.Keys(), v.key) := v]
    {
      hide Recency.Valid;
      ListedPut(entries, rec.Keys(), entries[v.key := v], v);
      entries, listed := entries[v.key := v], listed[IndexOf(rec.Keys(), v.key) := v];
    }

    method MoveToFront(key: Key)
      requires Linked() && key in entries
      modifies this`listed, rec.list, rec.list.nodes`prev, rec.list.nodes`next
      ensures Linked() && rec.list.nodes == old(rec.list.nodes)
      ensures listed == Touch(old(listed), old(IndexOf(rec.Keys(), key)), entries[key])
    {
      hide LruList.List.Valid;
      ghost var before := rec.Keys();
      listed := Touch(listed, IndexOf(before, key), entries[key]);
      rec.Touch(key);
      ListedFront(entries, before, rec.Keys(), key);
    }

    method PushFront(v: Entry)
      requires Linked() && v.key !in entries
      modifies this`entries, this`listed, rec, rec.list, rec.list.nodes`prev, rec.list.nodes`next
      ensures Linked() && listed == [v] + old(listed)
      ensures fresh(rec.list.nodes - old(rec.list.nodes))
    {
      hide LruList.List.Valid;
      ghost var before, m := rec.Keys(), entries;
      entries, listed := entries[v.key := v], [v] + listed;
      rec.Push(v.key);
      ListedPush(m, before, entries, rec.Keys(), v);
    }

    method Size() returns (n: nat)
      requires Linked()
      ensures n == |listed|
    {
      n := rec.list.len;
    }

    /** The entry of the back element. */
    method Last() returns (e: Entry)
      requires Linked() && listed != []
      ensures e == listed[|listed| - 1]
    {
      assert KeysOf(rec.list.order)[|listed| - 1] == rec.list.back.key;
      e := entries[rec.list.back.key];
    }

    method DropLast()
      requires Linked() && listed != []
      modifies this`entries, this`listed, rec, rec.list, rec.list.nodes`prev, rec.list.nodes`next
      ensures Linked()
      ensures listed == old(listed)[..|old(listed)| - 1]
      ensures rec.list.nodes == old(rec.list.nodes)
    {
      hide LruList.List.Valid;
      ghost var before, m := rec.Keys(), entries;
      var key := rec.DropBack();
      entries, listed := entries - {key}, listed[..|listed| - 1];
      ListedDrop(m, before, entries, rec.Keys());
    }

    method Clear()
      modifies this`entries, this`listed, this`allows, rec, rec.list
      ensures Linked() && entries == map[] && rec.Keys() == [] && allows == 0 && rec.list.nodes == old(rec.list.nodes)
    {
      entries, listed, allows := map[], [], 0;
      rec.Clear();
    }

    /** Sets the entry of a key that has one and moves it to the front. */
    method PutFront(v: Entry)
      requires Linked() && v.key in entries
      modifies this`entries, this`listed, rec.list, rec.list.nodes`prev, rec.list.nodes`next
      ensures Linked() && listed == Placed(old(listed), v) && rec.list.nodes == old(rec.list.nodes)
    {
      hide Agree, Recency.Valid;
      ListedFind(entries, rec.Keys(), v.key);
      PlacedOver(listed, Find(listed, v.key).value, v);
      Put(v);
      MoveToFront(v.key);
    }

    /** Sets the entry of a key, new or not, and moves it to the front. */
    method Place(v: Entry)
      requires Linked()
      modifies this`entries, this`listed, rec, rec.list, rec.list.nodes`prev, rec.list.nodes`next
      ensures Linked() && listed == Placed(old(listed), v)
      ensures fresh(rec.list.nodes - old(rec.list.nodes))
    {
      hide Agree, Recency.Valid;
      if v.key in entries {
        PutFront(v);
      } else {
        ListedFind(entries, rec.Keys(), v.key);
        PushFront(v);
      }
    }

    // ----- reads -----

    /** The entry of a key dies, if it is live. */
    method Kill(key: Key)
      requires Linked() && key in entries
      modifies this`entries, this`listed, this`allows
      ensures Linked() && allows == old(allows) - Live(old(entries)[key])
      ensures listed == old(listed)[IndexOf(rec.Keys(), key) := old(entries)[key].Killed()]
    {
      hide Recency.Valid;
      var e := entries[key];
      if e.live {
        allows := allows - 1;
        Put(e.(live := false, decision := NO_DECISION));
      }
    }

    method Get(key: Key, now: int) returns (r: Option<Decision>)
      requires Valid()
      modifies this`entries, this`listed, this`allows, rec.list, rec.list.nodes`prev, rec.list.nodes`next
      ensures Valid() && (State(), r) == DecisionCache.Get(cfg, old(State()), key, now)
      ensures rec.list.nodes == old(rec.list.nodes)
    {
      hide Agree, Recency.Valid;
      GetInv(cfg, State(), key, now);
      ListedFind(entries, rec.Keys(), key);
      if key !in entries || closed { return None; }
      var e := entries[key];
      if !e.live { return None; }
      if !Fresh(cfg, watermark, e.asked, e.decision, now) {
        Kill(key);
        return None;
      }
      MoveToFront(key);
      return Some(e.decision);
    }

    // ----- invalidations -----

    method InvalidateAll() returns (ok: bool)
      requires Valid()
      modifies this, rec, rec.list
      ensures Valid() && State() == Flush(old(State())) && ok == !old(closed)
      ensures rec.list.nodes == old(rec.list.nodes)
    {
      hide Agree, Recency.Valid;
      if closed { return false; }
      seqNo := seqNo + 1;
      lastFlush := seqNo;
      Clear();
      return true;
    }

    method Close()
      requires Valid()
      modifies this, rec, rec.list
      ensures Valid() && State() == Shut(old(State())) && rec.list.nodes == old(rec.list.nodes)
    {
      hide Agree, Recency.Valid;
      closed := true;
      Clear();
    }

    // ----- the size bound -----

    method Discount(e: Entry)
      modifies this`allows, this`floor
      ensures allows == old(allows) - Live(e) && floor == Max(old(floor), e.guard)
    {
      if e.live { allows := allows - 1; }
      if e.guard > floor { floor := e.guard; }
    }

    /** The least recently used entry leaves; its guard survives in the floor. */
    method Evict()
      requires Linked() && listed != []
      modifies this`entries, this`listed, this`allows, this`floor, rec, rec.list, rec.list.nodes`prev, rec.list.nodes`next
      ensures Linked() && State() == Evicted(old(State()))
      ensures rec.list.nodes == old(rec.list.nodes)
    {
      hide Agree, Recency.Valid;
      var e := Last();
      Discount(e);
      DropLast();
    }

    /** Drops entries from the back until the size bound holds. */
    method Bound()
      requires Linked()
      modifies this`entries, this`listed, this`allows, this`floor, rec, rec.list, rec.list.nodes`prev, rec.list.nodes`next
      ensures Linked() && State() == DecisionCache.Bound(old(State()), cfg.maxEntries)
      ensures rec.list.nodes == old(rec.list.nodes)
    {
      hide Agree, Recency.Valid;
      var n := Size();
      while n > cfg.maxEntries
        invariant Linked() && rec.list.nodes == old(rec.list.nodes) && n == |listed|
        invariant DecisionCache.Bound(State(), cfg.maxEntries) == DecisionCache.Bound(old(State()), cfg.maxEntries)
        decreases n
      {
        BoundStep();
        n := Size();
      }
    }

    method BoundStep()
      requires Linked() && |listed| > cfg.maxEntries
      modifies this`entries, this`listed, this`allows, this`floor, rec, rec.list, rec.list.nodes`prev, rec.list.nodes`next
      ensures Linked() && |listed| < |old(listed)|
      ensures DecisionCache.Bound(State(), cfg.maxEntries) == DecisionCache.Bound(old(State()), cfg.maxEntries)
      ensures rec.list.nodes == old(rec.list.nodes)
    {
      hide Agree, Recency.Valid;
      ghost var c := State();
      Evict();
      assert DecisionCache.Bound(c, cfg.maxEntries) == DecisionCache.Bound(Evicted(c), cfg.maxEntries);
    }

    // ----- the watermark -----

    method KillIfBelow(key: Key, ghost i: nat, revision: nat)
      requires Linked() && i < |rec.Keys()| && rec.Keys()[i] == key && allows == CountLive(listed)
      modifies this`entries, this`listed, this`allows
      ensures Linked() && allows == CountLive(listed)
      ensures var t := old(listed); listed == t[i := KilledBelow(t[i], revision)]
    {
      hide Recency.Valid;
      assert key in rec.Keys() && IndexOf(rec.Keys(), key) == i;
      var e := entries[key];
      if e.live && e.decision.Revision() < revision {
        CountUpdate(listed, i, e.Killed());
        Kill(key);
      }
    }

    /** Kills every live entry below a revision, following the links from the front. */
    method KillBelow(revision: nat)
      requires Linked() && allows == CountLive(listed)
      modifies this`entries, this`listed, this`allows
      ensures Linked() && listed == DecisionCache.KillBelow(old(listed), revision)
      ensures allows == CountLive(listed)
    {
      hide Agree, Indexed;
      var el := rec.list.front;
      ghost var i := 0;
      ghost var before := listed;
      while el != null
        invariant 0 <= i <= |rec.list.order| && Linked()
        invariant el == if i < |rec.list.order| then rec.list.order[i] else null
        invariant Walked(before, i, revision, listed)
        invariant allows == CountLive(listed)
        decreases |rec.list.order| - i
      {
        ghost var t := listed;
        KillIfBelow(el.key, i, revision);
        WalkedOneMore(before, i, revision, t, listed);
        el := el.next;
        i := i + 1;
      }
    }

    method Raise(revision: nat)
      requires Valid()
      modifies this`entries, this`listed, this`allows, this`watermark
      ensures Valid() && State() == DecisionCache.Raise(old(State()), revision)
    {
      hide Agree, Recency.Valid;
      RaiseInv(cfg, State(), revision);
      if revision > watermark {
        watermark := revision;
        KillBelow(revision);
      }
    }

    // ----- answers -----

    /** Records an answer to a miss taken at stamp. A local deny is not a verdict and changes nothing. */
    method Observe(key: Key, d: Decision, stamp: nat, asked: int, now: int)
      requires Valid()
      modifies this, rec, rec.list, rec.list.nodes`prev, rec.list.nodes`next
      ensures Valid() && State() == DecisionCache.Observe(cfg, old(State()), key, d, stamp, asked, now)
      ensures fresh(rec.list.nodes - old(rec.list.nodes))
    {
      hide Agree, Recency.Valid;
      ObserveInv(cfg, State(), key, d, stamp, asked, now);
      if d.Local? || closed { return; }
      Raise(d.Revision());
      if !d.Storable() {
        Refuse(key);
      } else {
        Insert(key, d, stamp, asked, now);
      }
    }

    /** The entry of a key, or one not yet used. */
    method EntryOf(key: Key) returns (e: Entry)
      requires Linked()
      ensures e == EntryFor(State().lru, key) && e.key == key
    {
      ListedFind(entries, rec.Keys(), key);
      e := if key in entries then entries[key] else Unused(key);
    }

    method Refuse(key: Key)
      requires Linked()
      modifies this, rec, rec.list, rec.list.nodes`prev, rec.list.nodes`next
      ensures Linked() && State() == Bury(cfg, old(State()), key)
      ensures fresh(rec.list.nodes - old(rec.list.nodes))
    {
      hide Agree, Recency.Valid;
      PlaceTomb(key);
      Bound();
    }

    method PlaceTomb(key: Key)
      requires Linked()
      modifies this`entries, this`listed, this`seqNo, this`allows, rec, rec.list, rec.list.nodes`prev, rec.list.nodes`next
      ensures Linked() && State() == Buried(old(State()), key)
      ensures fresh(rec.list.nodes - old(rec.list.nodes))
    {
      hide Agree, Recency.Valid;
      var e := EntryOf(key);
      Replace(e, Tomb(e, seqNo + 1));
    }

    /** Puts v in the place of e under a new sequence number; v is not live. */
    method Replace(e: Entry, v: Entry)
      requires Linked()
      modifies this`entries, this`listed, this`seqNo, this`allows, rec, rec.list, rec.list.nodes`prev, rec.list.nodes`next
      ensures Linked()
      ensures var c := old(State()); State() == c.(seqNo := c.seqNo + 1, lru := Placed(c.lru, v), allows := c.allows - Live(e))
      ensures fresh(rec.list.nodes - old(rec.list.nodes))
    {
      hide Agree, Recency.Valid;
      seqNo := seqNo + 1;
      if e.live { allows := allows - 1; }
      Place(v);
    }

    /** Keeps an allow unless a newer refusal, flush or eviction stands against its stamp or it is not fresh. */
    method Insert(key: Key, d: Decision, stamp: nat, asked: int, now: int)
      requires Linked()
      modifies this, rec, rec.list, rec.list.nodes`prev, rec.list.nodes`next
      ensures Linked()
      ensures var c := old(State());
              State() == if Admits(cfg, c, key, d, stamp, asked, now) then Store(cfg, c, key, d, asked) else c
      ensures fresh(rec.list.nodes - old(rec.list.nodes))
    {
      hide Agree, Recency.Valid;
      var e := EntryOf(key);
      if stamp < lastFlush || stamp < floor || stamp < e.guard { return; }
      if !Fresh(cfg, watermark, asked, d, now) { return; }
      Accept(key, d, asked);
    }

    method Accept(key: Key, d: Decision, asked: int)
      requires Linked()
      modifies this`entries, this`listed, this`allows, this`floor, rec, rec.list, rec.list.nodes`prev, rec.list.nodes`next
      ensures Linked() && State() == Store(cfg, old(State()), key, d, asked)
      ensures fresh(rec.list.nodes - old(rec.list.nodes))
    {
      hide Agree, Recency.Valid;
      var e := EntryOf(key);
      if !e.live { allows := allows + 1; }
      Place(Entry(key, true, d, asked, e.guard));
      assert State() == Stored(old(State()), key, d, asked);
      Bound();
    }
  }
}
