/** The inductive invariant of the decision cache, kept by every critical section. */
module CacheInvariant {
  import opened Wrappers
  import opened DecisionCache

  /** What one entry promises: its guard is a past sequence number, and a live entry is a reusable allow
      read under exactly the watermark revision. */
  predicate EntryOk(e: Entry, seqNo: nat, watermark: nat) {
    && e.guard <= seqNo
    && (e.live ==> e.decision.Storable() && e.decision.Revision() == watermark)
  }

  predicate Inv(cfg: Config, c: Cache) {
    && DistinctKeys(c.lru)
    && |c.lru| <= cfg.maxEntries
    && c.allows == CountLive(c.lru)
    && c.floor <= c.seqNo
    && c.lastFlush <= c.seqNo
    && (forall e :: e in c.lru ==> EntryOk(e, c.seqNo, c.watermark))
    && (c.closed ==> c.lru == [])
  }

  // ----- counting and keys -----

  lemma {:induction false} CountConcat(a: seq<Entry>, b: seq<Entry>)
    ensures CountLive(a + b) == CountLive(a) + CountLive(b)
  {
    if a == [] {
      assert a + b == b;
    } else {
      assert (a + b)[0] == a[0];
      assert (a + b)[1..] == a[1..] + b;
      CountConcat(a[1..], b);
    }
  }

  lemma CountSplit(s: seq<Entry>, i: nat)
    requires i < |s|
    ensures CountLive(s) == CountLive(s[..i]) + Live(s[i]) + CountLive(s[i + 1..])
  {
    CountConcat(s[..i], s[i..]);
    assert s == s[..i] + s[i..];
    assert s[i..][0] == s[i];
    assert s[i..][1..] == s[i + 1..];
  }

  lemma CountTouch(s: seq<Entry>, i: nat, e: Entry)
    requires i < |s|
    ensures CountLive(Touch(s, i, e)) == CountLive(s) - Live(s[i]) + Live(e)
  {
    CountSplit(s, i);
    CountConcat([e] + s[..i], s[i + 1..]);
    CountConcat([e], s[..i]);
  }

  lemma CountUpdate(s: seq<Entry>, i: nat, e: Entry)
    requires i < |s|
    ensures CountLive(s[i := e]) == CountLive(s) - Live(s[i]) + Live(e)
  {
    CountSplit(s, i);
    CountSplit(s[i := e], i);
    assert s[i := e][..i] == s[..i];
    assert s[i := e][i + 1..] == s[i + 1..];
  }

  lemma TouchElements(s: seq<Entry>, i: nat, e: Entry)
    requires i < |s|
    requires DistinctKeys(s)
    requires e.key == s[i].key
    ensures DistinctKeys(Touch(s, i, e))
    ensures forall x :: x in Touch(s, i, e) <==> x == e || (x in s && x.key != e.key)
    ensures |Touch(s, i, e)| == |s|
  {
    var t := Touch(s, i, e);
    assert forall j :: 0 <= j < |t| ==> t[j] == if j == 0 then e else if j <= i then s[j - 1] else s[j];
    forall x | x in s && x.key != e.key ensures x in t {
      var j :| 0 <= j < |s| && s[j] == x;
      assert x == t[if j < i then j + 1 else j];
    }
  }

  /** Placing an entry replaces the one of its key, if any, and keeps every other. */
  lemma PlacedElements(s: seq<Entry>, e: Entry)
    requires DistinctKeys(s)
    ensures var t := Placed(s, e);
            && DistinctKeys(t)
            && CountLive(t) == CountLive(s) - Live(EntryFor(s, e.key)) + Live(e)
            && (forall x :: x in t <==> x == e || (x in s && x.key != e.key))
  {
    var at := Find(s, e.key);
    if at.None? {
      CountConcat([e], s);
      var t := [e] + s;
      assert forall j :: 0 <= j < |t| ==> t[j] == if j == 0 then e else s[j - 1];
      assert forall x :: x in s ==> x.key != e.key;
    } else {
      CountTouch(s, at.value, e);
      TouchElements(s, at.value, e);
    }
  }

  lemma OneEntryPerKey(s: seq<Entry>, x: Entry)
    requires DistinctKeys(s) && x in s
    ensures EntryFor(s, x.key) == x
  {
    var j :| 0 <= j < |s| && s[j] == x;
    assert Holds(s, x.key);
  }

  // ----- the size bound -----

  function Kept(c: Cache, maxEntries: nat): (n: nat)
    ensures n <= |c.lru| && n <= maxEntries
  {
    if |c.lru| <= maxEntries then |c.lru| else maxEntries
  }

  /** One eviction of Bound. */
  function Evicted(c: Cache): Cache
    requires c.lru != []
  {
    var last := c.lru[|c.lru| - 1];
    c.(lru := c.lru[..|c.lru| - 1], allows := c.allows - Live(last), floor := Max(c.floor, last.guard))
  }

  /** Bound keeps the most recent entries and changes only the list, the count and the floor. */
  lemma {:induction false} BoundShape(c: Cache, maxEntries: nat)
    ensures var n := Kept(c, maxEntries);
            var r := Bound(c, maxEntries);
            r == c.(lru := c.lru[..n], allows := c.allows - CountLive(c.lru[n..]), floor := r.floor)
    decreases |c.lru|
  {
    if |c.lru| > maxEntries {
      var m := |c.lru| - 1;
      BoundShape(Evicted(c), maxEntries);
      assert c.lru[..m][..maxEntries] == c.lru[..maxEntries];
      assert c.lru[maxEntries..] == c.lru[..m][maxEntries..] + [c.lru[m]];
      CountConcat(c.lru[..m][maxEntries..], [c.lru[m]]);
    }
  }

  /** Every dropped guard is at most the new floor, and the floor stays or is the guard of a dropped entry. */
  lemma {:induction false} BoundFloor(c: Cache, maxEntries: nat, top: nat)
    requires c.floor <= top && forall e :: e in c.lru ==> e.guard <= top
    ensures c.floor <= Bound(c, maxEntries).floor <= top
    ensures forall e :: e in c.lru[Kept(c, maxEntries)..] ==> e.guard <= Bound(c, maxEntries).floor
    ensures Bound(c, maxEntries).floor == c.floor || exists e :: e in c.lru[Kept(c, maxEntries)..] && e.guard == Bound(c, maxEntries).floor
    decreases |c.lru|
  {
    if |c.lru| > maxEntries {
      var m := |c.lru| - 1;
      assert c.lru[m] in c.lru;
      BoundFloor(Evicted(c), maxEntries, top);
      assert c.lru[maxEntries..] == c.lru[..m][maxEntries..] + [c.lru[m]];
    }
  }

  /** All of the invariant but the size bound. */
  predicate Unbounded(c: Cache) {
    && DistinctKeys(c.lru)
    && c.allows == CountLive(c.lru)
    && c.floor <= c.seqNo
    && c.lastFlush <= c.seqNo
    && (forall e :: e in c.lru ==> EntryOk(e, c.seqNo, c.watermark))
    && (c.closed ==> c.lru == [])
  }

  lemma BoundInv(cfg: Config, c: Cache)
    requires Unbounded(c)
    ensures Inv(cfg, Bound(c, cfg.maxEntries))
  {
    var n := Kept(c, cfg.maxEntries);
    var r := Bound(c, cfg.maxEntries);
    assert r.lru == c.lru[..n] && r.allows == CountLive(c.lru[..n]) && r == c.(lru := r.lru, allows := r.allows, floor := r.floor) by {
      BoundShape(c, cfg.maxEntries);
      CountConcat(c.lru[..n], c.lru[n..]);
      assert c.lru == c.lru[..n] + c.lru[n..];
    }
    assert r.floor <= c.seqNo by {
      forall e | e in c.lru ensures e.guard <= c.seqNo { assert EntryOk(e, c.seqNo, c.watermark); }
      BoundFloor(c, cfg.maxEntries, c.seqNo);
    }
    forall e | e in r.lru ensures EntryOk(e, c.seqNo, c.watermark) { assert e in c.lru; }
  }

  // ----- each critical section keeps the invariant -----

  lemma GetInv(cfg: Config, c: Cache, key: Key, now: int)
    requires Inv(cfg, c)
    ensures Inv(cfg, Get(cfg, c, key, now).0)
  {
    var at := Find(c.lru, key);
    if at.Some? && !c.closed && c.lru[at.value].live {
      var e := c.lru[at.value];
      if Fresh(cfg, c.watermark, e.asked, e.decision, now) {
        CountTouch(c.lru, at.value, e);
        TouchElements(c.lru, at.value, e);
      } else {
        CountUpdate(c.lru, at.value, e.Killed());
        var t := c.lru[at.value := e.Killed()];
        forall x | x in t ensures EntryOk(x, c.seqNo, c.watermark) {
          if x != e.Killed() {
            assert x in c.lru;
          } else {
            assert e in c.lru;
          }
        }
      }
    }
  }

  /** Raising the watermark keeps the invariant and leaves a live entry only if nothing rose. */
  lemma RaiseInv(cfg: Config, c: Cache, revision: nat)
    requires Inv(cfg, c)
    ensures Inv(cfg, Raise(c, revision))
    ensures Raise(c, revision).watermark == Max(c.watermark, revision)
    ensures c.watermark < revision ==> CountLive(Raise(c, revision).lru) == 0
    ensures forall key :: Holds(Raise(c, revision).lru, key) <==> Holds(c.lru, key)
  {
    var r := Raise(c, revision);
    if c.watermark < revision {
      var t := KillBelow(c.lru, revision);
      forall i | 0 <= i < |t| ensures !t[i].live && t[i].key == c.lru[i].key && t[i].guard == c.lru[i].guard {
        assert c.lru[i] in c.lru;
        assert EntryOk(c.lru[i], c.seqNo, c.watermark);
      }
      AllDead(t);
      forall e | e in t ensures EntryOk(e, c.seqNo, revision) {
        var i :| 0 <= i < |t| && t[i] == e;
        assert c.lru[i] in c.lru;
      }
      forall key | Holds(c.lru, key) ensures Holds(t, key) {
        var i :| 0 <= i < |c.lru| && c.lru[i].key == key;
        assert t[i].key == key;
      }
    }
  }

  lemma {:induction false} AllDead(s: seq<Entry>)
    requires forall i :: 0 <= i < |s| ==> !s[i].live
    ensures CountLive(s) == 0
  {
    if s != [] { AllDead(s[1..]); }
  }

  lemma EntryForOk(cfg: Config, c: Cache, key: Key)
    requires Inv(cfg, c)
    ensures EntryOk(EntryFor(c.lru, key), c.seqNo, c.watermark)
  {
    if Find(c.lru, key).Some? { assert EntryFor(c.lru, key) in c.lru; }
  }

  lemma BuriedInv(cfg: Config, c: Cache, key: Key)
    requires Inv(cfg, c) && !c.closed
    ensures Unbounded(Buried(c, key))
  {
    EntryForOk(cfg, c, key);
    PlacedElements(c.lru, Tomb(EntryFor(c.lru, key), c.seqNo + 1));
  }

  lemma StoredInv(cfg: Config, c: Cache, key: Key, d: Decision, asked: int)
    requires Inv(cfg, c) && !c.closed
    requires d.Storable() && d.Revision() == c.watermark
    ensures Unbounded(Stored(c, key, d, asked))
  {
    EntryForOk(cfg, c, key);
    PlacedElements(c.lru, Entry(key, true, d, asked, EntryFor(c.lru, key).guard));
  }

  lemma ObserveInv(cfg: Config, c: Cache, key: Key, d: Decision, stamp: nat, asked: int, now: int)
    requires Inv(cfg, c)
    ensures Inv(cfg, Observe(cfg, c, key, d, stamp, asked, now))
  {
    if d.Verdict? && !c.closed {
      RaiseInv(cfg, c, d.Revision());
      var c1 := Raise(c, d.Revision());
      if !d.Storable() {
        BuriedInv(cfg, c1, key);
        BoundInv(cfg, Buried(c1, key));
      } else if Admits(cfg, c1, key, d, stamp, asked, now) {
        StoredInv(cfg, c1, key, d, asked);
        BoundInv(cfg, Stored(c1, key, d, asked));
      }
    }
  }
}
