/** What the recency order is for: exactly when the next read of a key gets the allow that was stored or served. */
module CacheRecency {
  import opened Wrappers
  import opened DecisionCache
  import opened CacheInvariant
  import opened CacheRuns

  function Keys(s: seq<Entry>): (ks: seq<Key>)
    ensures |ks| == |s| && forall i :: 0 <= i < |s| ==> ks[i] == s[i].key
  {
    seq(|s|, i requires 0 <= i < |s| => s[i].key)
  }

  /** The key that event k moves to the front: of a recorded refusal, of a stored allow, of a served read. */
  function Moved(cfg: Config, states: seq<Cache>, events: seq<Event>, k: nat): Option<Key>
    requires IsRun(cfg, states, events) && k < |events|
  {
    match events[k]
    case Answer(ask, key, d, now) =>
      if Records(states, events, k) && (d.Storable() ==> Admits(cfg, Raise(states[k], d.Revision()), key, d, states[ask].seqNo, events[ask].now, now))
      then Some(key) else None
    case Read(key, now) => if Get(cfg, states[k], key, now).1.Some? then Some(key) else None
    case _ => None
  }

  /** The keys moved to the front at or after event i and before event n. */
  function MovedKeys(cfg: Config, states: seq<Cache>, events: seq<Event>, i: nat, n: nat): set<Key>
    requires IsRun(cfg, states, events) && n <= |events|
    decreases n
  {
    if n <= i then {}
    else
      var key := Moved(cfg, states, events, n - 1);
      MovedKeys(cfg, states, events, i, n - 1) + if key.Some? then {key.value} else {}
  }

  predicate Clears(ev: Event) { ev.Invalidation? || ev.Closing? }

  /** Event k reads key or records a verdict for it. */
  predicate About(states: seq<Cache>, events: seq<Event>, k: nat, key: Key)
    requires k < |events| && k < |states|
  {
    (events[k].Read? && events[k].key == key) || (Records(states, events, k) && events[k].key == key)
  }

  predicate Silent(states: seq<Cache>, events: seq<Event>, i: nat, n: nat, key: Key)
    requires n <= |events| && n <= |states|
  {
    forall k :: i <= k < n ==> !About(states, events, k, key)
  }

  // ----- one step of the order -----

  /** The list of keys with q put in front: q was at i, or nowhere when i is the length. */
  function Fronted(ks: seq<Key>, q: Key, i: nat): (t: seq<Key>)
    requires i <= |ks|
    ensures |t| == if i < |ks| then |ks| else |ks| + 1
    ensures t[0] == q && forall j :: 1 <= j < |t| ==> t[j] == if j <= i then ks[j - 1] else ks[j]
  {
    [q] + ks[..i] + if i < |ks| then ks[i + 1..] else []
  }

  function Cut(ks: seq<Key>, bound: nat): seq<Key> { if |ks| <= bound then ks else ks[..bound] }

  function PlaceOf(s: seq<Entry>, key: Key): (i: nat)
    ensures i <= |s| && (i < |s| ==> s[i].key == key) && (i == |s| ==> !Holds(s, key))
  {
    var at := Find(s, key);
    if at.None? then |s| else at.value
  }

  lemma TouchedKeys(s: seq<Entry>, i: nat, e: Entry)
    requires i < |s|
    ensures Keys(Touch(s, i, e)) == Fronted(Keys(s), e.key, i)
  {
  }

  lemma PlacedOrder(s: seq<Entry>, e: Entry)
    ensures Keys(Placed(s, e)) == Fronted(Keys(s), e.key, PlaceOf(s, e.key))
  {
    hide Find;
    var at := Find(s, e.key);
    if at.Some? { TouchedKeys(s, at.value, e); }
  }

  lemma PlacedKeys(s: seq<Entry>, e: Entry, c: Cache, bound: nat)
    requires c.lru == Placed(s, e)
    ensures Keys(Bound(c, bound).lru) == Cut(Fronted(Keys(s), e.key, PlaceOf(s, e.key)), bound)
  {
    hide Find, Placed, Bound;
    BoundShape(c, bound);
    PlacedOrder(s, e);
    assert Keys(c.lru[..Kept(c, bound)]) == Keys(c.lru)[..Kept(c, bound)];
  }

  lemma RaiseKeys(c: Cache, revision: nat)
    ensures Keys(Raise(c, revision).lru) == Keys(c.lru)
    ensures forall key :: Find(Raise(c, revision).lru, key) == Find(c.lru, key)
  {
    var r := Raise(c, revision);
    assert forall i :: 0 <= i < |c.lru| ==> r.lru[i].key == c.lru[i].key;
    forall key ensures Find(r.lru, key) == Find(c.lru, key) { FindByKeys(r.lru, c.lru, key); }
  }

  lemma {:induction false} FindByKeys(s: seq<Entry>, t: seq<Entry>, key: Key)
    requires |s| == |t| && forall i :: 0 <= i < |s| ==> s[i].key == t[i].key
    ensures Find(s, key) == Find(t, key)
  {
    if s != [] { FindByKeys(s[1..], t[1..], key); }
  }

  /** Where a placed entry leaves the order, given the order the list had before its watermark rose. */
  lemma PlacedOver(c: Cache, c1: Cache, e: Entry, c2: Cache, bound: nat)
    requires Keys(c1.lru) == Keys(c.lru) && PlaceOf(c1.lru, e.key) == PlaceOf(c.lru, e.key) && c2.lru == Placed(c1.lru, e)
    ensures Keys(Bound(c2, bound).lru) == Cut(Fronted(Keys(c.lru), e.key, PlaceOf(c.lru, e.key)), bound)
  {
    PlacedKeys(c1.lru, e, c2, bound);
  }

  lemma RecordedOrder(cfg: Config, c: Cache, key: Key, d: Decision, stamp: nat, asked: int, now: int)
    requires !c.closed && d.Verdict?
    ensures var c1, r := Raise(c, d.Revision()), Observe(cfg, c, key, d, stamp, asked, now);
            Keys(r.lru) == if d.Storable() && !Admits(cfg, c1, key, d, stamp, asked, now) then Keys(c.lru)
                           else Cut(Fronted(Keys(c.lru), key, PlaceOf(c.lru, key)), cfg.maxEntries)
  {
    hide Bound, Find, KillBelow, Fresh;
    var c1 := Raise(c, d.Revision());
    RaiseKeys(c, d.Revision());
    if !d.Storable() {
      PlacedOver(c, c1, Tomb(EntryFor(c1.lru, key), c1.seqNo + 1), Buried(c1, key), cfg.maxEntries);
    } else if Admits(cfg, c1, key, d, stamp, asked, now) {
      PlacedOver(c, c1, Entry(key, true, d, asked, EntryFor(c1.lru, key).guard), Stored(c1, key, d, asked), cfg.maxEntries);
    }
  }

  lemma ReadOrder(cfg: Config, c: Cache, key: Key, now: int)
    requires |c.lru| <= cfg.maxEntries
    ensures var (r, d) := Get(cfg, c, key, now);
            Keys(r.lru) == if d.None? then Keys(c.lru) else Cut(Fronted(Keys(c.lru), key, PlaceOf(c.lru, key)), cfg.maxEntries)
  {
    hide Fresh, Find;
    var at := Find(c.lru, key);
    if Get(cfg, c, key, now).1.Some? { TouchedKeys(c.lru, at.value, c.lru[at.value]); }
  }

  /** A step that clears nothing either leaves the order of the keys or puts one in front, within the bound. */
  lemma StepOrder(cfg: Config, states: seq<Cache>, events: seq<Event>, k: nat)
    requires IsRun(cfg, states, events) && k < |events| && !Clears(events[k])
    ensures var q, before, after := Moved(cfg, states, events, k), Keys(states[k].lru), Keys(states[k + 1].lru);
            after == if q.None? then before else Cut(Fronted(before, q.value, PlaceOf(states[k].lru, q.value)), cfg.maxEntries)
  {
    hide Fresh, Find, Bound, Raise, Fronted, Admits, PlaceOf;
    assert states[k + 1] == Next(cfg, states, events, k);
    match events[k]
    case Ask(_) =>
    case Answer(ask, key, d, now) =>
      if Records(states, events, k) { RecordedOrder(cfg, states[k], key, d, states[ask].seqNo, events[ask].now, now); }
    case Read(key, now) =>
      RunInv(cfg, states, events, k);
      ReadOrder(cfg, states[k], key, now);
  }

  // ----- the place of a key in the order -----

  predicate Distinct(ks: seq<Key>) {
    forall i, j :: 0 <= i < j < |ks| ==> ks[i] != ks[j]
  }

  /** The keys before key are those in ahead. */
  ghost predicate Behind(ks: seq<Key>, key: Key, ahead: set<Key>) {
    |ahead| < |ks| && ks[|ahead|] == key && forall q :: q in ks[..|ahead|] <==> q in ahead
  }

  lemma FrontedDistinct(ks: seq<Key>, q: Key, i: nat)
    requires Distinct(ks) && i <= |ks| && (if i < |ks| then ks[i] == q else q !in ks)
    ensures Distinct(Fronted(ks, q, i))
    ensures forall x :: x in Fronted(ks, q, i) <==> x == q || x in ks
  {
    var t := Fronted(ks, q, i);
    forall x | x in ks ensures x in t {
      var j :| 0 <= j < |ks| && ks[j] == x;
      assert x == if j == i then t[0] else if j < i then t[j + 1] else t[j];
    }
  }

  lemma AheadIndex(ks: seq<Key>, ahead: set<Key>, q: Key, i: nat, p: nat)
    requires Distinct(ks) && i <= |ks| && (if i < |ks| then ks[i] == q else q !in ks)
    requires p == |ahead| < |ks| && forall x :: x in ks[..p] <==> x in ahead
    ensures q in ahead <==> i < p
    ensures |ahead + {q}| == if i < p then p else p + 1
  {
    if i < p { assert ks[..p][i] == q; assert ahead + {q} == ahead; }
    if q in ahead { var j :| 0 <= j < p && ks[..p][j] == q; assert ks[j] == q; }
  }

  lemma AheadKeys(ks: seq<Key>, ahead: set<Key>, q: Key, i: nat, p: nat, r: nat)
    requires i <= |ks| && p < |ks| && i != p && r == (if i < p then p else p + 1)
    requires i < |ks| ==> ks[i] == q
    requires forall x :: x in ks[..p] <==> x in ahead
    ensures forall x :: x in Fronted(ks, q, i)[..r] <==> x in ahead + {q}
  {
    var t := Fronted(ks, q, i);
    forall x | x in ahead && x != q ensures x in t[..r] {
      var j :| 0 <= j < p && ks[..p][j] == x;
      assert ks[j] == x && x == t[..r][if j < i then j + 1 else j];
    }
    assert t[..r][0] == q;
    forall x | x in t[..r] ensures x in ahead + {q} {
      var j :| 0 <= j < r && t[..r][j] == x;
      if j > 0 { assert x == ks[..p][if j <= i then j - 1 else j]; }
    }
  }

  /** Putting another key in front keeps key behind exactly the keys put in front so far. */
  lemma FrontedBehind(ks: seq<Key>, key: Key, ahead: set<Key>, q: Key, i: nat)
    requires Distinct(ks) && i <= |ks| && (if i < |ks| then ks[i] == q else q !in ks)
    requires Behind(ks, key, ahead) && q != key
    ensures Behind(Fronted(ks, q, i), key, ahead + {q})
  {
    var t, p := Fronted(ks, q, i), |ahead|;
    AheadIndex(ks, ahead, q, i, p);
    AheadKeys(ks, ahead, q, i, p, if i < p then p else p + 1);
  }

  /** Within the bound key stays behind those keys; when they fill it, key is gone. */
  lemma CutBehind(ks: seq<Key>, key: Key, ahead: set<Key>, bound: nat)
    requires Distinct(ks) && Behind(ks, key, ahead)
    ensures if |ahead| < bound then Behind(Cut(ks, bound), key, ahead) else key !in Cut(ks, bound)
  {
    if |ahead| < bound && |ks| > bound { assert ks[..bound][..|ahead|] == ks[..|ahead|]; }
  }

  /** Where key stands after the keys in ahead were put in front of it. */
  ghost predicate Standing(ks: seq<Key>, key: Key, ahead: set<Key>, bound: nat) {
    if |ahead| < bound then Behind(ks, key, ahead) else key !in ks
  }

  lemma StandingStep(ks: seq<Key>, key: Key, ahead: set<Key>, q: Key, i: nat, bound: nat)
    requires Distinct(ks) && i <= |ks| && (if i < |ks| then ks[i] == q else q !in ks)
    requires Standing(ks, key, ahead, bound) && q != key
    ensures Standing(Cut(Fronted(ks, q, i), bound), key, ahead + {q}, bound)
  {
    FrontedDistinct(ks, q, i);
    if |ahead| < bound {
      FrontedBehind(ks, key, ahead, q, i);
      CutBehind(Fronted(ks, q, i), key, ahead + {q}, bound);
    } else if q in ahead {
      assert ahead + {q} == ahead;
    }
  }

  lemma InFront(ks: seq<Key>, bound: nat)
    requires ks != [] && bound > 0
    ensures Standing(ks, ks[0], {}, bound)
  {
  }

  lemma MovedIsAbout(cfg: Config, states: seq<Cache>, events: seq<Event>, k: nat)
    requires IsRun(cfg, states, events) && k < |events| && Moved(cfg, states, events, k).Some?
    ensures About(states, events, k, Moved(cfg, states, events, k).value)
    ensures forall key :: About(states, events, k, key) ==> key == Moved(cfg, states, events, k).value
  {
  }

  lemma OrderOk(cfg: Config, states: seq<Cache>, events: seq<Event>, k: nat, q: Key)
    requires IsRun(cfg, states, events) && k <= |events|
    ensures var ks, i := Keys(states[k].lru), PlaceOf(states[k].lru, q);
            Distinct(ks) && i <= |ks| && (if i < |ks| then ks[i] == q else q !in ks)
  {
    RunInv(cfg, states, events, k);
    KeysHold(states[k].lru, q);
  }

  lemma KeysHold(s: seq<Entry>, key: Key)
    ensures Holds(s, key) <==> key in Keys(s)
  {
    if Holds(s, key) { var i :| 0 <= i < |s| && s[i].key == key; assert Keys(s)[i] == key; }
  }

  lemma OrderStep(cfg: Config, states: seq<Cache>, events: seq<Event>, i: nat, k: nat, key: Key)
    requires IsRun(cfg, states, events) && i <= k < |events| && !About(states, events, k, key) && !Clears(events[k])
    requires Standing(Keys(states[k].lru), key, MovedKeys(cfg, states, events, i, k), cfg.maxEntries)
    ensures Standing(Keys(states[k + 1].lru), key, MovedKeys(cfg, states, events, i, k + 1), cfg.maxEntries)
  {
    hide Standing, Moved, Fronted, Find, Keys, PlaceOf, Clears, Next, About;
    StepOrder(cfg, states, events, k);
    var q, before := Moved(cfg, states, events, k), MovedKeys(cfg, states, events, i, k);
    if q.Some? {
      MovedIsAbout(cfg, states, events, k);
      OrderOk(cfg, states, events, k, q.value);
      StandingStep(Keys(states[k].lru), key, before, q.value, PlaceOf(states[k].lru, q.value), cfg.maxEntries);
    } else {
      assert before + {} == before;
    }
  }

  /** In every run, a key in front at i is at n behind exactly the keys moved in between, unless these fill the bound
      and it has fallen off the end. */
  lemma {:induction false} OrderSince(cfg: Config, states: seq<Cache>, events: seq<Event>, i: nat, n: nat, key: Key)
    requires IsRun(cfg, states, events) && i <= n <= |events| && Silent(states, events, i, n, key)
    requires states[i].lru != [] && states[i].lru[0].key == key
    requires forall k :: i <= k < n ==> !Clears(events[k])
    ensures Standing(Keys(states[n].lru), key, MovedKeys(cfg, states, events, i, n), cfg.maxEntries)
    decreases n
  {
    if i == n {
      InFront(Keys(states[i].lru), cfg.maxEntries);
    } else {
      hide IsRun, Standing, MovedKeys, Keys, Clears, About;
      OrderSince(cfg, states, events, i, n - 1, key);
      OrderStep(cfg, states, events, i, n - 1, key);
    }
  }

  // ----- what stands at that place -----

  /** Only an event about a key brings it in. */
  lemma HeldBefore(cfg: Config, states: seq<Cache>, events: seq<Event>, k: nat, key: Key)
    requires IsRun(cfg, states, events) && k < |events| && !About(states, events, k, key)
    requires Holds(states[k + 1].lru, key)
    ensures Holds(states[k].lru, key) && (Clears(events[k]) ==> states[k].closed)
  {
    hide Moved, Find, PlaceOf, Fronted;
    assert states[k + 1] == Next(cfg, states, events, k);
    if !Clears(events[k]) {
      StepOrder(cfg, states, events, k);
      KeysHold(states[k].lru, key);
      KeysHold(states[k + 1].lru, key);
      var q := Moved(cfg, states, events, k);
      if q.Some? {
        MovedIsAbout(cfg, states, events, k);
        OrderOk(cfg, states, events, k, q.value);
        FrontedDistinct(Keys(states[k].lru), q.value, PlaceOf(states[k].lru, q.value));
      }
    }
  }

  /** A key that is out stays out until an event about it. */
  lemma {:induction false} AbsentSince(cfg: Config, states: seq<Cache>, events: seq<Event>, i: nat, n: nat, key: Key)
    requires IsRun(cfg, states, events) && i <= n <= |events| && Silent(states, events, i, n, key)
    requires !Holds(states[i].lru, key)
    ensures !Holds(states[n].lru, key)
    decreases n
  {
    if i < n {
      AbsentSince(cfg, states, events, i, n - 1, key);
      if Holds(states[n].lru, key) { HeldBefore(cfg, states, events, n - 1, key); }
    }
  }

  lemma RaiseEntry(cfg: Config, c: Cache, revision: nat, e: Entry)
    requires Inv(cfg, c) && e in c.lru
    ensures KilledBelow(e, Max(c.watermark, revision)) in Raise(c, revision).lru
  {
    var i :| 0 <= i < |c.lru| && c.lru[i] == e;
    assert EntryOk(e, c.seqNo, c.watermark);
    assert Raise(c, revision).lru[i] == KilledBelow(e, Max(c.watermark, revision));
  }

  lemma BoundEntry(c: Cache, placed: Entry, c1: Cache, bound: nat, x: Entry)
    requires DistinctKeys(c.lru) && c1.lru == Placed(c.lru, placed) && x in c.lru && x.key != placed.key
    requires Holds(Bound(c1, bound).lru, x.key)
    ensures x in Bound(c1, bound).lru
  {
    var r := Bound(c1, bound);
    BoundShape(c1, bound);
    PlacedElements(c.lru, placed);
    var i :| 0 <= i < |r.lru| && r.lru[i].key == x.key;
    assert r.lru[i] == c1.lru[i] && r.lru[i] in c1.lru;
    OneEntryPerKey(c1.lru, x);
    OneEntryPerKey(c1.lru, r.lru[i]);
  }

  lemma RecordedEntry(cfg: Config, c: Cache, key: Key, d: Decision, stamp: nat, asked: int, now: int, e: Entry)
    requires Inv(cfg, c) && e in c.lru && d.Verdict? && !c.closed && key != e.key
    requires Holds(Observe(cfg, c, key, d, stamp, asked, now).lru, e.key)
    ensures KilledBelow(e, Max(c.watermark, d.Revision())) in Observe(cfg, c, key, d, stamp, asked, now).lru
  {
    hide Find, Bound, Fresh;
    var c1, x := Raise(c, d.Revision()), KilledBelow(e, Max(c.watermark, d.Revision()));
    RaiseEntry(cfg, c, d.Revision(), e);
    RaiseInv(cfg, c, d.Revision());
    if !d.Storable() {
      BoundEntry(c1, Tomb(EntryFor(c1.lru, key), c1.seqNo + 1), Buried(c1, key), cfg.maxEntries, x);
    } else if Admits(cfg, c1, key, d, stamp, asked, now) {
      BoundEntry(c1, Entry(key, true, d, asked, EntryFor(c1.lru, key).guard), Stored(c1, key, d, asked), cfg.maxEntries, x);
    }
  }

  lemma ReadEntry(cfg: Config, c: Cache, key: Key, now: int, e: Entry)
    requires Inv(cfg, c) && e in c.lru && key != e.key
    ensures e in Get(cfg, c, key, now).0.lru
  {
    hide Fresh;
    var at := Find(c.lru, key);
    var i :| 0 <= i < |c.lru| && c.lru[i] == e;
    if at.Some? {
      TouchElements(c.lru, at.value, c.lru[at.value]);
      assert c.lru[at.value := c.lru[at.value].Killed()][i] == e;
    }
  }

  /** A step not about the entry's key leaves it as it is, or kills it by raising the watermark over it. */
  lemma EntryStep(cfg: Config, states: seq<Cache>, events: seq<Event>, k: nat, e: Entry)
    requires IsRun(cfg, states, events) && k < |events| && !About(states, events, k, e.key) && !Clears(events[k])
    requires e in states[k].lru && Holds(states[k + 1].lru, e.key)
    ensures KilledBelow(e, states[k + 1].watermark) in states[k + 1].lru
  {
    hide Find, Bound, Fresh;
    RunInv(cfg, states, events, k);
    StepGrows(cfg, states, events, k);
    assert EntryOk(e, states[k].seqNo, states[k].watermark);
    assert states[k + 1] == Next(cfg, states, events, k);
    match events[k]
    case Ask(_) =>
    case Answer(ask, key, d, now) =>
      if Records(states, events, k) { RecordedEntry(cfg, states[k], key, d, states[ask].seqNo, events[ask].now, now, e); }
    case Read(key, now) => ReadEntry(cfg, states[k], key, now, e);
  }

  lemma {:induction false} EntrySince(cfg: Config, states: seq<Cache>, events: seq<Event>, i: nat, n: nat, e: Entry)
    requires IsRun(cfg, states, events) && i <= n <= |events| && Silent(states, events, i, n, e.key)
    requires e in states[i].lru && Holds(states[n].lru, e.key)
    requires forall k :: i <= k < n ==> !Clears(events[k])
    ensures KilledBelow(e, states[n].watermark) in states[n].lru
    decreases n
  {
    assert |states| == |events| + 1;
    if i == n {
      RunInv(cfg, states, events, i);
      assert EntryOk(e, states[i].seqNo, states[i].watermark);
    } else {
      hide IsRun, Find, Clears;
      HeldBefore(cfg, states, events, n - 1, e.key);
      EntrySince(cfg, states, events, i, n - 1, e);
      EntryStep(cfg, states, events, n - 1, KilledBelow(e, states[n - 1].watermark));
      RunGrows(cfg, states, events, n - 1, n);
    }
  }

  // ----- the next read -----

  /** Event m gives the allow d to its caller: the cache stored d for key as an answer, or served it to a read. */
  predicate Gives(cfg: Config, states: seq<Cache>, events: seq<Event>, m: nat, key: Key, d: Decision)
    requires IsRun(cfg, states, events) && m < |events|
  {
    && Moved(cfg, states, events, m) == Some(key)
    && (events[m].Answer? ==> events[m].d == d && d.Storable())
    && (events[m].Read? ==> Get(cfg, states[m], key, events[m].now).1 == Some(d))
  }

  /** When the call behind the allow was stamped. */
  function AskedAt(states: seq<Cache>, events: seq<Event>, m: nat): int
    requires m < |events| && m < |states| && (events[m].Read? || (events[m].Answer? && events[m].ask < |events| && events[events[m].ask].Ask?))
  {
    if events[m].Read? then EntryFor(states[m].lru, events[m].key).asked else events[events[m].ask].now
  }

  /** The first entry of the open cache is the allow d for key, stamped at asked. */
  predicate Leads(c: Cache, key: Key, d: Decision, asked: int) {
    !c.closed && c.lru != [] && c.lru[0].key == key && c.lru[0].live && c.lru[0].decision == d && c.lru[0].asked == asked
  }

  lemma GivenIsInFront(cfg: Config, states: seq<Cache>, events: seq<Event>, m: nat, key: Key, d: Decision)
    requires IsRun(cfg, states, events) && m < |events| && Gives(cfg, states, events, m, key, d)
    ensures Leads(states[m + 1], key, d, AskedAt(states, events, m))
  {
    assert states[m + 1] == Next(cfg, states, events, m);
    if events[m].Answer? {
      StoredInFront(cfg, states[m], key, d, states[events[m].ask].seqNo, AskedAt(states, events, m), events[m].now);
    }
  }

  lemma StoredInFront(cfg: Config, c: Cache, key: Key, d: Decision, stamp: nat, asked: int, now: int)
    requires cfg.Valid() && !c.closed && d.Storable() && Admits(cfg, Raise(c, d.Revision()), key, d, stamp, asked, now)
    ensures Leads(Observe(cfg, c, key, d, stamp, asked, now), key, d, asked)
  {
    var stored := Stored(Raise(c, d.Revision()), key, d, asked);
    BoundShape(stored, cfg.maxEntries);
    assert stored.lru[0].key == key;
  }

  predicate NotCleared(events: seq<Event>, m: nat, n: nat)
    requires n <= |events|
  {
    forall k :: m < k < n ==> !Clears(events[k])
  }

  /** The verdict is within the reuse bound, before its expiry and not below the watermark. */
  predicate InDate(cfg: Config, d: Decision, asked: int, watermark: nat, now: int) {
    0 <= now - asked < cfg.maxTTL && d.Verdict? && now < d.expiresAt && watermark <= d.policyRevision
  }

  /** Reuse, exactly. When event m stored or served the allow d for a key and the next event about the key is the
      read n, that read serves d if nothing cleared the cache in between, fewer than maxEntries other keys were moved
      to the front, and d is still fresh; and otherwise it serves nothing. */
  lemma ReusedExactly(cfg: Config, states: seq<Cache>, events: seq<Event>, m: nat, n: nat, key: Key, d: Decision)
    requires IsRun(cfg, states, events) && m < n < |events| && Gives(cfg, states, events, m, key, d)
    requires events[n].Read? && events[n].key == key && Silent(states, events, m + 1, n, key)
    ensures Get(cfg, states[n], key, events[n].now).1 ==
            if && NotCleared(events, m, n)
               && |MovedKeys(cfg, states, events, m + 1, n)| < cfg.maxEntries
               && InDate(cfg, d, AskedAt(states, events, m), states[n].watermark, events[n].now)
            then Some(d) else None
    ensures Get(cfg, states[n], key, events[n].now).1.Some? ==> AskedAt(states, events, n) == AskedAt(states, events, m)
  {
    hide Moved, MovedKeys, Silent;
    GivenIsInFront(cfg, states, events, m, key, d);
    if NotCleared(events, m, n) {
      OrderSince(cfg, states, events, m + 1, n, key);
      HeldReadServes(cfg, states, events, m, n, states[m + 1].lru[0]);
    } else {
      ClearedIsGone(cfg, states, events, m, n, key);
    }
  }

  lemma ClearedIsGone(cfg: Config, states: seq<Cache>, events: seq<Event>, m: nat, n: nat, key: Key)
    requires IsRun(cfg, states, events) && m < n < |events| && Silent(states, events, m + 1, n, key) && !NotCleared(events, m, n)
    ensures !Holds(states[n].lru, key)
  {
    var k :| m < k < n && Clears(events[k]);
    assert states[k + 1] == Next(cfg, states, events, k);
    RunInv(cfg, states, events, k);
    AbsentSince(cfg, states, events, k + 1, n, key);
  }

  lemma {:induction false} StaysOpen(cfg: Config, states: seq<Cache>, events: seq<Event>, i: nat, n: nat)
    requires IsRun(cfg, states, events) && i <= n <= |events| && !states[i].closed
    requires forall k :: i <= k < n ==> !Clears(events[k])
    ensures !states[n].closed
    decreases n
  {
    if i < n {
      StaysOpen(cfg, states, events, i, n - 1);
      assert states[n - 1 + 1] == Next(cfg, states, events, n - 1);
      match events[n - 1]
      case Answer(ask, key, d, now) => ObserveKeepsOpen(cfg, states[n - 1], key, d, states[ask].seqNo, events[ask].now, now);
      case _ =>
    }
  }

  lemma ObserveKeepsOpen(cfg: Config, c: Cache, key: Key, d: Decision, stamp: nat, asked: int, now: int)
    ensures Observe(cfg, c, key, d, stamp, asked, now).closed == c.closed
  {
    if d.Verdict? && !c.closed {
      var c1 := Raise(c, d.Revision());
      BoundShape(Buried(c1, key), cfg.maxEntries);
      BoundShape(Stored(c1, key, d, asked), cfg.maxEntries);
    }
  }

  lemma HeldReadServes(cfg: Config, states: seq<Cache>, events: seq<Event>, m: nat, n: nat, e: Entry)
    requires IsRun(cfg, states, events) && m < n < |events| && Silent(states, events, m + 1, n, e.key) && NotCleared(events, m, n)
    requires !states[m + 1].closed && e in states[m + 1].lru && e.live && events[n].Read?
    requires Standing(Keys(states[n].lru), e.key, MovedKeys(cfg, states, events, m + 1, n), cfg.maxEntries)
    ensures Get(cfg, states[n], e.key, events[n].now).1 ==
            if |MovedKeys(cfg, states, events, m + 1, n)| < cfg.maxEntries && Fresh(cfg, states[n].watermark, e.asked, e.decision, events[n].now)
            then Some(e.decision) else None
    ensures Get(cfg, states[n], e.key, events[n].now).1.Some? ==> EntryFor(states[n].lru, e.key).asked == e.asked
  {
    hide MovedKeys, Silent;
    KeysHold(states[n].lru, e.key);
    if Holds(states[n].lru, e.key) {
      EntrySince(cfg, states, events, m + 1, n, e);
      RunInv(cfg, states, events, n);
      OneEntryPerKey(states[n].lru, KilledBelow(e, states[n].watermark));
      StaysOpen(cfg, states, events, m + 1, n);
    }
  }

  // ----- every later read -----

  lemma {:induction false} MovedWithin(cfg: Config, states: seq<Cache>, events: seq<Event>, i: nat, a: nat, b: nat, n: nat)
    requires IsRun(cfg, states, events) && i <= a <= b <= n <= |events|
    ensures MovedKeys(cfg, states, events, a, b) <= MovedKeys(cfg, states, events, i, n)
    decreases n
  {
    hide IsRun, Moved;
    if b < n {
      MovedWithin(cfg, states, events, i, a, b, n - 1);
    } else if a < b {
      MovedWithin(cfg, states, events, i, a, b - 1, n - 1);
    }
  }

  lemma {:induction false} SilentMovesOthers(cfg: Config, states: seq<Cache>, events: seq<Event>, i: nat, n: nat, key: Key)
    requires IsRun(cfg, states, events) && i <= n <= |events| && Silent(states, events, i, n, key)
    ensures key !in MovedKeys(cfg, states, events, i, n)
    decreases n
  {
    if i < n {
      SilentMovesOthers(cfg, states, events, i, n - 1, key);
      if Moved(cfg, states, events, n - 1).Some? { MovedIsAbout(cfg, states, events, n - 1); }
    }
  }

  lemma FewerMoved(cfg: Config, states: seq<Cache>, events: seq<Event>, i: nat, a: nat, b: nat, n: nat, key: Key)
    requires IsRun(cfg, states, events) && i <= a <= b <= n <= |events|
    ensures |MovedKeys(cfg, states, events, a, b) - {key}| <= |MovedKeys(cfg, states, events, i, n) - {key}|
  {
    hide IsRun, MovedKeys;
    MovedWithin(cfg, states, events, i, a, b, n);
    var part, whole := MovedKeys(cfg, states, events, a, b) - {key}, MovedKeys(cfg, states, events, i, n) - {key};
    assert whole == part + (whole - part);
    assert |whole| == |part| + |whole - part|;
  }

  /** After m and before n no verdict is recorded for key, and d is fresh at every read of it. */
  predicate OnlyFreshReads(cfg: Config, states: seq<Cache>, events: seq<Event>, m: nat, n: nat, key: Key, d: Decision, asked: int)
    requires n <= |events| && n <= |states|
  {
    forall k :: m < k < n && About(states, events, k, key) ==> events[k].Read? && InDate(cfg, d, asked, states[k].watermark, events[k].now)
  }

  /** The last event about key before n, or m. */
  lemma {:induction false} LastAbout(states: seq<Cache>, events: seq<Event>, m: nat, n: nat, key: Key) returns (p: nat)
    requires m < n <= |events| && n <= |states|
    ensures m <= p < n && Silent(states, events, p + 1, n, key) && (p > m ==> About(states, events, p, key))
    decreases n
  {
    p := n - 1;
    if p > m && !About(states, events, p, key) { p := LastAbout(states, events, m, n - 1, key); }
  }

  lemma ServedGives(cfg: Config, states: seq<Cache>, events: seq<Event>, n: nat, key: Key, d: Decision)
    requires IsRun(cfg, states, events) && n < |events| && events[n].Read? && events[n].key == key
    requires Get(cfg, states[n], key, events[n].now).1 == Some(d)
    ensures Gives(cfg, states, events, n, key, d)
  {
  }

  lemma NextFreshRead(cfg: Config, states: seq<Cache>, events: seq<Event>, m: nat, p: nat, n: nat, key: Key, d: Decision)
    requires IsRun(cfg, states, events) && m <= p < n < |events| && Gives(cfg, states, events, p, key, d)
    requires events[n].Read? && events[n].key == key && Silent(states, events, p + 1, n, key) && NotCleared(events, m, n)
    requires InDate(cfg, d, AskedAt(states, events, p), states[n].watermark, events[n].now)
    requires |MovedKeys(cfg, states, events, m + 1, n) - {key}| < cfg.maxEntries
    ensures Get(cfg, states[n], key, events[n].now).1 == Some(d) && AskedAt(states, events, n) == AskedAt(states, events, p)
  {
    hide MovedKeys, Moved, Get, Clears, InDate, Silent;
    FewerMoved(cfg, states, events, m + 1, p + 1, n, n, key);
    SilentMovesOthers(cfg, states, events, p + 1, n, key);
    assert MovedKeys(cfg, states, events, p + 1, n) - {key} == MovedKeys(cfg, states, events, p + 1, n);
    ReusedExactly(cfg, states, events, p, n, key, d);
  }

  /** An allow is served to every later read of its key for which it is fresh, as long as no verdict for the key is
      recorded, nothing clears the cache, and fewer than maxEntries other keys are moved to the front. */
  lemma {:induction false} ServedWhileFresh(cfg: Config, states: seq<Cache>, events: seq<Event>, m: nat, n: nat, key: Key, d: Decision)
    requires IsRun(cfg, states, events) && m < n < |events| && Gives(cfg, states, events, m, key, d)
    requires events[n].Read? && events[n].key == key && NotCleared(events, m, n)
    requires InDate(cfg, d, AskedAt(states, events, m), states[n].watermark, events[n].now)
    requires OnlyFreshReads(cfg, states, events, m, n, key, d, AskedAt(states, events, m))
    requires |MovedKeys(cfg, states, events, m + 1, n) - {key}| < cfg.maxEntries
    ensures Get(cfg, states[n], key, events[n].now).1 == Some(d) && AskedAt(states, events, n) == AskedAt(states, events, m)
    decreases n
  {
    hide MovedKeys, Gives, Get, Clears, InDate;
    var p := LastAbout(states, events, m, n, key);
    if p > m {
      FewerMoved(cfg, states, events, m + 1, m + 1, p, n, key);
      ServedWhileFresh(cfg, states, events, m, p, key, d);
      ServedGives(cfg, states, events, p, key, d);
    }
    NextFreshRead(cfg, states, events, m, p, n, key, d);
  }
}
