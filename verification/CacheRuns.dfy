/** Every run of the decision cache: any number of callers interleave their stamps, answers and reads
    with invalidations, evictions and a close. Each event is one critical section. */
module CacheRuns {
  import opened Wrappers
  import opened DecisionCache
  import opened CacheInvariant

  /** Answer(ask, ...) records the answer to a call whose stamp was taken by the event at index ask. */
  datatype Event =
    | Ask(now: int)
    | Answer(ask: nat, key: Key, d: Decision, now: int)
    | Read(key: Key, now: int)
    | Invalidation
    | Closing

  function Next(cfg: Config, states: seq<Cache>, events: seq<Event>, i: nat): Cache
    requires i < |events| && i < |states|
    requires events[i].Answer? ==> events[i].ask < i && events[events[i].ask].Ask?
  {
    match events[i]
    case Ask(_) => states[i]
    case Answer(ask, key, d, now) => Observe(cfg, states[i], key, d, states[ask].seqNo, events[ask].now, now)
    case Read(key, now) => Get(cfg, states[i], key, now).0
    case Invalidation => Flush(states[i])
    case Closing => Shut(states[i])
  }

  predicate IsRun(cfg: Config, states: seq<Cache>, events: seq<Event>) {
    && cfg.Valid()
    && |states| == |events| + 1
    && states[0] == EMPTY
    && (forall i :: 0 <= i < |events| && events[i].Answer? ==> events[i].ask < i && events[events[i].ask].Ask?)
    && (forall i :: 0 <= i < |events| ==> states[i + 1] == Next(cfg, states, events, i))
  }

  /** Event j records a verdict of the decision point while the cache is open. */
  predicate Records(states: seq<Cache>, events: seq<Event>, j: nat)
    requires j < |events| && j < |states|
  {
    !states[j].closed && events[j].Answer? && events[j].d.Verdict?
  }

  /** Event j refuses reuse of every earlier answer for key: a verdict for it that is not a cacheable
      allow, or an invalidation. */
  predicate Refuses(states: seq<Cache>, events: seq<Event>, j: nat, key: Key)
    requires j < |events| && j < |states|
  {
    || (Records(states, events, j) && events[j].key == key && !(events[j].d.allowed && events[j].d.cacheable))
    || (!states[j].closed && events[j].Invalidation?)
  }

  // ----- the invariant along a run -----

  lemma {:induction false} RunInv(cfg: Config, states: seq<Cache>, events: seq<Event>, i: nat)
    requires IsRun(cfg, states, events) && i <= |events|
    ensures Inv(cfg, states[i])
  {
    if i > 0 {
      RunInv(cfg, states, events, i - 1);
      var c := states[i - 1];
      assert states[i - 1 + 1] == Next(cfg, states, events, i - 1);
      match events[i - 1]
      case Ask(_) =>
      case Answer(ask, key, d, now) => ObserveInv(cfg, c, key, d, states[ask].seqNo, events[ask].now, now);
      case Read(key, now) => GetInv(cfg, c, key, now);
      case Invalidation =>
      case Closing =>
    }
  }

  lemma ObserveGrows(cfg: Config, c: Cache, key: Key, d: Decision, stamp: nat, asked: int, now: int)
    ensures var r := Observe(cfg, c, key, d, stamp, asked, now);
            && c.seqNo <= r.seqNo
            && (c.closed ==> r.closed)
            && r.watermark == if d.Verdict? && !c.closed then Max(c.watermark, d.Revision()) else c.watermark
  {
    if d.Verdict? && !c.closed {
      var c1 := Raise(c, d.Revision());
      BoundShape(Buried(c1, key), cfg.maxEntries);
      BoundShape(Stored(c1, key, d, asked), cfg.maxEntries);
    }
  }

  lemma StepGrows(cfg: Config, states: seq<Cache>, events: seq<Event>, i: nat)
    requires IsRun(cfg, states, events) && i < |events|
    ensures states[i].seqNo <= states[i + 1].seqNo
    ensures states[i].closed ==> states[i + 1].closed
    ensures states[i + 1].watermark == if Records(states, events, i) then Max(states[i].watermark, events[i].d.Revision()) else states[i].watermark
  {
    assert states[i + 1] == Next(cfg, states, events, i);
    match events[i]
    case Answer(ask, key, d, now) => ObserveGrows(cfg, states[i], key, d, states[ask].seqNo, events[ask].now, now);
    case _ =>
  }

  /** The sequence number and the watermark never fall, and a closed cache stays closed. */
  lemma {:induction false} RunGrows(cfg: Config, states: seq<Cache>, events: seq<Event>, i: nat, j: nat)
    requires IsRun(cfg, states, events) && i <= j <= |events|
    ensures states[i].seqNo <= states[j].seqNo
    ensures states[i].watermark <= states[j].watermark
    ensures states[i].closed ==> states[j].closed
    decreases j
  {
    if i < j {
      RunGrows(cfg, states, events, i, j - 1);
      StepGrows(cfg, states, events, j - 1);
    }
  }

  /** In every reachable state the watermark is the maximum revision of the verdicts recorded while open. */
  lemma {:induction false} WatermarkIsMaximum(cfg: Config, states: seq<Cache>, events: seq<Event>, i: nat)
    requires IsRun(cfg, states, events) && i <= |events|
    ensures forall m :: 0 <= m < i && Records(states, events, m) ==> events[m].d.policyRevision <= states[i].watermark
    ensures states[i].watermark == 0 || exists m :: 0 <= m < i && Records(states, events, m) && events[m].d.policyRevision == states[i].watermark
  {
    if i > 0 {
      WatermarkIsMaximum(cfg, states, events, i - 1);
      StepGrows(cfg, states, events, i - 1);
      if Records(states, events, i - 1) && states[i].watermark != states[i - 1].watermark {
        assert events[i - 1].d.policyRevision == states[i].watermark;
      }
    }
  }

  // ----- a refusal outlives its tombstone -----

  /** Some record in the cache keeps out every answer for key stamped before sequence number g. */
  predicate Shielded(c: Cache, key: Key, g: nat) {
    || c.closed
    || g <= c.lastFlush
    || g <= c.floor
    || exists e :: e in c.lru && e.key == key && g <= e.guard
  }

  lemma BoundShields(cfg: Config, c: Cache, key: Key, g: nat)
    requires Unbounded(c) && Shielded(c, key, g)
    ensures Shielded(Bound(c, cfg.maxEntries), key, g)
  {
    var n := Kept(c, cfg.maxEntries);
    var r := Bound(c, cfg.maxEntries);
    assert r.lru == c.lru[..n] && r.closed == c.closed && r.lastFlush == c.lastFlush by { BoundShape(c, cfg.maxEntries); }
    assert c.floor <= r.floor && forall e :: e in c.lru[n..] ==> e.guard <= r.floor by {
      forall e | e in c.lru ensures e.guard <= c.seqNo { assert EntryOk(e, c.seqNo, c.watermark); }
      BoundFloor(c, cfg.maxEntries, c.seqNo);
    }
    if !(c.closed || g <= c.lastFlush || g <= c.floor) {
      var e :| e in c.lru && e.key == key && g <= e.guard;
      assert c.lru == c.lru[..n] + c.lru[n..];
      assert e in c.lru[..n] || e in c.lru[n..];
    }
  }

  lemma GetShields(cfg: Config, c: Cache, at: Key, now: int, key: Key, g: nat)
    requires Inv(cfg, c) && Shielded(c, key, g)
    ensures Shielded(Get(cfg, c, at, now).0, key, g)
  {
    var r := Get(cfg, c, at, now).0;
    var found := Find(c.lru, at);
    if r != c && !(c.closed || g <= c.lastFlush || g <= c.floor) {
      var x := c.lru[found.value];
      var e :| e in c.lru && e.key == key && g <= e.guard;
      var i :| 0 <= i < |c.lru| && c.lru[i] == e;
      if Fresh(cfg, c.watermark, x.asked, x.decision, now) {
        TouchElements(c.lru, found.value, x);
        assert e in r.lru;
      } else {
        assert r.lru[i].key == key && r.lru[i].guard == e.guard && r.lru[i] in r.lru;
      }
    }
  }

  lemma RaiseShields(c: Cache, revision: nat, key: Key, g: nat)
    requires Shielded(c, key, g)
    ensures Shielded(Raise(c, revision), key, g)
  {
    var r := Raise(c, revision);
    if r != c && !(c.closed || g <= c.lastFlush || g <= c.floor) {
      var e :| e in c.lru && e.key == key && g <= e.guard;
      var i :| 0 <= i < |c.lru| && c.lru[i] == e;
      assert r.lru[i].key == key && r.lru[i].guard == e.guard && r.lru[i] in r.lru;
    }
  }

  /** The two list updates of Observe keep every shield: an entry is only added or its guard raised. */
  lemma UpdateShields(cfg: Config, c: Cache, c1: Cache, e: Entry, key: Key, g: nat)
    requires Inv(cfg, c) && Unbounded(c1) && Shielded(c, key, g)
    requires c1.closed == c.closed && c1.lastFlush == c.lastFlush && c1.floor == c.floor
    requires forall x :: x in c.lru && x.key != e.key ==> x in c1.lru
    requires e in c1.lru && forall x :: x in c.lru && x.key == e.key ==> x.guard <= e.guard
    ensures Shielded(Bound(c1, cfg.maxEntries), key, g)
  {
    assert Shielded(c1, key, g) by {
      if !(c.closed || g <= c.lastFlush || g <= c.floor) {
        var x :| x in c.lru && x.key == key && g <= x.guard;
        assert x in c1.lru || (x.key == e.key && x.guard <= e.guard);
      }
    }
    BoundShields(cfg, c1, key, g);
  }

  lemma BuryShields(cfg: Config, c: Cache, at: Key, key: Key, g: nat)
    requires cfg.Valid() && Inv(cfg, c) && !c.closed
    requires Shielded(c, key, g) || (key == at && g == c.seqNo + 1)
    ensures Shielded(Bury(cfg, c, at), key, g)
  {
    var e := Tomb(EntryFor(c.lru, at), c.seqNo + 1);
    PlacedElements(c.lru, e);
    BuriedInv(cfg, c, at);
    if key == at && g == c.seqNo + 1 {
      assert e in Buried(c, at).lru;
      BoundShields(cfg, Buried(c, at), key, g);
    } else {
      forall x | x in c.lru ensures x.guard <= e.guard { assert EntryOk(x, c.seqNo, c.watermark); }
      UpdateShields(cfg, c, Buried(c, at), e, key, g);
    }
  }

  lemma StoreShields(cfg: Config, c: Cache, at: Key, d: Decision, asked: int, key: Key, g: nat)
    requires Inv(cfg, c) && !c.closed && Shielded(c, key, g)
    requires d.Storable() && d.Revision() == c.watermark
    ensures Shielded(Store(cfg, c, at, d, asked), key, g)
  {
    var e := Entry(at, true, d, asked, EntryFor(c.lru, at).guard);
    PlacedElements(c.lru, e);
    StoredInv(cfg, c, at, d, asked);
    forall x | x in c.lru && x.key == at ensures x.guard <= e.guard { OneEntryPerKey(c.lru, x); }
    UpdateShields(cfg, c, Stored(c, at, d, asked), e, key, g);
  }

  lemma ObserveShields(cfg: Config, c: Cache, at: Key, d: Decision, stamp: nat, asked: int, now: int, key: Key, g: nat)
    requires cfg.Valid() && Inv(cfg, c) && Shielded(c, key, g)
    ensures Shielded(Observe(cfg, c, at, d, stamp, asked, now), key, g)
  {
    if d.Verdict? && !c.closed {
      RaiseInv(cfg, c, d.Revision());
      RaiseShields(c, d.Revision(), key, g);
      var c1 := Raise(c, d.Revision());
      if !d.Storable() {
        BuryShields(cfg, c1, at, key, g);
      } else if Admits(cfg, c1, at, d, stamp, asked, now) {
        StoreShields(cfg, c1, at, d, asked, key, g);
      }
    }
  }

  /** Once recorded, a refusal stays visible to every later state, even after its tombstone is evicted. */
  lemma {:induction false} RefusalPersists(cfg: Config, states: seq<Cache>, events: seq<Event>, j: nat, i: nat, key: Key)
    requires IsRun(cfg, states, events) && j < i <= |events|
    requires Refuses(states, events, j, key)
    ensures Shielded(states[i], key, states[j].seqNo + 1)
    decreases i
  {
    var g := states[j].seqNo + 1;
    var c := states[i - 1];
    RunInv(cfg, states, events, i - 1);
    assert states[i - 1 + 1] == Next(cfg, states, events, i - 1);
    if i == j + 1 {
      if events[j].Answer? {
        var d := events[j].d;
        RaiseInv(cfg, c, d.Revision());
        BuryShields(cfg, Raise(c, d.Revision()), key, key, g);
      }
    } else {
      RefusalPersists(cfg, states, events, j, i - 1, key);
      match events[i - 1]
      case Ask(_) =>
      case Answer(ask, at, d, now) => ObserveShields(cfg, c, at, d, states[ask].seqNo, events[ask].now, now, key, g);
      case Read(at, now) => GetShields(cfg, c, at, now, key, g);
      case Invalidation => assert c.lastFlush <= c.seqNo; RunGrows(cfg, states, events, j + 1, i - 1); StepSeq(cfg, states, events, j, key);
      case Closing =>
    }
  }

  lemma StepSeq(cfg: Config, states: seq<Cache>, events: seq<Event>, j: nat, key: Key)
    requires IsRun(cfg, states, events) && j < |events| && Refuses(states, events, j, key)
    ensures states[j].seqNo + 1 <= states[j + 1].seqNo
  {
    assert states[j + 1] == Next(cfg, states, events, j);
    if events[j].Answer? {
      BoundShape(Buried(Raise(states[j], events[j].d.Revision()), key), cfg.maxEntries);
    }
  }

  lemma ShieldStops(cfg: Config, c: Cache, key: Key, d: Decision, stamp: nat, asked: int, now: int, g: nat)
    requires Inv(cfg, c) && !c.closed && Shielded(c, key, g)
    requires Admits(cfg, c, key, d, stamp, asked, now)
    ensures g <= stamp
  {
    if !(g <= c.lastFlush || g <= c.floor) {
      var e :| e in c.lru && e.key == key && g <= e.guard;
      OneEntryPerKey(c.lru, e);
    }
  }

  // ----- where a served allow comes from -----

  /** A live entry after an observation was live before it, or is the answer just stored. */
  lemma ObserveLive(cfg: Config, c: Cache, key: Key, d: Decision, stamp: nat, asked: int, now: int, e: Entry)
    requires cfg.Valid() && Inv(cfg, c)
    requires e in Observe(cfg, c, key, d, stamp, asked, now).lru && e.live
    ensures
      || (e in c.lru && !(d.Verdict? && !c.closed && !d.Storable() && e.key == key))
      || (&& e.key == key && e.decision == d && e.asked == asked && d.Storable() && !c.closed
          && Admits(cfg, Raise(c, d.Revision()), key, d, stamp, asked, now))
  {
    if d.Verdict? && !c.closed {
      RaiseInv(cfg, c, d.Revision());
      var c1 := Raise(c, d.Revision());
      assert e in c1.lru ==> e in c.lru by {
        if e in c1.lru {
          var i :| 0 <= i < |c1.lru| && c1.lru[i] == e;
          assert c.lru[i] in c.lru;
        }
      }
      if !d.Storable() {
        BoundShape(Buried(c1, key), cfg.maxEntries);
        assert e in Buried(c1, key).lru;
        PlacedElements(c1.lru, Tomb(EntryFor(c1.lru, key), c1.seqNo + 1));
      } else if Admits(cfg, c1, key, d, stamp, asked, now) {
        BoundShape(Stored(c1, key, d, asked), cfg.maxEntries);
        assert e in Stored(c1, key, d, asked).lru;
        PlacedElements(c1.lru, Entry(key, true, d, asked, EntryFor(c1.lru, key).guard));
      }
    }
  }

  lemma GetLive(cfg: Config, c: Cache, key: Key, now: int, e: Entry)
    requires Inv(cfg, c)
    requires e in Get(cfg, c, key, now).0.lru && e.live
    ensures e in c.lru
  {
    var at := Find(c.lru, key);
    if at.Some? {
      TouchElements(c.lru, at.value, c.lru[at.value]);
    }
  }

  predicate Answers(ev: Event, a: nat, key: Key, d: Decision) {
    ev.Answer? && ev.ask == a && ev.key == key && ev.d == d
  }

  /** The call behind an entry: event m stored it as the answer to the stamp of event a, and nothing
      recorded after that stamp refused its key. */
  predicate Sourced(states: seq<Cache>, events: seq<Event>, i: nat, e: Entry, m: nat, a: nat)
    requires |states| == |events| + 1 && i <= |events|
  {
    && a < m < i
    && events[a].Ask? && e.asked == events[a].now
    && Answers(events[m], a, e.key, e.decision)
    && (forall j :: a < j < i ==> !Refuses(states, events, j, e.key))
  }

  lemma StoredAnswerIsCurrent(cfg: Config, states: seq<Cache>, events: seq<Event>, m: nat, e: Entry)
    requires IsRun(cfg, states, events) && m < |events| && events[m].Answer?
    requires !states[m].closed && events[m].d.Storable()
    requires e.key == events[m].key && e.decision == events[m].d && e.asked == events[events[m].ask].now
    requires Admits(cfg, Raise(states[m], events[m].d.Revision()), e.key, e.decision, states[events[m].ask].seqNo, e.asked, events[m].now)
    ensures Sourced(states, events, m + 1, e, m, events[m].ask)
  {
    var a := events[m].ask;
    forall j | a < j < m + 1 ensures !Refuses(states, events, j, e.key) {
      if j < m && Refuses(states, events, j, e.key) {
        var c1 := Raise(states[m], e.decision.Revision());
        RefusalPersists(cfg, states, events, j, m, e.key);
        RunInv(cfg, states, events, m);
        RaiseInv(cfg, states[m], e.decision.Revision());
        RaiseShields(states[m], e.decision.Revision(), e.key, states[j].seqNo + 1);
        ShieldStops(cfg, c1, e.key, e.decision, states[a].seqNo, e.asked, events[m].now, states[j].seqNo + 1);
        RunGrows(cfg, states, events, a, j);
      }
    }
  }

  /** Every live entry of every reachable state answers a call stamped after the last refusal of its key. */
  lemma {:induction false} LiveEntryIsSourced(cfg: Config, states: seq<Cache>, events: seq<Event>, i: nat, e: Entry)
    requires IsRun(cfg, states, events) && i <= |events|
    requires e in states[i].lru && e.live
    ensures exists m, a :: Sourced(states, events, i, e, m, a)
  {
    if i > 0 {
      var c := states[i - 1];
      RunInv(cfg, states, events, i - 1);
      assert states[i - 1 + 1] == Next(cfg, states, events, i - 1);
      match events[i - 1] {
        case Ask(_) =>
        case Answer(ask, key, d, now) => ObserveLive(cfg, c, key, d, states[ask].seqNo, events[ask].now, now, e);
        case Read(key, now) => GetLive(cfg, c, key, now, e);
        case Invalidation =>
        case Closing =>
      }
      if e in c.lru && !Refuses(states, events, i - 1, e.key) {
        LiveEntryIsSourced(cfg, states, events, i - 1, e);
        var m, a :| Sourced(states, events, i - 1, e, m, a);
        assert Sourced(states, events, i, e, m, a);
      } else {
        StoredAnswerIsCurrent(cfg, states, events, i - 1, e);
      }
    }
  }

  /** The main safety result. A read serves only an allow of the decision point for its own key, whose
      call was stamped within the reuse bound, before the expiry, at the current watermark, and after
      every refusal of the key and every invalidation recorded before the read. */
  lemma ServedAllowIsCurrent(cfg: Config, states: seq<Cache>, events: seq<Event>, n: nat)
    requires IsRun(cfg, states, events) && n < |events| && events[n].Read?
    requires Get(cfg, states[n], events[n].key, events[n].now).1.Some?
    ensures var d := Get(cfg, states[n], events[n].key, events[n].now).1.value;
            exists m, a ::
              && 0 <= a < m < n
              && events[a].Ask? && Answers(events[m], a, events[n].key, d)
              && d.Verdict? && d.allowed && d.cacheable && d.policyRevision == states[n].watermark
              && 0 <= events[n].now - events[a].now < cfg.maxTTL
              && events[n].now < d.expiresAt
              && (forall j :: a < j < n ==> !Refuses(states, events, j, events[n].key))
  {
    var at := Find(states[n].lru, events[n].key);
    var e := states[n].lru[at.value];
    assert e in states[n].lru;
    RunInv(cfg, states, events, n);
    LiveEntryIsSourced(cfg, states, events, n, e);
    var m, a :| Sourced(states, events, n, e, m, a);
  }

  /** The same, read forwards: an allow all of whose answers were stamped before a refusal of its key or an
      invalidation is not served by any read after that record. */
  lemma StaleAllowNeverServed(cfg: Config, states: seq<Cache>, events: seq<Event>, j: nat, n: nat, d: Decision)
    requires IsRun(cfg, states, events) && j < n < |events| && events[n].Read?
    requires Refuses(states, events, j, events[n].key)
    requires forall m :: 0 <= m < n && events[m].Answer? && events[m].key == events[n].key && events[m].d == d ==> events[m].ask < j
    ensures Get(cfg, states[n], events[n].key, events[n].now).1 != Some(d)
  {
    if Get(cfg, states[n], events[n].key, events[n].now).1 == Some(d) {
      ServedAllowIsCurrent(cfg, states, events, n);
    }
  }

  /** When the watermark rises, no entry stored earlier is live any more. */
  lemma RiseClearsEarlierEntries(cfg: Config, states: seq<Cache>, events: seq<Event>, i: nat, e: Entry)
    requires IsRun(cfg, states, events) && i < |events|
    requires states[i].watermark < states[i + 1].watermark
    requires e in states[i + 1].lru && e.live
    ensures e !in states[i].lru && events[i].Answer? && events[i].key == e.key && events[i].d == e.decision
  {
    assert states[i + 1] == Next(cfg, states, events, i);
    RunInv(cfg, states, events, i);
    RunInv(cfg, states, events, i + 1);
    StepGrows(cfg, states, events, i);
    assert e.decision.Revision() == states[i + 1].watermark by { assert EntryOk(e, states[i + 1].seqNo, states[i + 1].watermark); }
    assert forall x :: x in states[i].lru && x.live ==> x.decision.Revision() == states[i].watermark by {
      forall x | x in states[i].lru && x.live ensures x.decision.Revision() == states[i].watermark {
        assert EntryOk(x, states[i].seqNo, states[i].watermark);
      }
    }
    var ev := events[i];
    ObserveLive(cfg, states[i], ev.key, ev.d, states[ev.ask].seqNo, events[ev.ask].now, ev.now, e);
  }
}
