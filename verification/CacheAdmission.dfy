/** When an allow is stored: exactly, over every run, in terms of the events before it. */
module CacheAdmission {
  import opened Wrappers
  import opened DecisionCache
  import opened CacheInvariant
  import opened CacheRuns
  import opened CacheRecency

  /** Event j records a verdict that is no cacheable allow, which leaves a tombstone. */
  predicate Buries(states: seq<Cache>, events: seq<Event>, j: nat)
    requires j < |events| && j < |states|
  {
    Records(states, events, j) && !(events[j].d.allowed && events[j].d.cacheable)
  }

  /** Event k drops key from a full list. */
  predicate Evicts(states: seq<Cache>, events: seq<Event>, k: nat, key: Key)
    requires k < |events| && |states| == |events| + 1
  {
    Holds(states[k].lru, key) && !Holds(states[k + 1].lru, key) && !Clears(events[k])
  }

  /** A tombstone left after event a is evicted before event m. */
  predicate LosesTombstone(states: seq<Cache>, events: seq<Event>, a: nat, m: nat)
    requires m <= |events| && |states| == |events| + 1
  {
    exists j, k :: a < j < k < m && Buries(states, events, j) && Evicts(states, events, k, events[j].key)
  }

  /** The answer m is of the newest revision so far, young and unexpired, and since its stamp its key was not refused,
      nothing was invalidated and no tombstone was lost. */
  predicate Deserves(cfg: Config, states: seq<Cache>, events: seq<Event>, m: nat)
    requires IsRun(cfg, states, events) && m < |events| && Records(states, events, m)
  {
    var a, d := events[m].ask, events[m].d;
    && (forall k :: 0 <= k < m && Records(states, events, k) ==> events[k].d.policyRevision <= d.policyRevision)
    && 0 <= events[m].now - events[a].now < cfg.maxTTL && events[m].now < d.expiresAt
    && (forall j :: a < j < m ==> !Refuses(states, events, j, events[m].key))
    && !LosesTombstone(states, events, a, m)
  }

  // ----- where the last flush, a guard and the floor come from -----

  /** The number is zero or was given by the event j, which is after a only if it exceeds a's stamp. */
  lemma NumberedBefore(cfg: Config, states: seq<Cache>, events: seq<Event>, j: nat, a: nat, key: Key)
    requires IsRun(cfg, states, events) && j < |events| && a < |events| && events[a].Ask? && Refuses(states, events, j, key)
    ensures states[j].seqNo + 1 <= states[a].seqNo <==> j < a
  {
    if j < a {
      StepSeq(cfg, states, events, j, key);
      RunGrows(cfg, states, events, j + 1, a);
    } else {
      RunGrows(cfg, states, events, a, j);
    }
  }

  lemma ObserveFlush(cfg: Config, c: Cache, key: Key, d: Decision, stamp: nat, asked: int, now: int)
    ensures Observe(cfg, c, key, d, stamp, asked, now).lastFlush == c.lastFlush
  {
    if d.Verdict? && !c.closed {
      var c1 := Raise(c, d.Revision());
      BoundShape(Buried(c1, key), cfg.maxEntries);
      BoundShape(Stored(c1, key, d, asked), cfg.maxEntries);
    }
  }

  lemma {:induction false} FlushSource(cfg: Config, states: seq<Cache>, events: seq<Event>, i: nat)
    requires IsRun(cfg, states, events) && i <= |events|
    ensures states[i].lastFlush == 0 ||
            exists j :: 0 <= j < i && events[j].Invalidation? && !states[j].closed && states[i].lastFlush == states[j].seqNo + 1
  {
    if i > 0 {
      FlushSource(cfg, states, events, i - 1);
      assert states[i - 1 + 1] == Next(cfg, states, events, i - 1);
      match events[i - 1]
      case Answer(ask, key, d, now) => ObserveFlush(cfg, states[i - 1], key, d, states[ask].seqNo, events[ask].now, now);
      case _ =>
    }
  }

  /** The guard g of key is zero or was given by an event that buried the key. */
  predicate Guarded(states: seq<Cache>, events: seq<Event>, i: nat, key: Key, g: nat)
    requires i <= |events| && |states| == |events| + 1
  {
    g == 0 || exists j :: 0 <= j < i && Buries(states, events, j) && events[j].key == key && g == states[j].seqNo + 1
  }

  /** Every entry of the list has the guard of an entry for its key in the other list, or of a new burial. */
  lemma RaiseGuard(c: Cache, revision: nat, e: Entry)
    requires e in Raise(c, revision).lru
    ensures exists x :: x in c.lru && x.key == e.key && x.guard == e.guard
  {
    var i :| 0 <= i < |Raise(c, revision).lru| && Raise(c, revision).lru[i] == e;
    assert c.lru[i] in c.lru && c.lru[i].key == e.key && c.lru[i].guard == e.guard;
  }

  /** The list before the bound: what an observation that places an entry makes of it. */
  function Overfull(c: Cache, key: Key, d: Decision, asked: int): Cache {
    var c1 := Raise(c, d.Revision());
    if d.Storable() then Stored(c1, key, d, asked) else Buried(c1, key)
  }

  lemma OverfullGuard(cfg: Config, c: Cache, key: Key, d: Decision, asked: int, e: Entry)
    requires Inv(cfg, c) && e in Overfull(c, key, d, asked).lru
    ensures (exists x :: x in c.lru && x.key == e.key && x.guard == e.guard) || (e.key == key && (e.guard == 0 || (!d.Storable() && e.guard == c.seqNo + 1)))
    ensures e.key != key ==> exists x :: x in c.lru && x.key == e.key && x.guard == e.guard
  {
    var c1 := Raise(c, d.Revision());
    RaiseInv(cfg, c, d.Revision());
    var was := EntryFor(c1.lru, key);
    var placed := if d.Storable() then Entry(key, true, d, asked, was.guard) else Tomb(was, c1.seqNo + 1);
    PlacedElements(c1.lru, placed);
    if e == placed {
      if d.Storable() && Find(c1.lru, key).Some? { assert was in c1.lru; RaiseGuard(c, d.Revision(), was); }
    } else {
      RaiseGuard(c, d.Revision(), e);
    }
  }

  lemma {:induction false} GuardSource(cfg: Config, states: seq<Cache>, events: seq<Event>, i: nat, e: Entry)
    requires IsRun(cfg, states, events) && i <= |events| && e in states[i].lru
    ensures Guarded(states, events, i, e.key, e.guard)
    decreases i
  {
    if i > 0 {
      var k := i - 1;
      GuardStep(cfg, states, events, k, e);
      if x :| x in states[k].lru && x.key == e.key && x.guard == e.guard {
        GuardSource(cfg, states, events, k, x);
      } else if e.guard > 0 {
        assert Buries(states, events, k) && events[k].key == e.key && e.guard == states[k].seqNo + 1;
      }
    }
  }

  lemma ReadGuard(cfg: Config, c: Cache, key: Key, now: int, e: Entry)
    requires Inv(cfg, c) && e in Get(cfg, c, key, now).0.lru
    ensures exists x :: x in c.lru && x.key == e.key && x.guard == e.guard
  {
    hide Fresh;
    var at := Find(c.lru, key);
    if at.Some? { TouchElements(c.lru, at.value, c.lru[at.value]); }
    if e !in c.lru { assert c.lru[at.value] in c.lru; }
  }

  lemma RecordedGuard(cfg: Config, c: Cache, key: Key, d: Decision, stamp: nat, asked: int, now: int, e: Entry)
    requires Inv(cfg, c) && d.Verdict? && !c.closed && e in Observe(cfg, c, key, d, stamp, asked, now).lru
    ensures || (exists x :: x in c.lru && x.key == e.key && x.guard == e.guard)
            || (e.key == key && (e.guard == 0 || (!d.Storable() && e.guard == c.seqNo + 1)))
  {
    hide Fresh, Find, Bound;
    var full := Overfull(c, key, d, asked);
    BoundShape(full, cfg.maxEntries);
    if e in full.lru {
      OverfullGuard(cfg, c, key, d, asked, e);
    } else {
      RaiseGuard(c, d.Revision(), e);
    }
  }

  lemma GuardStep(cfg: Config, states: seq<Cache>, events: seq<Event>, k: nat, e: Entry)
    requires IsRun(cfg, states, events) && k < |events| && e in states[k + 1].lru
    ensures || (exists x :: x in states[k].lru && x.key == e.key && x.guard == e.guard)
            || e.guard == 0
            || (Buries(states, events, k) && events[k].key == e.key && e.guard == states[k].seqNo + 1)
  {
    hide Fresh, Find, Bound;
    RunInv(cfg, states, events, k);
    assert states[k + 1] == Next(cfg, states, events, k);
    match events[k]
    case Ask(_) =>
    case Answer(ask, key, d, now) =>
      if Records(states, events, k) { RecordedGuard(cfg, states[k], key, d, states[ask].seqNo, events[ask].now, now, e); }
    case Read(key, now) => ReadGuard(cfg, states[k], key, now, e);
    case Invalidation =>
    case Closing =>
  }

  /** The floor g is zero or the guard of an evicted tombstone. */
  predicate Floored(states: seq<Cache>, events: seq<Event>, i: nat, g: nat)
    requires i <= |events| && |states| == |events| + 1
  {
    g == 0 || exists j, k :: 0 <= j < k < i && Buries(states, events, j) && Evicts(states, events, k, events[j].key) && g == states[j].seqNo + 1
  }

  lemma OverfullShape(cfg: Config, c: Cache, key: Key, d: Decision, asked: int)
    requires Inv(cfg, c)
    ensures var full := Overfull(c, key, d, asked); DistinctKeys(full.lru) && full.lru != [] && full.lru[0].key == key
  {
    hide Fresh, Find;
    var c1 := Raise(c, d.Revision());
    RaiseInv(cfg, c, d.Revision());
    var was := EntryFor(c1.lru, key);
    PlacedElements(c1.lru, if d.Storable() then Entry(key, true, d, asked, was.guard) else Tomb(was, c1.seqNo + 1));
  }

  lemma DroppedIsOut(c: Cache, bound: nat, i: nat)
    requires DistinctKeys(c.lru) && Kept(c, bound) <= i < |c.lru|
    ensures !Holds(Bound(c, bound).lru, c.lru[i].key)
  {
    BoundShape(c, bound);
  }

  /** An entry dropped by the bound was in the list before, and its key is out after. */
  lemma DroppedWasHeld(cfg: Config, c: Cache, key: Key, d: Decision, asked: int, e: Entry)
    requires cfg.Valid() && Inv(cfg, c) && e in Overfull(c, key, d, asked).lru[Kept(Overfull(c, key, d, asked), cfg.maxEntries)..]
    ensures exists x :: x in c.lru && x.key == e.key && x.guard == e.guard
    ensures !Holds(Bound(Overfull(c, key, d, asked), cfg.maxEntries).lru, e.key)
  {
    hide Overfull, Bound;
    var full := Overfull(c, key, d, asked);
    OverfullShape(cfg, c, key, d, asked);
    var i :| Kept(full, cfg.maxEntries) <= i < |full.lru| && full.lru[i] == e;
    assert full.lru[0].key != full.lru[i].key && e in full.lru;
    DroppedIsOut(full, cfg.maxEntries, i);
    OverfullGuard(cfg, c, key, d, asked, e);
  }

  lemma FullFloor(cfg: Config, c: Cache, key: Key, d: Decision, asked: int)
    requires Inv(cfg, c) && d.Verdict? && !c.closed
    ensures var full := Overfull(c, key, d, asked);
            var floor := Bound(full, cfg.maxEntries).floor;
            floor == c.floor || exists e :: e in full.lru[Kept(full, cfg.maxEntries)..] && e.guard == floor
  {
    hide Fresh, Find, Bound;
    var full, top := Overfull(c, key, d, asked), c.seqNo + 1;
    forall e | e in full.lru ensures e.guard <= top {
      OverfullGuard(cfg, c, key, d, asked, e);
      if x :| x in c.lru && x.key == e.key && x.guard == e.guard { assert EntryOk(x, c.seqNo, c.watermark); }
    }
    BoundFloor(full, cfg.maxEntries, top);
  }

  lemma RecordedFloor(cfg: Config, c: Cache, key: Key, d: Decision, stamp: nat, asked: int, now: int)
    requires cfg.Valid() && Inv(cfg, c) && d.Verdict? && !c.closed
    ensures var r := Observe(cfg, c, key, d, stamp, asked, now);
            r.floor == c.floor || exists x :: x in c.lru && x.guard == r.floor && !Holds(r.lru, x.key)
  {
    hide Fresh, Find, Bound;
    var full, r := Overfull(c, key, d, asked), Observe(cfg, c, key, d, stamp, asked, now);
    if r.floor != c.floor {
      FullFloor(cfg, c, key, d, asked);
      assert r == Bound(full, cfg.maxEntries);
      var e :| e in full.lru[Kept(full, cfg.maxEntries)..] && e.guard == r.floor;
      DroppedWasHeld(cfg, c, key, d, asked, e);
    }
  }

  lemma FloorStep(cfg: Config, states: seq<Cache>, events: seq<Event>, k: nat)
    requires IsRun(cfg, states, events) && k < |events|
    ensures states[k + 1].floor == states[k].floor || exists x :: x in states[k].lru && x.guard == states[k + 1].floor && Evicts(states, events, k, x.key)
  {
    hide Fresh, Find, Bound, Raise;
    RunInv(cfg, states, events, k);
    assert states[k + 1] == Next(cfg, states, events, k);
    if Records(states, events, k) && states[k + 1].floor != states[k].floor {
      var ev := events[k];
      RecordedFloor(cfg, states[k], ev.key, ev.d, states[ev.ask].seqNo, events[ev.ask].now, ev.now);
      var x :| x in states[k].lru && x.guard == states[k + 1].floor && !Holds(states[k + 1].lru, x.key);
      assert Evicts(states, events, k, x.key);
    }
  }

  lemma {:induction false} FloorSource(cfg: Config, states: seq<Cache>, events: seq<Event>, i: nat)
    requires IsRun(cfg, states, events) && i <= |events|
    ensures Floored(states, events, i, states[i].floor)
  {
    if i > 0 {
      var k := i - 1;
      FloorSource(cfg, states, events, k);
      FloorStep(cfg, states, events, k);
      if states[i].floor != states[k].floor {
        var x :| x in states[k].lru && x.guard == states[i].floor && Evicts(states, events, k, x.key);
        GuardSource(cfg, states, events, k, x);
      }
    }
  }

  // ----- the answer that is stored -----

  lemma {:induction false} ShieldsGrow(cfg: Config, states: seq<Cache>, events: seq<Event>, i: nat, n: nat)
    requires IsRun(cfg, states, events) && i <= n <= |events|
    ensures states[i].lastFlush <= states[n].lastFlush && states[i].floor <= states[n].floor
    decreases n
  {
    if i < n {
      ShieldsGrow(cfg, states, events, i, n - 1);
      RunInv(cfg, states, events, n - 1);
      assert states[n - 1 + 1] == Next(cfg, states, events, n - 1);
      match events[n - 1]
      case Answer(ask, key, d, now) =>
        ObserveFlush(cfg, states[n - 1], key, d, states[ask].seqNo, events[ask].now, now);
        ObserveFloor(cfg, states[n - 1], key, d, states[ask].seqNo, events[ask].now, now);
      case _ =>
    }
  }

  lemma ObserveFloor(cfg: Config, c: Cache, key: Key, d: Decision, stamp: nat, asked: int, now: int)
    requires Inv(cfg, c)
    ensures c.floor <= Observe(cfg, c, key, d, stamp, asked, now).floor
  {
    hide Fresh, Find, Bound;
    if d.Verdict? && !c.closed {
      var full, top := Overfull(c, key, d, asked), c.seqNo + 1;
      forall e | e in full.lru ensures e.guard <= top {
        OverfullGuard(cfg, c, key, d, asked, e);
        if x :| x in c.lru && x.key == e.key && x.guard == e.guard { assert EntryOk(x, c.seqNo, c.watermark); }
      }
      BoundFloor(full, cfg.maxEntries, top);
    }
  }

  lemma RaiseKeepsGuard(c: Cache, revision: nat, key: Key)
    ensures EntryFor(Raise(c, revision).lru, key).guard == EntryFor(c.lru, key).guard
    ensures Raise(c, revision).lastFlush == c.lastFlush && Raise(c, revision).floor == c.floor
  {
    RaiseKeys(c, revision);
  }

  /** A tombstone lost since the stamp leaves a floor or a flush above it. */
  lemma LostTombstoneBlocks(cfg: Config, states: seq<Cache>, events: seq<Event>, a: nat, m: nat)
    requires IsRun(cfg, states, events) && a < m < |events| && events[a].Ask? && !states[m].closed
    requires LosesTombstone(states, events, a, m)
    ensures states[a].seqNo < states[m].lastFlush || states[a].seqNo < states[m].floor
  {
    var j, k :| a < j < k < m && Buries(states, events, j) && Evicts(states, events, k, events[j].key);
    var key := events[j].key;
    RefusalPersists(cfg, states, events, j, k + 1, key);
    RunGrows(cfg, states, events, k + 1, m);
    RunGrows(cfg, states, events, a, j);
    ShieldsGrow(cfg, states, events, k + 1, m);
    assert forall e :: e in states[k + 1].lru ==> e.key != key;
  }

  lemma NoFlushSince(cfg: Config, states: seq<Cache>, events: seq<Event>, a: nat, m: nat, key: Key)
    requires IsRun(cfg, states, events) && a < m < |events| && events[a].Ask?
    requires forall j :: a < j < m ==> !Refuses(states, events, j, key)
    ensures states[m].lastFlush <= states[a].seqNo && EntryFor(states[m].lru, key).guard <= states[a].seqNo
  {
    FlushSource(cfg, states, events, m);
    if j :| 0 <= j < m && events[j].Invalidation? && !states[j].closed && states[m].lastFlush == states[j].seqNo + 1 {
      assert Refuses(states, events, j, key);
      NumberedBefore(cfg, states, events, j, a, key);
    }
    var e := EntryFor(states[m].lru, key);
    if Find(states[m].lru, key).Some? {
      assert e in states[m].lru;
      GuardSource(cfg, states, events, m, e);
      if e.guard > 0 {
        var j :| 0 <= j < m && Buries(states, events, j) && events[j].key == key && e.guard == states[j].seqNo + 1;
        assert Refuses(states, events, j, key);
        NumberedBefore(cfg, states, events, j, a, key);
      }
    }
  }

  lemma NoFloorSince(cfg: Config, states: seq<Cache>, events: seq<Event>, a: nat, m: nat)
    requires IsRun(cfg, states, events) && a < m < |events| && events[a].Ask? && !LosesTombstone(states, events, a, m)
    ensures states[m].floor <= states[a].seqNo
  {
    FloorSource(cfg, states, events, m);
    if states[m].floor > 0 {
      var j, k :| 0 <= j < k < m && Buries(states, events, j) && Evicts(states, events, k, events[j].key) && states[m].floor == states[j].seqNo + 1;
      assert Refuses(states, events, j, events[j].key);
      NumberedBefore(cfg, states, events, j, a, events[j].key);
    }
  }

  /** The code's tests of an answer, on the numbers it keeps, are exactly what the answer deserves by the run. */
  lemma AdmittedExactly(cfg: Config, states: seq<Cache>, events: seq<Event>, m: nat)
    requires IsRun(cfg, states, events) && m < |events| && Records(states, events, m)
    requires events[m].d.allowed && events[m].d.cacheable
    ensures var a, d := events[m].ask, events[m].d;
            Admits(cfg, Raise(states[m], d.Revision()), events[m].key, d, states[a].seqNo, events[a].now, events[m].now) <==> Deserves(cfg, states, events, m)
  {
    hide Next, LosesTombstone, Find;
    var a, d, key, now := events[m].ask, events[m].d, events[m].key, events[m].now;
    var c := Raise(states[m], d.Revision());
    RunInv(cfg, states, events, m);
    RaiseInv(cfg, states[m], d.Revision());
    RaiseKeepsGuard(states[m], d.Revision(), key);
    WatermarkIsMaximum(cfg, states, events, m);
    if Admits(cfg, c, key, d, states[a].seqNo, events[a].now, now) {
      StoredAnswerIsCurrent(cfg, states, events, m, Entry(key, true, d, events[a].now, 0));
      if LosesTombstone(states, events, a, m) { LostTombstoneBlocks(cfg, states, events, a, m); }
    }
    if Deserves(cfg, states, events, m) {
      NoFlushSince(cfg, states, events, a, m, key);
      NoFloorSince(cfg, states, events, a, m);
    }
  }

  /** The list keeps its order and gains no live entry. */
  predicate StoresNothing(c: Cache, r: Cache) {
    Keys(r.lru) == Keys(c.lru) && forall e :: e in r.lru && e.live ==> e in c.lru
  }

  /** In every run, a cacheable allow recorded while the cache is open leads the list as the answer to its stamp when
      it deserves to, and is not stored otherwise. */
  lemma StoredExactly(cfg: Config, states: seq<Cache>, events: seq<Event>, m: nat)
    requires IsRun(cfg, states, events) && m < |events| && Records(states, events, m)
    requires events[m].d.allowed && events[m].d.cacheable
    ensures Deserves(cfg, states, events, m) ==> Leads(states[m + 1], events[m].key, events[m].d, events[events[m].ask].now)
    ensures !Deserves(cfg, states, events, m) ==> StoresNothing(states[m], states[m + 1])
    ensures Deserves(cfg, states, events, m) <==> Gives(cfg, states, events, m, events[m].key, events[m].d)
  {
    hide Deserves, Find, Bound, Fresh;
    var a, d, key := events[m].ask, events[m].d, events[m].key;
    AdmittedExactly(cfg, states, events, m);
    assert states[m + 1] == Next(cfg, states, events, m);
    if Deserves(cfg, states, events, m) {
      StoredInFront(cfg, states[m], key, d, states[a].seqNo, events[a].now, events[m].now);
    } else {
      RaiseStoresNothing(cfg, states, events, m, d.Revision());
    }
  }

  lemma RaiseStoresNothing(cfg: Config, states: seq<Cache>, events: seq<Event>, m: nat, revision: nat)
    requires IsRun(cfg, states, events) && m <= |events|
    ensures StoresNothing(states[m], Raise(states[m], revision))
  {
    var c := states[m];
    RaiseKeys(c, revision);
    forall e | e in Raise(c, revision).lru && e.live ensures e in c.lru {
      var i :| 0 <= i < |c.lru| && Raise(c, revision).lru[i] == e;
      assert c.lru[i] in c.lru;
    }
  }
}
