/** Every run of PublicKey, ResolveKey and Refresh over any number of callers. */
module JwksRuns {
  import opened Wrappers
  import opened TokenWire
  import opened JwksCache

  /** Where a caller stands between two sections; want is the kid it resolves, absent for a plain Refresh. */
  datatype Phase =
    | Refreshing(want: Option<string>)
    | Joined(want: Option<string>, flight: nat)
    | Fetching(want: Option<string>)
    | Refreshed(want: Option<string>)
    | Unserved(kid: string)

  /** Fetches are numbered from one as they start; completed counts those that ended. */
  datatype System = System(cache: Cache, callers: map<nat, Phase>, started: nat, completed: nat)

  datatype Event =
    | Look(caller: nat, kid: string, now: int)
    | Ask(caller: nat)
    | Attempt(caller: nat, now: int)
    | Wake(caller: nat)
    | Complete(caller: nat, answer: Fetched, at: int)
    | LookAgain(caller: nat, now: int)
    | Resolve(caller: nat)
    | Leave(caller: nat)

  predicate Enabled(s: System, ev: Event) {
    var busy := ev.caller in s.callers;
    match ev
    case Look(_, _, _) => !busy
    case Ask(_) => !busy
    case Attempt(c, _) => busy && s.callers[c].Refreshing?
    case Wake(c) => busy && s.callers[c].Joined? && s.callers[c].flight <= s.completed
    case Complete(c, _, _) => busy && s.callers[c].Fetching?
    case LookAgain(c, _) => busy && s.callers[c].Refreshed? && s.callers[c].want.Some?
    case Resolve(c) => busy && s.callers[c].Unserved?
    case Leave(c) => busy && (s.callers[c].Unserved? || (s.callers[c].Refreshed? && s.callers[c].want.None?))
  }

  function Wanted(s: System, ev: Event): string
    requires Enabled(s, ev) && (ev.Look? || ev.LookAgain?)
  {
    if ev.Look? then ev.kid else s.callers[ev.caller].want.value
  }

  /** The key a lookup returns. */
  function Found(cfg: Settings, s: System, ev: Event): Option<Bytes>
    requires Enabled(s, ev) && (ev.Look? || ev.LookAgain?)
  {
    Served(cfg, s.cache, Wanted(s, ev), ev.now, ev.LookAgain?)
  }

  function Next(cfg: Settings, s: System, ev: Event): System
    requires Enabled(s, ev)
  {
    var c := ev.caller;
    match ev
    case Look(_, kid, now) => if Found(cfg, s, ev).Some? then s else s.(callers := s.callers[c := Refreshing(Some(kid))])
    case Ask(_) => s.(callers := s.callers[c := Refreshing(None)])
    case Attempt(_, now) =>
      var want := s.callers[c].want;
      var t := s.(cache := Attempted(cfg, s.cache, now));
      (match Admit(cfg, s.cache, now)
       case Joins => t.(callers := s.callers[c := Joined(want, s.started)])
       case TooSoon => t.(callers := s.callers[c := Refreshed(want)])
       case Fetches => t.(callers := s.callers[c := Fetching(want)], started := s.started + 1))
    case Wake(_) => s.(callers := s.callers[c := Refreshed(s.callers[c].want)])
    case Complete(_, answer, at) =>
      System(Completed(s.cache, answer, at), s.callers[c := Refreshed(s.callers[c].want)], s.started, s.completed + 1)
    case LookAgain(_, now) =>
      s.(callers := if Found(cfg, s, ev).Some? then s.callers - {c} else s.callers[c := Unserved(s.callers[c].want.value)])
    case Resolve(_) => s.(callers := s.callers - {c})
    case Leave(_) => s.(callers := s.callers - {c})
  }

  predicate IsRun(cfg: Settings, states: seq<System>, events: seq<Event>) {
    && cfg.Valid()
    && |states| == |events| + 1
    && states[0] == System(EMPTY, map[], 0, 0)
    && (forall i :: 0 <= i < |events| ==> Enabled(states[i], events[i]))
    && (forall i :: 0 <= i < |events| ==> states[i + 1] == Next(cfg, states[i], events[i]))
  }

  // ----- one fetch at a time -----

  /** A fetch is in flight exactly when one caller runs it. */
  predicate OneFetcher(s: System) {
    && (forall a, b :: a in s.callers && b in s.callers && s.callers[a].Fetching? && s.callers[b].Fetching? ==> a == b)
    && (s.cache.inflight <==> exists a :: a in s.callers && s.callers[a].Fetching?)
  }

  /** Every start but the one in flight has completed, whoever shares a fetch waits for one that started, and a
      caller past its refresh has seen a fetch complete. */
  predicate Counted(s: System) {
    && s.started == s.completed + (if s.cache.inflight then 1 else 0)
    && (s.cache.lastAttempt.Some? <==> s.started > 0)
    && (forall a :: a in s.callers && s.callers[a].Joined? ==> 0 < s.callers[a].flight <= s.started)
    && (forall a :: a in s.callers && (s.callers[a].Refreshed? || s.callers[a].Unserved?) ==> s.completed > 0)
  }

  lemma StepOneFetcher(cfg: Settings, s: System, ev: Event)
    requires Enabled(s, ev) && OneFetcher(s)
    ensures OneFetcher(Next(cfg, s, ev))
  {
    var r, c := Next(cfg, s, ev), ev.caller;
    if r.cache.inflight {
      if s.cache.inflight {
        var a :| a in s.callers && s.callers[a].Fetching?;
        assert a in r.callers && r.callers[a].Fetching?;
      } else {
        assert r.callers[c].Fetching?;
      }
    }
  }

  lemma StepCounted(cfg: Settings, s: System, ev: Event)
    requires Enabled(s, ev) && OneFetcher(s) && Counted(s)
    ensures Counted(Next(cfg, s, ev))
  {
    assert ev.Complete? ==> s.cache.inflight;
  }

  /** In every reachable state no two fetches overlap, and each start but the one in flight has completed. */
  lemma {:induction false} OneFetch(cfg: Settings, states: seq<System>, events: seq<Event>, i: nat)
    requires IsRun(cfg, states, events) && i <= |events|
    ensures OneFetcher(states[i]) && Counted(states[i])
  {
    if i > 0 {
      OneFetch(cfg, states, events, i - 1);
      assert states[i - 1 + 1] == Next(cfg, states[i - 1], events[i - 1]);
      StepOneFetcher(cfg, states[i - 1], events[i - 1]);
      StepCounted(cfg, states[i - 1], events[i - 1]);
    }
  }

  // ----- the floor -----

  /** Event j starts a fetch. */
  predicate Starts(cfg: Settings, states: seq<System>, events: seq<Event>, j: nat)
    requires j < |events| && j < |states|
  {
    events[j].Attempt? && Admit(cfg, states[j].cache, events[j].now).Fetches?
  }

  lemma {:induction false} AttemptRemembered(cfg: Settings, states: seq<System>, events: seq<Event>, i: nat, j: nat)
    requires IsRun(cfg, states, events) && i < j <= |events| && Starts(cfg, states, events, i)
    ensures states[j].cache.lastAttempt.Some? && events[i].now <= states[j].cache.lastAttempt.value
    decreases j
  {
    assert states[j - 1 + 1] == Next(cfg, states[j - 1], events[j - 1]);
    if i < j - 1 { AttemptRemembered(cfg, states, events, i, j - 1); }
  }

  /** Whatever the clock does, a later fetch starts at a reading at least the floor above every earlier start's. */
  lemma StartsAreApart(cfg: Settings, states: seq<System>, events: seq<Event>, i: nat, j: nat)
    requires IsRun(cfg, states, events) && i < j < |events|
    requires Starts(cfg, states, events, i) && Starts(cfg, states, events, j)
    ensures events[j].now - events[i].now >= cfg.floor
  {
    AttemptRemembered(cfg, states, events, i, j);
  }

  /** The readings of the refresh sections never step back. */
  predicate Monotone(events: seq<Event>) {
    forall i, j :: 0 <= i < j < |events| && IsReading(events[i]) && IsReading(events[j]) ==> Reading(events[i]) <= Reading(events[j])
  }

  predicate IsReading(ev: Event) { ev.Attempt? || ev.Complete? }

  function Reading(ev: Event): int
    requires IsReading(ev)
  {
    if ev.Attempt? then ev.now else ev.at
  }

  /** Every recorded reading is an earlier event's. */
  predicate Recorded(events: seq<Event>, i: nat, at: int)
    requires i <= |events|
  {
    exists m :: 0 <= m < i && IsReading(events[m]) && Reading(events[m]) == at
  }

  /** What a section leaves of the state: only a start and an end of a fetch change it. */
  lemma CacheStep(cfg: Settings, s: System, ev: Event)
    requires Enabled(s, ev)
    ensures var c, t := s.cache, Next(cfg, s, ev).cache;
            if ev.Attempt? && Admit(cfg, c, ev.now).Fetches? then t == c.(inflight := true, lastAttempt := Some(ev.now))
            else if ev.Complete? then t == Completed(c, ev.answer, ev.at)
            else t == c
  {
  }

  lemma {:induction false} SuccessAfterAttempt(cfg: Settings, states: seq<System>, events: seq<Event>, i: nat)
    requires IsRun(cfg, states, events) && i <= |events| && Monotone(events)
    ensures var c := states[i].cache;
            && (c.lastAttempt.Some? ==> Recorded(events, i, c.lastAttempt.value))
            && (c.keys.Some? && !c.failed && !c.inflight ==> c.lastAttempt.Some? && c.lastAttempt.value <= c.fetchedAt)
  {
    if i > 0 {
      SuccessAfterAttempt(cfg, states, events, i - 1);
      OneFetch(cfg, states, events, i - 1);
      var p, ev, c := states[i - 1].cache, events[i - 1], states[i].cache;
      assert states[i - 1 + 1] == Next(cfg, states[i - 1], ev);
      hide Next, Found, Admit;
      CacheStep(cfg, states[i - 1], ev);
      if c.lastAttempt.Some? && c.lastAttempt != p.lastAttempt {
        assert IsReading(ev) && Reading(ev) == c.lastAttempt.value;
      }
      if c.lastAttempt.Some? && c.lastAttempt == p.lastAttempt {
        var m :| 0 <= m < i - 1 && IsReading(events[m]) && Reading(events[m]) == c.lastAttempt.value;
        assert ev.Complete? ==> Reading(events[m]) <= Reading(ev);
      }
    }
  }

  /** On a clock that never steps back, a refresh that finds the last document past its TTL, with the latest
      fetch successful, joins a fetch or starts one: the floor never refuses it. */
  lemma ExpiredIsRefreshed(cfg: Settings, states: seq<System>, events: seq<Event>, i: nat)
    requires IsRun(cfg, states, events) && i < |events| && Monotone(events) && events[i].Attempt?
    requires var c := states[i].cache; c.keys.Some? && !c.failed && events[i].now - c.fetchedAt >= cfg.ttl
    ensures !Admit(cfg, states[i].cache, events[i].now).TooSoon?
  {
    SuccessAfterAttempt(cfg, states, events, i);
  }

  // ----- what is served -----

  predicate Succeeds(events: seq<Event>, j: nat)
    requires j < |events|
  {
    events[j].Complete? && events[j].answer.Document?
  }

  /** Event j brought the latest document before event i. */
  predicate Latest(events: seq<Event>, j: nat, i: nat)
    requires i <= |events|
  {
    j < i && Succeeds(events, j) && forall m :: j < m < i ==> !Succeeds(events, m)
  }

  /** Only a fetched document replaces the keys and their time. */
  lemma StepKeys(cfg: Settings, s: System, ev: Event)
    requires Enabled(s, ev)
    ensures var c, t := s.cache, Next(cfg, s, ev).cache;
            if ev.Complete? && ev.answer.Document? then t.keys == Some(ev.answer.keys) && t.fetchedAt == ev.at
            else t.keys == c.keys && t.fetchedAt == c.fetchedAt
  {
  }

  /** The key set is the latest successful document's and none before the first: a failed fetch changes nothing. */
  lemma {:induction false} KeysAreLatest(cfg: Settings, states: seq<System>, events: seq<Event>, i: nat, j: nat)
    requires IsRun(cfg, states, events) && i <= |events|
    ensures Latest(events, j, i) ==> states[i].cache.keys == Some(events[j].answer.keys) && states[i].cache.fetchedAt == events[j].at
    ensures (forall m :: 0 <= m < i ==> !Succeeds(events, m)) ==> states[i].cache.keys == None
  {
    if i > 0 {
      KeysAreLatest(cfg, states, events, i - 1, j);
      assert states[i - 1 + 1] == Next(cfg, states[i - 1], events[i - 1]);
      StepKeys(cfg, states[i - 1], events[i - 1]);
      assert Succeeds(events, i - 1) ==> (Latest(events, j, i) <==> j == i - 1);
    }
  }

  lemma {:induction false} FindLatest(events: seq<Event>, i: nat) returns (j: nat)
    requires i <= |events| && exists m :: 0 <= m < i && Succeeds(events, m)
    ensures Latest(events, j, i)
  {
    if Succeeds(events, i - 1) { j := i - 1; } else { j := FindLatest(events, i - 1); }
  }

  /** Every key a lookup returns stands in the latest successful document, younger than the TTL, or than the
      TTL and the grace after a refresh was tried. */
  lemma ServedKeyIsCurrent(cfg: Settings, states: seq<System>, events: seq<Event>, i: nat) returns (j: nat)
    requires IsRun(cfg, states, events) && i < |events| && (events[i].Look? || events[i].LookAgain?)
    requires Found(cfg, states[i], events[i]).Some?
    ensures Latest(events, j, i)
    ensures var kid := Wanted(states[i], events[i]);
            && kid in events[j].answer.keys && Found(cfg, states[i], events[i]) == Some(events[j].answer.keys[kid])
            && events[i].now - events[j].at < cfg.ttl + (if events[i].LookAgain? then cfg.grace else 0)
  {
    KeysAreLatest(cfg, states, events, i, 0);
    j := FindLatest(events, i);
    KeysAreLatest(cfg, states, events, i, j);
  }

  /** And a key is served: one of the right size in the latest document, at an age the lookup allows. */
  lemma CurrentKeyIsServed(cfg: Settings, states: seq<System>, events: seq<Event>, j: nat, i: nat)
    requires IsRun(cfg, states, events) && i < |events| && Latest(events, j, i)
    requires (events[i].Look? || events[i].LookAgain?) && Wanted(states[i], events[i]) in events[j].answer.keys
    ensures var key := events[j].answer.keys[Wanted(states[i], events[i])];
            Found(cfg, states[i], events[i]) == Some(key) <==>
              |key| == 32 && events[i].now - events[j].at < cfg.ttl + (if events[i].LookAgain? then cfg.grace else 0)
  {
    KeysAreLatest(cfg, states, events, i, j);
  }

  /** A kid missing from the latest document is not served. */
  lemma MissingIsUnserved(cfg: Settings, states: seq<System>, events: seq<Event>, j: nat, i: nat)
    requires IsRun(cfg, states, events) && i < |events| && Latest(events, j, i)
    requires (events[i].Look? || events[i].LookAgain?) && Wanted(states[i], events[i]) !in events[j].answer.keys
    ensures Found(cfg, states[i], events[i]) == None
  {
    KeysAreLatest(cfg, states, events, i, j);
  }

  // ----- what unknown means -----

  /** Event j is the latest completed fetch before event i. */
  predicate LastCompleted(events: seq<Event>, j: nat, i: nat)
    requires i <= |events|
  {
    j < i && events[j].Complete? && forall m :: j < m < i ==> !events[m].Complete?
  }

  lemma {:induction false} FindCompleted(cfg: Settings, states: seq<System>, events: seq<Event>, i: nat) returns (j: nat)
    requires IsRun(cfg, states, events) && i <= |events| && states[i].completed > 0
    ensures LastCompleted(events, j, i) && (states[i].cache.failed <==> events[j].answer.Failure?)
  {
    assert i > 0;
    assert states[i - 1 + 1] == Next(cfg, states[i - 1], events[i - 1]);
    if events[i - 1].Complete? { j := i - 1; } else { j := FindCompleted(cfg, states, events, i - 1); }
  }

  /** The last section of ResolveKey: the kid is unknown, rather than the keys unavailable. */
  predicate SaysUnknown(s: System, ev: Event)
    requires Enabled(s, ev) && ev.Resolve?
  {
    !s.cache.failed
  }

  /** ResolveKey answers after a fetch has completed: unknown when the latest completed one brought a document,
      unavailable when it failed. */
  lemma UnknownMeansFetched(cfg: Settings, states: seq<System>, events: seq<Event>, i: nat) returns (j: nat)
    requires IsRun(cfg, states, events) && i < |events| && events[i].Resolve?
    ensures LastCompleted(events, j, i)
    ensures SaysUnknown(states[i], events[i]) <==> events[j].answer.Document?
  {
    OneFetch(cfg, states, events, i);
    j := FindCompleted(cfg, states, events, i);
  }

  // ----- the course of a call -----

  /** A lookup that finds the key ends the call; the first one that does not sends the caller to refresh, the second
      leaves it without a key. */
  lemma LookDecides(cfg: Settings, s: System, ev: Event)
    requires Enabled(s, ev) && (ev.Look? || ev.LookAgain?)
    ensures var callers := Next(cfg, s, ev).callers;
            && (ev.caller in callers <==> Found(cfg, s, ev).None?)
            && (ev.Look? && ev.caller in callers ==> callers[ev.caller] == Refreshing(Some(ev.kid)))
            && (ev.LookAgain? && ev.caller in callers ==> callers[ev.caller] == Unserved(Wanted(s, ev)))
  {
  }

  /** Event l of the caller looked for kid and found nothing. */
  predicate Missed(cfg: Settings, states: seq<System>, events: seq<Event>, l: nat, caller: nat, kid: string)
    requires l < |events| && l < |states| && Enabled(states[l], events[l])
  {
    && (events[l].Look? || events[l].LookAgain?) && events[l].caller == caller
    && Wanted(states[l], events[l]) == kid && Found(cfg, states[l], events[l]).None?
  }

  /** The caller missed kid at l, asked for a refresh at a and missed it again at g. */
  predicate Tried(cfg: Settings, states: seq<System>, events: seq<Event>, caller: nat, kid: string, l: nat, a: nat, g: nat)
    requires g < |events| && g < |states| && forall i :: 0 <= i < |events| && i < |states| ==> Enabled(states[i], events[i])
  {
    && l < a < g && Missed(cfg, states, events, l, caller, kid) && Missed(cfg, states, events, g, caller, kid)
    && events[a].Attempt? && events[a].caller == caller
  }

  predicate Waiting(p: Phase, kid: string) { (p.Joined? || p.Fetching? || p.Refreshed?) && p.want == Some(kid) }

  lemma PhaseStep(cfg: Settings, s: System, ev: Event, caller: nat)
    requires Enabled(s, ev) && ev.caller != caller
    ensures caller in Next(cfg, s, ev).callers <==> caller in s.callers
    ensures caller in s.callers ==> Next(cfg, s, ev).callers[caller] == s.callers[caller]
  {
  }

  /** A caller that refreshes for a kid missed it. */
  lemma {:induction false} RefreshingMissed(cfg: Settings, states: seq<System>, events: seq<Event>, i: nat, caller: nat, kid: string) returns (l: nat)
    requires IsRun(cfg, states, events) && i <= |events| && caller in states[i].callers && states[i].callers[caller] == Refreshing(Some(kid))
    ensures l < i && Missed(cfg, states, events, l, caller, kid)
    decreases i
  {
    l := i - 1;
    assert states[l + 1] == Next(cfg, states[l], events[l]);
    if events[l].caller != caller {
      PhaseStep(cfg, states[l], events[l], caller);
      l := RefreshingMissed(cfg, states, events, i - 1, caller, kid);
    } else {
      if events[l].Look? { LookDecides(cfg, states[l], events[l]); }
    }
  }

  lemma {:induction false} WaitingAsked(cfg: Settings, states: seq<System>, events: seq<Event>, i: nat, caller: nat, kid: string) returns (l: nat, a: nat)
    requires IsRun(cfg, states, events) && i <= |events| && caller in states[i].callers && Waiting(states[i].callers[caller], kid)
    ensures l < a < i && Missed(cfg, states, events, l, caller, kid) && events[a].Attempt? && events[a].caller == caller
    decreases i
  {
    a := i - 1;
    assert states[a + 1] == Next(cfg, states[a], events[a]);
    if events[a].caller != caller {
      PhaseStep(cfg, states[a], events[a], caller);
      l, a := WaitingAsked(cfg, states, events, i - 1, caller, kid);
    } else if events[a].Attempt? {
      l := RefreshingMissed(cfg, states, events, a, caller, kid);
    } else {
      l, a := WaitingAsked(cfg, states, events, i - 1, caller, kid);
    }
  }

  lemma {:induction false} UnservedTried(cfg: Settings, states: seq<System>, events: seq<Event>, i: nat, caller: nat, kid: string)
      returns (l: nat, a: nat, g: nat)
    requires IsRun(cfg, states, events) && i <= |events| && caller in states[i].callers && states[i].callers[caller] == Unserved(kid)
    ensures g < i && Tried(cfg, states, events, caller, kid, l, a, g)
    decreases i
  {
    g := i - 1;
    assert states[g + 1] == Next(cfg, states[g], events[g]);
    if events[g].caller != caller {
      PhaseStep(cfg, states[g], events[g], caller);
      l, a, g := UnservedTried(cfg, states, events, i - 1, caller, kid);
    } else {
      l, a := WaitingAsked(cfg, states, events, g, caller, kid);
    }
  }

  /** ResolveKey answers without a key only after it looked for the kid, asked for a refresh, and looked again. */
  lemma ResolvedAfterRefresh(cfg: Settings, states: seq<System>, events: seq<Event>, i: nat) returns (l: nat, a: nat, g: nat)
    requires IsRun(cfg, states, events) && i < |events| && events[i].Resolve?
    ensures g < i && Tried(cfg, states, events, events[i].caller, states[i].callers[events[i].caller].kid, l, a, g)
  {
    l, a, g := UnservedTried(cfg, states, events, i, events[i].caller, states[i].callers[events[i].caller].kid);
  }
}
