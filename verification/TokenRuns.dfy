/** Every run of Token and Invalidate over any number of callers and slots. */
module TokenRuns {
  import opened Wrappers
  import opened TokenWire
  import opened TokenCheck
  import opened TokenSlots
  import TokenRefinement
  import V = WorkloadVerifier

  /** The slots, and the callers between the two sections of an exchange with the slot each one exchanges for. */
  datatype System = System(slots: map<Key, Slot>, exchanging: map<nat, Key>) {
    function At(key: Key): Slot { if key in slots then slots[key] else EMPTY }
  }

  datatype Event =
    | Begin(caller: nat, key: Key, now: int)
    | Finish(caller: nat, answer: Answer, arrived: int, failed: int, held: int)
    | Invalidation(key: Key)

  /** A caller is in one place at a time, and an exchange answers for the audience it was sent. */
  predicate Enabled(s: System, ev: Event) {
    match ev
    case Begin(caller, _, _) => caller !in s.exchanging
    case Finish(caller, answer, _, _, _) =>
      caller in s.exchanging && (answer.Issued? ==> answer.entry.audience == s.exchanging[caller].audience)
    case Invalidation(_) => true
  }

  function KeyOf(s: System, ev: Event): Key
    requires Enabled(s, ev)
  {
    if ev.Finish? then s.exchanging[ev.caller] else ev.key
  }

  /** The slot the event leaves and, but for an invalidation, the caller's outcome. */
  function Section(env: Env, cfg: Config, s: System, ev: Event): (Slot, Option<Outcome>)
    requires Enabled(s, ev)
  {
    match ev
    case Begin(_, key, now) => var (t, o) := Begun(env, cfg, s.At(key), now); (t, Some(o))
    case Finish(caller, answer, arrived, failed, held) =>
      var (t, o) := Settled(env, cfg, s.At(s.exchanging[caller]), answer, arrived, failed, held); (t, Some(o))
    case Invalidation(key) => (Invalidated(s.At(key)), None)
  }

  function Next(env: Env, cfg: Config, s: System, ev: Event): System
    requires Enabled(s, ev)
  {
    var key, (t, o) := KeyOf(s, ev), Section(env, cfg, s, ev);
    var slots := if ev.Invalidation? && key !in s.slots then s.slots else s.slots[key := t];
    match ev
    case Begin(caller, _, _) => System(slots, if o == Some(Start) then s.exchanging[caller := key] else s.exchanging)
    case Finish(caller, _, _, _, _) => System(slots, s.exchanging - {caller})
    case Invalidation(_) => System(slots, s.exchanging)
  }

  predicate IsRun(env: Env, cfg: Config, states: seq<System>, events: seq<Event>) {
    && cfg.Valid(env)
    && |states| == |events| + 1
    && states[0] == System(map[], map[])
    && (forall i :: 0 <= i < |events| ==> Enabled(states[i], events[i]))
    && (forall i :: 0 <= i < |events| ==> states[i + 1] == Next(env, cfg, states[i], events[i]))
  }

  /** Only the event's own slot changes, to what its section leaves. */
  lemma StepSlots(env: Env, cfg: Config, s: System, ev: Event, key: Key)
    requires Enabled(s, ev)
    ensures Next(env, cfg, s, ev).At(key) == if key == KeyOf(s, ev) then Section(env, cfg, s, ev).0 else s.At(key)
  {
  }

  // ----- one exchange per slot -----

  /** A slot's flight is exactly one caller's exchange. */
  predicate SingleFlight(s: System) {
    && (forall a, b :: a in s.exchanging && b in s.exchanging && s.exchanging[a] == s.exchanging[b] ==> a == b)
    && (forall a :: a in s.exchanging ==> s.At(s.exchanging[a]).flight)
    && (forall key :: key in s.slots && s.slots[key].flight ==> exists a :: a in s.exchanging && s.exchanging[a] == key)
  }

  lemma StepSingleFlight(env: Env, cfg: Config, s: System, ev: Event)
    requires Enabled(s, ev) && SingleFlight(s)
    ensures SingleFlight(Next(env, cfg, s, ev))
  {
    var r, key := Next(env, cfg, s, ev), KeyOf(s, ev);
    forall k | k in r.slots && r.slots[k].flight ensures exists a :: a in r.exchanging && r.exchanging[a] == k {
      StepSlots(env, cfg, s, ev, k);
      if k != key || s.At(k).flight {
        var a :| a in s.exchanging && s.exchanging[a] == k;
        assert a in r.exchanging && r.exchanging[a] == k;
      } else {
        assert r.exchanging[ev.caller] == k;
      }
    }
    forall a | a in r.exchanging ensures r.At(r.exchanging[a]).flight { StepSlots(env, cfg, s, ev, r.exchanging[a]); }
  }

  /** In every reachable state at most one exchange per slot is in flight. */
  lemma {:induction false} AtMostOneExchange(env: Env, cfg: Config, states: seq<System>, events: seq<Event>, i: nat)
    requires IsRun(env, cfg, states, events) && i <= |events|
    ensures SingleFlight(states[i])
  {
    if i > 0 {
      AtMostOneExchange(env, cfg, states, events, i - 1);
      assert states[i - 1 + 1] == Next(env, cfg, states[i - 1], events[i - 1]);
      StepSingleFlight(env, cfg, states[i - 1], events[i - 1]);
    }
  }

  // ----- where a held token comes from -----

  predicate Concerns(states: seq<System>, events: seq<Event>, j: nat, key: Key)
    requires j < |events| && j < |states| && Enabled(states[j], events[j])
  {
    KeyOf(states[j], events[j]) == key
  }

  /** Event j ended an exchange for key with e, which was usable on arrival. */
  predicate Delivers(env: Env, cfg: Config, states: seq<System>, events: seq<Event>, j: nat, key: Key, e: Entry)
    requires j < |events| && j < |states| && Enabled(states[j], events[j])
  {
    && Concerns(states, events, j, key)
    && events[j].Finish? && events[j].answer == Issued(e)
    && CheckToken(env, cfg.check, e, events[j].arrived).Usable?
  }

  /** The key is not invalidated between the events j and i. */
  predicate Untouched(events: seq<Event>, j: nat, i: nat, key: Key)
    requires i <= |events|
  {
    forall m :: j < m < i ==> events[m] != Invalidation(key)
  }

  /** An entry after a step was there before it or is the step's own delivery. */
  lemma HeldStep(env: Env, cfg: Config, s: System, ev: Event, key: Key, e: Entry)
    requires Enabled(s, ev) && Next(env, cfg, s, ev).At(key).entry == Some(e)
    ensures || (s.At(key).entry == Some(e) && ev != Invalidation(key))
            || (KeyOf(s, ev) == key && ev.Finish? && ev.answer == Issued(e) && CheckToken(env, cfg.check, e, ev.arrived).Usable?)
  {
    StepSlots(env, cfg, s, ev, key);
  }

  lemma {:induction false} HeldIsSourced(env: Env, cfg: Config, states: seq<System>, events: seq<Event>, i: nat, key: Key, e: Entry)
      returns (j: nat)
    requires IsRun(env, cfg, states, events) && i <= |events| && states[i].At(key).entry == Some(e)
    ensures j < i && Delivers(env, cfg, states, events, j, key, e) && Untouched(events, j, i, key)
    decreases i
  {
    assert i > 0;
    j := i - 1;
    assert states[j + 1] == Next(env, cfg, states[j], events[j]);
    HeldStep(env, cfg, states[j], events[j], key, e);
    if !Delivers(env, cfg, states, events, j, key, e) {
      j := HeldIsSourced(env, cfg, states, events, i - 1, key, e);
    }
  }

  /** The readings the section takes. */
  function Readings(ev: Event): set<int> {
    match ev
    case Begin(_, _, now) => {now}
    case Finish(_, _, arrived, failed, held) => {arrived, failed, held}
    case Invalidation(_) => {}
  }

  /** Every token handed out was delivered by an exchange for the same slot, not invalidated since, and is
      usable at a reading taken in the same section. */
  lemma ReturnedIsUsable(env: Env, cfg: Config, states: seq<System>, events: seq<Event>, i: nat) returns (e: Entry, now: int, j: nat)
    requires IsRun(env, cfg, states, events) && i < |events|
    requires var o := Section(env, cfg, states[i], events[i]).1; o.Some? && o.value.Token?
    ensures var key := KeyOf(states[i], events[i]);
            && Section(env, cfg, states[i], events[i]).1 == Some(Token(e.token))
            && e.audience == key.audience
            && now in Readings(events[i]) && CheckToken(env, cfg.check, e, now).Usable?
            && j <= i && Delivers(env, cfg, states, events, j, key, e) && Untouched(events, j, i, key)
  {
    var s, ev, key := states[i], events[i], KeyOf(states[i], events[i]);
    assert states[i + 1] == Next(env, cfg, s, ev);
    StepSlots(env, cfg, s, ev, key);
    e := states[i + 1].At(key).entry.value;
    j := HeldIsSourced(env, cfg, states, events, i + 1, key, e);
    now := if ev.Begin? then ev.now else if Complaint(env, cfg, ev.answer, ev.arrived).None? then ev.arrived else ev.held;
  }

  /** Every token handed out is accepted, at a reading of the section that hands it out, by every verifier of
      the same issuer and audience with any legal leeway exactly when its key accepts. */
  lemma ReturnedTokenVerifies(env: Env, cfg: Config, states: seq<System>, events: seq<Event>, i: nat, v: V.Verifier)
      returns (now: int)
    requires env.Lawful() && v.Valid(env) && IsRun(env, cfg, states, events) && i < |events|
    requires var o := Section(env, cfg, states[i], events[i]).1; o.Some? && o.value.Token?
    requires v.issuer == cfg.check.issuer && v.audience == KeyOf(states[i], events[i]).audience
    ensures var token := Section(env, cfg, states[i], events[i]).1.value.token;
            && now in Readings(events[i])
            && V.Contracted(env, token).Some?
            && var (kid, claims) := V.Contracted(env, token).value;
            && (V.KeyAccepts(env, v, token, kid) <==> V.Verify(env, v, token, now) == V.Accepted(claims))
  {
    var e, reading, _ := ReturnedIsUsable(env, cfg, states, events, i);
    now := reading;
    TokenRefinement.UsableTokenVerifies(env, cfg.check, e, now, v);
  }

  // ----- the wait after failures -----

  /** Event j ends an exchange for key without a usable token. */
  predicate Fails(env: Env, cfg: Config, states: seq<System>, events: seq<Event>, j: nat, key: Key)
    requires j < |events| && j < |states| && Enabled(states[j], events[j])
  {
    Concerns(states, events, j, key) && events[j].Finish? && Complaint(env, cfg, events[j].answer, events[j].arrived).Some?
  }

  predicate Starts(env: Env, cfg: Config, states: seq<System>, events: seq<Event>, j: nat, key: Key)
    requires j < |events| && j < |states| && Enabled(states[j], events[j])
  {
    Concerns(states, events, j, key) && Section(env, cfg, states[j], events[j]).1 == Some(Start)
  }

  /** The failures of key before event i since its last success or invalidation. */
  function Streak(env: Env, cfg: Config, states: seq<System>, events: seq<Event>, i: nat, key: Key): nat
    requires IsRun(env, cfg, states, events) && i <= |events|
  {
    if i == 0 then 0
    else if Fails(env, cfg, states, events, i - 1, key) then Streak(env, cfg, states, events, i - 1, key) + 1
    else if Concerns(states, events, i - 1, key) && !events[i - 1].Begin? then 0
    else Streak(env, cfg, states, events, i - 1, key)
  }

  lemma {:induction false} StreakIsCounted(env: Env, cfg: Config, states: seq<System>, events: seq<Event>, i: nat, key: Key)
    requires IsRun(env, cfg, states, events) && i <= |events|
    ensures states[i].At(key).failures == Streak(env, cfg, states, events, i, key)
  {
    if i > 0 {
      StreakIsCounted(env, cfg, states, events, i - 1, key);
      assert states[i - 1 + 1] == Next(env, cfg, states[i - 1], events[i - 1]);
      StepSlots(env, cfg, states[i - 1], events[i - 1], key);
    }
  }

  /** No exchange of key starts and no invalidation of it falls at or after i and before j. */
  predicate Quiet(env: Env, cfg: Config, states: seq<System>, events: seq<Event>, i: nat, j: nat, key: Key)
    requires IsRun(env, cfg, states, events) && j <= |events|
  {
    forall m :: i <= m < j ==> events[m] != Invalidation(key) && !Starts(env, cfg, states, events, m, key)
  }

  /** Between exchanges the slot's wait stands unless the slot is invalidated. */
  lemma RetryStep(env: Env, cfg: Config, s: System, ev: Event, key: Key)
    requires Enabled(s, ev) && SingleFlight(s) && !s.At(key).flight && ev != Invalidation(key)
    requires KeyOf(s, ev) == key ==> Section(env, cfg, s, ev).1 != Some(Start)
    ensures var t := Next(env, cfg, s, ev).At(key); !t.flight && t.retryAt == s.At(key).retryAt
  {
    StepSlots(env, cfg, s, ev, key);
  }

  lemma RetrySet(env: Env, cfg: Config, states: seq<System>, events: seq<Event>, i: nat, key: Key)
    requires IsRun(env, cfg, states, events) && i < |events| && Fails(env, cfg, states, events, i, key)
    ensures !states[i + 1].At(key).flight
    ensures states[i + 1].At(key).retryAt == Some(events[i].failed + Waited(cfg, Streak(env, cfg, states, events, i + 1, key)))
  {
    hide CheckToken;
    assert states[i + 1] == Next(env, cfg, states[i], events[i]);
    StepSlots(env, cfg, states[i], events[i], key);
    StreakIsCounted(env, cfg, states, events, i, key);
  }

  lemma {:induction false} RetryKept(env: Env, cfg: Config, states: seq<System>, events: seq<Event>, i: nat, j: nat, key: Key)
    requires IsRun(env, cfg, states, events) && i <= j <= |events|
    requires !states[i].At(key).flight && Quiet(env, cfg, states, events, i, j, key)
    ensures !states[j].At(key).flight && states[j].At(key).retryAt == states[i].At(key).retryAt
    decreases j
  {
    if i < j {
      RetryKept(env, cfg, states, events, i, j - 1, key);
      AtMostOneExchange(env, cfg, states, events, j - 1);
      assert states[j - 1 + 1] == Next(env, cfg, states[j - 1], events[j - 1]);
      RetryStep(env, cfg, states[j - 1], events[j - 1], key);
    }
  }

  /** After the n-th failure in a row the next exchange of the slot reads the clock at least
      min(floor * 2^(n-1), ceiling) after that failure did, unless the slot is invalidated in between. */
  lemma NextExchangeWaits(env: Env, cfg: Config, states: seq<System>, events: seq<Event>, i: nat, j: nat, key: Key)
    requires IsRun(env, cfg, states, events) && i < j < |events|
    requires Fails(env, cfg, states, events, i, key) && Starts(env, cfg, states, events, j, key)
    requires Quiet(env, cfg, states, events, i + 1, j, key)
    ensures var n := Streak(env, cfg, states, events, i + 1, key);
            n > 0 && events[j].now >= events[i].failed + Min(cfg.floor * Pow2(n - 1), cfg.ceiling)
  {
    RetrySet(env, cfg, states, events, i, key);
    RetryKept(env, cfg, states, events, i + 1, j, key);
    BeginDecides(env, cfg, states[j].At(key), events[j].now);
  }

  lemma MemoryStep(env: Env, cfg: Config, s: System, ev: Event, key: Key)
    requires Enabled(s, ev)
    ensures var before, t := s.At(key), Next(env, cfg, s, ev).At(key);
            if KeyOf(s, ev) != key || ev.Begin? then t.retryAt == before.retryAt && t.lastErr == before.lastErr
            else if ev.Finish? && Complaint(env, cfg, ev.answer, ev.arrived).Some? then
              t.retryAt == Some(ev.failed + Waited(cfg, before.failures + 1)) && t.lastErr == Complaint(env, cfg, ev.answer, ev.arrived)
            else t.retryAt == None && t.lastErr == None
  {
    StepSlots(env, cfg, s, ev, key);
  }

  /** At i the slot remembers event j as its latest failure, if it has one to remember. */
  predicate Remembers(env: Env, cfg: Config, states: seq<System>, events: seq<Event>, i: nat, key: Key, j: nat)
    requires IsRun(env, cfg, states, events) && i <= |events|
  {
    var s, n := states[i].At(key), Streak(env, cfg, states, events, i, key);
    if n == 0 then s.retryAt == None && s.lastErr == None
    else && j < i && Fails(env, cfg, states, events, j, key) && Streak(env, cfg, states, events, j + 1, key) == n
         && s.retryAt == Some(events[j].failed + Min(cfg.floor * Pow2(n - 1), cfg.ceiling))
         && s.lastErr == Complaint(env, cfg, events[j].answer, events[j].arrived)
  }

  lemma RemembersFailure(env: Env, cfg: Config, states: seq<System>, events: seq<Event>, j: nat, key: Key)
    requires IsRun(env, cfg, states, events) && j < |events| && Fails(env, cfg, states, events, j, key)
    ensures Remembers(env, cfg, states, events, j + 1, key, j)
  {
    StreakIsCounted(env, cfg, states, events, j, key);
    assert states[j + 1] == Next(env, cfg, states[j], events[j]);
    MemoryStep(env, cfg, states[j], events[j], key);
  }

  lemma RemembersStill(env: Env, cfg: Config, states: seq<System>, events: seq<Event>, i: nat, key: Key, j: nat)
    requires IsRun(env, cfg, states, events) && i < |events| && !Fails(env, cfg, states, events, i, key)
    requires Remembers(env, cfg, states, events, i, key, j)
    ensures Remembers(env, cfg, states, events, i + 1, key, j)
  {
    assert states[i + 1] == Next(env, cfg, states[i], events[i]);
    MemoryStep(env, cfg, states[i], events[i], key);
  }

  /** The slot remembers exactly its latest failure: none after a success or an invalidation, and otherwise that
      failure's cause and its reading plus the wait for its place in the row. */
  lemma {:induction false} SlotRemembersFailure(env: Env, cfg: Config, states: seq<System>, events: seq<Event>, i: nat, key: Key)
      returns (j: nat)
    requires IsRun(env, cfg, states, events) && i <= |events|
    ensures Remembers(env, cfg, states, events, i, key, j)
    decreases i
  {
    if i == 0 {
      j := 0;
      RemembersNothing(env, cfg, states, events, key);
    } else if Fails(env, cfg, states, events, i - 1, key) {
      j := i - 1;
      RemembersFailure(env, cfg, states, events, j, key);
    } else {
      j := SlotRemembersFailure(env, cfg, states, events, i - 1, key);
      RemembersStill(env, cfg, states, events, i - 1, key, j);
    }
  }

  lemma RemembersNothing(env: Env, cfg: Config, states: seq<System>, events: seq<Event>, key: Key)
    requires IsRun(env, cfg, states, events)
    ensures Remembers(env, cfg, states, events, 0, key, 0)
  {
  }

  // ----- the call after an invalidation -----

  /** Event m ends an exchange for key. */
  predicate Ends(states: seq<System>, events: seq<Event>, m: nat, key: Key)
    requires m < |events| && m < |states| && Enabled(states[m], events[m])
  {
    events[m].Finish? && Concerns(states, events, m, key)
  }

  /** Between the events i and j there is no call and no invalidation of key. */
  predicate Alone(events: seq<Event>, i: nat, j: nat, key: Key)
    requires j <= |events|
  {
    forall m :: i < m < j ==> events[m] != Invalidation(key) && !(events[m].Begin? && events[m].key == key)
  }

  /** What an exchange that was in flight during an invalidation leaves of the slot. */
  function Outlived(env: Env, cfg: Config, ev: Event): Slot
    requires ev.Finish?
  {
    var cause := Complaint(env, cfg, ev.answer, ev.arrived);
    if cause.None? then EMPTY.(entry := Some(ev.answer.entry)) else Slot(None, false, Some(ev.failed + cfg.floor), 1, cause)
  }

  /** Without a call or an invalidation of key only the end of its flight changes the slot. */
  lemma AloneStep(env: Env, cfg: Config, s: System, ev: Event, key: Key)
    requires cfg.Valid(env) && Enabled(s, ev) && SingleFlight(s) && ev != Invalidation(key) && !(ev.Begin? && ev.key == key)
    ensures var ends, t := ev.Finish? && KeyOf(s, ev) == key, Next(env, cfg, s, ev).At(key);
            && (ends ==> s.At(key).flight) && (!ends ==> t == s.At(key))
            && (ends && s.At(key) == EMPTY.(flight := true) ==> t == Outlived(env, cfg, ev))
  {
    hide CheckToken;
    StepSlots(env, cfg, s, ev, key);
    assert cfg.floor * Pow2(0) == cfg.floor;
  }

  /** After an invalidation the slot is empty but for the flight, until that one exchange ends. */
  lemma {:induction false} SlotSinceInvalidation(env: Env, cfg: Config, states: seq<System>, events: seq<Event>, i: nat, j: nat, key: Key)
      returns (m: Option<nat>)
    requires IsRun(env, cfg, states, events) && i < j <= |events|
    requires events[i] == Invalidation(key) && Alone(events, i, j, key)
    ensures m.None? ==> states[j].At(key) == EMPTY.(flight := states[i].At(key).flight)
    ensures m.None? ==> forall k :: i < k < j ==> !Ends(states, events, k, key)
    ensures m.Some? ==> i < m.value < j && Ends(states, events, m.value, key) && states[i].At(key).flight
    ensures m.Some? ==> states[j].At(key) == Outlived(env, cfg, events[m.value])
    ensures m.Some? ==> forall k :: i < k < j && Ends(states, events, k, key) ==> k == m.value
    decreases j
  {
    hide CheckToken, Waited;
    var s, ev := states[j - 1], events[j - 1];
    assert states[j - 1 + 1] == Next(env, cfg, s, ev);
    if j - 1 == i {
      m := None;
      StepSlots(env, cfg, s, ev, key);
    } else {
      hide Next, SingleFlight;
      m := SlotSinceInvalidation(env, cfg, states, events, i, j - 1, key);
      AtMostOneExchange(env, cfg, states, events, j - 1);
      AloneStep(env, cfg, s, ev, key);
      if Ends(states, events, j - 1, key) { m := Some(j - 1); }
    }
  }

  /** The outcome of the first call after an invalidation. With no exchange in flight at the invalidation it
      exchanges; with one still in flight it waits for it; after one that has ended it gets that one's token while
      fresh, fails with that one's cause during its wait, and exchanges otherwise. */
  lemma CallAfterInvalidation(env: Env, cfg: Config, states: seq<System>, events: seq<Event>, i: nat, j: nat, key: Key)
      returns (m: Option<nat>)
    requires IsRun(env, cfg, states, events) && i < j < |events|
    requires events[i] == Invalidation(key) && Alone(events, i, j, key) && events[j].Begin? && events[j].key == key
    ensures m.None? ==> forall k :: i < k < j ==> !Ends(states, events, k, key)
    ensures m.Some? ==> states[i].At(key).flight && i < m.value < j && Ends(states, events, m.value, key)
    ensures var now := events[j].now;
            Section(env, cfg, states[j], events[j]).1 == Some(
              if m.None? then (if states[i].At(key).flight then Wait else Start)
              else var ev := events[m.value]; var cause := Complaint(env, cfg, ev.answer, ev.arrived);
                   if cause.None? then (if Fresh(env, cfg, Some(ev.answer.entry), now) then Token(ev.answer.entry.token) else Start)
                   else if now < ev.failed + cfg.floor then NoUsable(cause) else Start)
  {
    m := SlotSinceInvalidation(env, cfg, states, events, i, j, key);
    if m.None? { InvalidateThenBegin(env, cfg, states[i].At(key), events[j].now); }
  }

  /** The exchange that event ev ended stands in the way of a new one at now: by a fresh token or by its wait. */
  predicate StandsInWay(env: Env, cfg: Config, ev: Event, now: int)
    requires ev.Finish?
  {
    if Complaint(env, cfg, ev.answer, ev.arrived).None? then Fresh(env, cfg, Some(ev.answer.entry), now)
    else now < ev.failed + cfg.floor
  }

  /** The documentation says that the call after an invalidation exchanges. In every run it does so exactly when no
      exchange was in flight at the invalidation, or that exchange has ended and no longer stands in the way. */
  lemma CallAfterInvalidationStarts(env: Env, cfg: Config, states: seq<System>, events: seq<Event>, i: nat, j: nat, key: Key)
    requires IsRun(env, cfg, states, events) && i < j < |events|
    requires events[i] == Invalidation(key) && Alone(events, i, j, key) && events[j].Begin? && events[j].key == key
    ensures Starts(env, cfg, states, events, j, key) <==>
            || !states[i].At(key).flight
            || exists k :: i < k < j && Ends(states, events, k, key) && !StandsInWay(env, cfg, events[k], events[j].now)
  {
    var m := SlotSinceInvalidation(env, cfg, states, events, i, j, key);
    var m1 := CallAfterInvalidation(env, cfg, states, events, i, j, key);
    assert m == m1;
  }

  /** A run in which the call after an invalidation waits for the exchange another caller had begun before it. */
  lemma InvalidatedDuringFlight(env: Env, cfg: Config, key: Key, begun: int, now: int) returns (states: seq<System>, events: seq<Event>)
    requires cfg.Valid(env)
    ensures IsRun(env, cfg, states, events) && events == [Begin(1, key, begun), Invalidation(key), Begin(2, key, now)]
    ensures Section(env, cfg, states[2], events[2]).1 == Some(Wait)
  {
    events := [Begin(1, key, begun), Invalidation(key), Begin(2, key, now)];
    var s0 := System(map[], map[]);
    var s1 := Next(env, cfg, s0, events[0]);
    var s2 := Next(env, cfg, s1, events[1]);
    states := [s0, s1, s2, Next(env, cfg, s2, events[2])];
  }

  /** A run in which the call after an invalidation is handed the token of an exchange begun before it. */
  lemma InvalidatedBeforeAnswer(env: Env, cfg: Config, key: Key, e: Entry, begun: int, arrived: int, now: int)
      returns (states: seq<System>, events: seq<Event>)
    requires cfg.Valid(env) && e.audience == key.audience
    requires UsableAt(env, cfg, Some(e), arrived) && Fresh(env, cfg, Some(e), now)
    ensures IsRun(env, cfg, states, events)
    ensures events == [Begin(1, key, begun), Invalidation(key), Finish(1, Issued(e), arrived, arrived, arrived), Begin(2, key, now)]
    ensures Section(env, cfg, states[3], events[3]).1 == Some(Token(e.token))
  {
    hide CheckToken;
    events := [Begin(1, key, begun), Invalidation(key), Finish(1, Issued(e), arrived, arrived, arrived), Begin(2, key, now)];
    var s0 := System(map[], map[]);
    var s1 := Next(env, cfg, s0, events[0]);
    var s2 := Next(env, cfg, s1, events[1]);
    var s3 := Next(env, cfg, s2, events[2]);
    states := [s0, s1, s2, s3, Next(env, cfg, s3, events[3])];
  }
}
