/** When a held token is handed out and when it is exchanged again, by its own times and the claims in it. */
module TokenRefresh {
  import opened Wrappers
  import opened TokenWire
  import opened TokenCheck
  import opened TokenSlots
  import opened TokenRuns
  import TokenRefinement
  import V = WorkloadVerifier

  /** The dates the client reads from the token of an entry, if its shape and claims are right. */
  function DatesOf(env: Env, cfg: Config, e: Entry): Option<Dates> {
    if |e.token| <= 8192 && WorkloadTokenShape(env, e.token) then TokenClaims(env, e.token, cfg.check.issuer, e.audience) else None
  }

  /** The reading is at or after nbf, and by the margin before exp and before the lifetime counted from sending ends. */
  predicate Within(cfg: Config, e: Entry, nbf: int, exp: int, now: int) {
    && nbf * 1_000_000_000 <= now
    && now < e.sent + e.lifetime - cfg.check.margin && now < exp * 1_000_000_000 - cfg.check.margin
  }

  /** The refresh point, the given fraction of the lifetime after sending, lies ahead. */
  predicate Early(cfg: Config, e: Entry, now: int) {
    now < e.sent + ((e.lifetime as real) * cfg.check.fraction).Floor
  }

  /** What a call gets from a slot that holds a good token, an early one, or neither. */
  function Got(s: Slot, good: bool, early: bool, now: int): Outcome
    requires good ==> s.entry.Some?
  {
    if good && early then Token(s.entry.value.token)
    else if s.flight then (if good then Token(s.entry.value.token) else Wait)
    else if s.retryAt.Some? && now < s.retryAt.value then (if good then Token(s.entry.value.token) else NoUsable(s.lastErr))
    else Start
  }

  lemma CheckByDates(env: Env, cfg: Config, e: Entry, now: int)
    ensures UsableAt(env, cfg, Some(e), now) <==>
            var dates := DatesOf(env, cfg, e); dates.Some? && Within(cfg, e, dates.value.nbf, dates.value.exp, now)
    ensures Fresh(env, cfg, Some(e), now) <==> UsableAt(env, cfg, Some(e), now) && Early(cfg, e, now)
  {
    hide WorkloadTokenShape, TokenClaims;
  }

  /** The outcome of a call by the times of the held entry and the dates the client reads in its token. */
  lemma BeginByDates(env: Env, cfg: Config, s: Slot, now: int)
    ensures var good := s.entry.Some? && DatesOf(env, cfg, s.entry.value).Some?
                        && Within(cfg, s.entry.value, DatesOf(env, cfg, s.entry.value).value.nbf, DatesOf(env, cfg, s.entry.value).value.exp, now);
            Begun(env, cfg, s, now).1 == Got(s, good, good && Early(cfg, s.entry.value, now), now)
  {
    hide DatesOf, CheckToken, Within, Early;
    if s.entry.Some? { CheckByDates(env, cfg, s.entry.value, now); }
  }

  /** The claims a verifier finds in the token, if its contract is kept for the issuer and the audience asked for. */
  function ClaimsOf(env: Env, cfg: Config, e: Entry): Option<V.Claims> {
    if V.Contracted(env, e.token).Some? && TokenRefinement.SignatureSized(env, e.token)
       && V.Contracted(env, e.token).value.1.issuer == cfg.check.issuer && V.Contracted(env, e.token).value.1.audience == e.audience
    then Some(V.Contracted(env, e.token).value.1) else None
  }

  /** The same by the claims a verifier reads: a held token is handed out without an exchange exactly when it keeps the
      contract, the reading is inside its dates and its lifetime by the margin, and its refresh point lies ahead, or an
      exchange is in flight or backing off; a call exchanges exactly when none of these holds. */
  lemma BeginByClaims(env: Env, cfg: Config, s: Slot, now: int)
    requires env.Lawful() && cfg.Valid(env) && (s.entry.Some? ==> V.WorkloadAudience(s.entry.value.audience))
    ensures var good := s.entry.Some? && ClaimsOf(env, cfg, s.entry.value).Some?
                        && Within(cfg, s.entry.value, ClaimsOf(env, cfg, s.entry.value).value.notBefore, ClaimsOf(env, cfg, s.entry.value).value.expiresAt, now);
            Begun(env, cfg, s, now).1 == Got(s, good, good && Early(cfg, s.entry.value, now), now)
  {
    hide CheckToken;
    if s.entry.Some? {
      var e := s.entry.value;
      TokenRefinement.UsableExactly(env, cfg.check, e, now);
      CheckByDates(env, cfg, e, now);
    }
  }

  // ----- from a successful exchange to the next -----

  /** Event i ended an exchange for key with e, which was usable on arrival. */
  lemma SlotAfterSuccess(env: Env, cfg: Config, states: seq<System>, events: seq<Event>, i: nat, key: Key, e: Entry)
    requires IsRun(env, cfg, states, events) && i < |events| && Delivers(env, cfg, states, events, i, key, e)
    ensures states[i + 1].At(key) == EMPTY.(entry := Some(e))
  {
    hide CheckToken;
    assert states[i + 1] == Next(env, cfg, states[i], events[i]);
    StepSlots(env, cfg, states[i], events[i], key);
  }

  lemma QuietStep(env: Env, cfg: Config, s: System, ev: Event, key: Key, e: Entry)
    requires Enabled(s, ev) && SingleFlight(s) && ev != Invalidation(key) && s.At(key) == EMPTY.(entry := Some(e))
    requires KeyOf(s, ev) == key ==> Section(env, cfg, s, ev).1 != Some(Start)
    ensures Next(env, cfg, s, ev).At(key) == s.At(key)
  {
    hide CheckToken;
    StepSlots(env, cfg, s, ev, key);
  }

  lemma {:induction false} KeptSinceSuccess(env: Env, cfg: Config, states: seq<System>, events: seq<Event>, i: nat, j: nat, key: Key, e: Entry)
    requires IsRun(env, cfg, states, events) && i < j <= |events| && Delivers(env, cfg, states, events, i, key, e)
    requires Quiet(env, cfg, states, events, i + 1, j, key)
    ensures states[j].At(key) == EMPTY.(entry := Some(e))
    decreases j
  {
    hide CheckToken;
    if j == i + 1 {
      SlotAfterSuccess(env, cfg, states, events, i, key, e);
    } else {
      KeptSinceSuccess(env, cfg, states, events, i, j - 1, key, e);
      AtMostOneExchange(env, cfg, states, events, j - 1);
      assert states[j - 1 + 1] == Next(env, cfg, states[j - 1], events[j - 1]);
      QuietStep(env, cfg, states[j - 1], events[j - 1], key, e);
    }
  }

  /** In every run, from a successful exchange until the next one starts or the slot is invalidated, every call gets
      that exchange's token while it is inside its window and before its refresh point, and the first call for which
      it is not exchanges again. */
  lemma CallAfterSuccess(env: Env, cfg: Config, states: seq<System>, events: seq<Event>, i: nat, j: nat, key: Key, e: Entry)
    requires IsRun(env, cfg, states, events) && i < j < |events| && Delivers(env, cfg, states, events, i, key, e)
    requires Quiet(env, cfg, states, events, i + 1, j, key) && events[j].Begin? && events[j].key == key
    ensures var now, dates := events[j].now, DatesOf(env, cfg, e);
            Section(env, cfg, states[j], events[j]).1 == Some(
              if dates.Some? && Within(cfg, e, dates.value.nbf, dates.value.exp, now) && Early(cfg, e, now) then Token(e.token) else Start)
  {
    hide CheckToken, DatesOf, Within, Early, Begun;
    KeptSinceSuccess(env, cfg, states, events, i, j, key, e);
    BeginByDates(env, cfg, states[j].At(key), events[j].now);
  }
}
