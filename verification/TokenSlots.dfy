/** The workload token client's slots: one cached token per audience and scope, one shared exchange at a time,
    and the wait after a failed one. Each function is one critical section. */
module TokenSlots {
  import opened Wrappers
  import opened TokenWire
  import opened TokenCheck

  datatype Config = Config(check: Settings, floor: int, ceiling: int) {
    predicate Valid(env: Env) { check.Valid(env) && 0 < floor <= ceiling <= 300 * SECOND }
  }

  datatype Key = Key(audience: string, actions: seq<string>)

  /** Why an exchange gave no token: the exchange itself, or the check of its answer. */
  datatype Cause = Exchange(reason: string) | TooEarly | Unusable

  /** A slot; retryAt is absent where the source holds the zero time, which no reading precedes. */
  datatype Slot = Slot(entry: Option<Entry>, flight: bool, retryAt: Option<int>, failures: nat, lastErr: Option<Cause>)

  const EMPTY := Slot(None, false, None, 0, None)

  datatype Answer = Issued(entry: Entry) | Failed(reason: string)

  /** How a section ends for its caller: with a token, with an error, waiting for the flight, or exchanging. */
  datatype Outcome = Token(token: string) | NoUsable(cause: Option<Cause>) | Wait | Start

  // ----- the wait -----

  function Pow2(n: nat): (p: nat)
    ensures p > 0
  {
    if n == 0 then 1 else 2 * Pow2(n - 1)
  }

  function Waited(cfg: Config, n: nat): int
    requires n > 0
  {
    Min(cfg.floor * Pow2(n - 1), cfg.ceiling)
  }

  lemma {:induction false} DoublingGrows(floor: int, a: nat, b: nat)
    requires floor > 0 && a <= b
    ensures floor * Pow2(a) <= floor * Pow2(b)
  {
    if a < b {
      DoublingGrows(floor, a, b - 1);
      assert floor * Pow2(b) == 2 * (floor * Pow2(b - 1));
    }
  }

  /** The doubling loop computes the closed form, and no value of the loop exceeds twice the ceiling. */
  method Backoff(cfg: Config, failures: nat) returns (wait: int)
    requires 0 < cfg.floor <= cfg.ceiling && failures > 0
    ensures wait == Waited(cfg, failures)
  {
    wait := cfg.floor;
    var i := 1;
    while i < failures && wait < cfg.ceiling
      invariant 1 <= i <= failures && wait == cfg.floor * Pow2(i - 1) && wait <= 2 * cfg.ceiling
    {
      assert cfg.floor * Pow2(i) == 2 * (cfg.floor * Pow2(i - 1));
      wait := wait * 2;
      i := i + 1;
    }
    DoublingGrows(cfg.floor, i - 1, failures - 1);
    wait := Min(wait, cfg.ceiling);
  }

  // ----- the sections -----

  predicate UsableAt(env: Env, cfg: Config, e: Option<Entry>, now: int) {
    e.Some? && CheckToken(env, cfg.check, e.value, now).Usable?
  }

  /** The token is usable and its refresh point lies ahead. */
  predicate Fresh(env: Env, cfg: Config, e: Option<Entry>, now: int) {
    UsableAt(env, cfg, e, now) && now < CheckToken(env, cfg.check, e.value, now).window.refreshAt
  }

  predicate BackingOff(s: Slot, now: int) { s.retryAt.Some? && now < s.retryAt.value }

  /** A slot as a section that reads now leaves its entry: dropped when the check refuses it. */
  function Swept(env: Env, cfg: Config, s: Slot, now: int): Slot {
    if UsableAt(env, cfg, s.entry, now) then s else s.(entry := None)
  }

  function Begun(env: Env, cfg: Config, s: Slot, now: int): (Slot, Outcome) {
    var t := Swept(env, cfg, s, now);
    if Fresh(env, cfg, t.entry, now) then (t, Token(t.entry.value.token))
    else if t.flight then (t, if t.entry.Some? then Token(t.entry.value.token) else Wait)
    else if BackingOff(t, now) then (t, if t.entry.Some? then Token(t.entry.value.token) else NoUsable(t.lastErr))
    else (t.(flight := true), Start)
  }

  /** Why the answer cannot be used at the reading taken when it arrived, if it cannot. */
  function Complaint(env: Env, cfg: Config, answer: Answer, now: int): Option<Cause> {
    match answer
    case Failed(reason) => Some(Exchange(reason))
    case Issued(e) =>
      match CheckToken(env, cfg.check, e, now)
      case Usable(_) => None
      case NotYetValid(_) => Some(TooEarly)
      case Refused => Some(Unusable)
  }

  /** The end of an exchange. The section reads the clock up to three times: for the answer, for the wait
      and for the token held until now. */
  function Settled(env: Env, cfg: Config, s: Slot, answer: Answer, arrived: int, failed: int, held: int): (Slot, Outcome) {
    var cause := Complaint(env, cfg, answer, arrived);
    if cause.None? then (EMPTY.(entry := Some(answer.entry)), Token(answer.entry.token))
    else
      var n := s.failures + 1;
      var t := Slot(s.entry, false, Some(failed + Waited(cfg, n)), n, cause);
      if UsableAt(env, cfg, s.entry, held) then (t, Token(s.entry.value.token)) else (t.(entry := None), NoUsable(cause))
  }

  function Invalidated(s: Slot): Slot { EMPTY.(flight := s.flight) }

  // ----- what one section decides -----

  /** A call starts an exchange exactly when none is in flight, the wait is over and no fresh token is held;
      it hands out a usable token in every other case, and fails or waits only without one. */
  lemma BeginDecides(env: Env, cfg: Config, s: Slot, now: int)
    ensures var (t, o) := Begun(env, cfg, s, now);
            && (o.Start? <==> !s.flight && !BackingOff(s, now) && !Fresh(env, cfg, s.entry, now))
            && (o.Token? <==> UsableAt(env, cfg, s.entry, now) && !o.Start?)
            && (o.Wait? <==> !UsableAt(env, cfg, s.entry, now) && s.flight)
            && (t.flight <==> s.flight || o.Start?)
            && t.retryAt == s.retryAt && t.failures == s.failures && t.lastErr == s.lastErr
  {
  }

  /** A failed exchange drops the held token exactly when that token has left its window. */
  lemma FailureKeepsToken(env: Env, cfg: Config, s: Slot, answer: Answer, arrived: int, failed: int, held: int)
    requires Complaint(env, cfg, answer, arrived).Some?
    ensures var (t, o) := Settled(env, cfg, s, answer, arrived, failed, held);
            && (UsableAt(env, cfg, s.entry, held) ==> t.entry == s.entry && o == Token(s.entry.value.token))
            && (!UsableAt(env, cfg, s.entry, held) ==> t.entry == None && o == NoUsable(Complaint(env, cfg, answer, arrived)))
  {
  }

  /** A call right after Invalidate exchanges exactly when no exchange was in flight; otherwise it waits for that
      one, whatever the wait and the token were before. */
  lemma InvalidateThenBegin(env: Env, cfg: Config, s: Slot, now: int)
    ensures Begun(env, cfg, Invalidated(s), now).1 == if s.flight then Wait else Start
  {
  }
}
