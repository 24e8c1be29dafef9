/** The key-set client's state: the last good document, the last attempt and the shared fetch. Each function is
    one critical section. Instants and durations are nanoseconds. */
module JwksCache {
  import opened Wrappers
  import opened TokenWire

  const HOUR := 3600 * SECOND

  type Keys = map<string, Bytes>

  /** The settings after defaulting, within the constructor's bounds. */
  datatype Settings = Settings(ttl: int, floor: int, grace: int) {
    predicate Valid() { 0 < floor <= ttl <= HOUR && 0 < grace <= HOUR }
  }

  /** lastAttempt is absent until a fetch was attempted. */
  datatype Cache = Cache(keys: Option<Keys>, fetchedAt: int, lastAttempt: Option<int>, inflight: bool, failed: bool)

  const EMPTY := Cache(None, 0, None, false, false)

  datatype Fetched = Document(keys: Keys) | Failure

  /** How the first section of a refresh ends: sharing the fetch in flight, inside the floor, or fetching. */
  datatype Admission = Joins | TooSoon | Fetches

  function Admit(cfg: Settings, c: Cache, now: int): Admission {
    if c.inflight then Joins
    else if c.lastAttempt.Some? && now - c.lastAttempt.value < cfg.floor then TooSoon
    else Fetches
  }

  function Attempted(cfg: Settings, c: Cache, now: int): Cache {
    if Admit(cfg, c, now).Fetches? then c.(inflight := true, lastAttempt := Some(now)) else c
  }

  function Completed(c: Cache, answer: Fetched, at: int): Cache {
    match answer
    case Document(keys) => c.(keys := Some(keys), fetchedAt := at, failed := false, inflight := false)
    case Failure => c.(failed := true, inflight := false)
  }

  /** How old a document may be and still be served: grace counts only after a refresh was tried. */
  function MaxAge(cfg: Settings, afterRefresh: bool): int { if afterRefresh then cfg.ttl + cfg.grace else cfg.ttl }

  function Served(cfg: Settings, c: Cache, kid: string, now: int, afterRefresh: bool): Option<Bytes> {
    if c.keys.None? || now - c.fetchedAt >= MaxAge(cfg, afterRefresh) then None
    else if kid in c.keys.value && |c.keys.value[kid]| == KEY_SIZE then Some(c.keys.value[kid])
    else None
  }
}

/** The key-set client as an object. */
module JwksClient {
  import opened Wrappers
  import opened TokenWire
  import opened JwksCache

  class Client {
    const cfg: Settings
    var keys: Option<Keys>
    var fetchedAt: int
    var lastAttempt: int
    var attempted: bool
    var inflight: bool
    var failed: bool

    ghost function State(): Cache
      reads this
    {
      Cache(keys, fetchedAt, if attempted then Some(lastAttempt) else None, inflight, failed)
    }

    constructor (cfg: Settings)
      requires cfg.Valid()
      ensures this.cfg == cfg && State() == EMPTY
    {
      this.cfg, keys, fetchedAt, lastAttempt, attempted, inflight, failed := cfg, None, 0, 0, false, false, false;
    }

    method Cached(kid: string, now: int, afterRefresh: bool) returns (key: Option<Bytes>)
      requires cfg.Valid()
      ensures key == Served(cfg, State(), kid, now, afterRefresh)
    {
      if keys.None? { return None; }
      var age := now - fetchedAt;
      if age >= cfg.ttl && (!afterRefresh || age >= cfg.ttl + cfg.grace) { return None; }
      if kid !in keys.value || |keys.value[kid]| != KEY_SIZE { return None; }
      key := Some(keys.value[kid]);
    }

    /** The first section of refresh. */
    method BeginRefresh(now: int) returns (admission: Admission)
      modifies this
      ensures admission == Admit(cfg, old(State()), now) && State() == Attempted(cfg, old(State()), now)
    {
      if inflight { return Joins; }
      if attempted && now - lastAttempt < cfg.floor { return TooSoon; }
      inflight := true;
      lastAttempt := now;
      attempted := true;
      admission := Fetches;
    }

    /** The second section of refresh, run by the caller that fetched. */
    method FinishRefresh(answer: Fetched, at: int)
      modifies this
      ensures State() == Completed(old(State()), answer, at)
    {
      if answer.Document? {
        keys := Some(answer.keys);
        fetchedAt := at;
      }
      failed := answer.Failure?;
      inflight := false;
    }
  }
}
