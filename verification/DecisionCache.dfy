/** The allow-only decision cache as a value: one recency-ordered sequence of entries (most recently
    used first) and the counters beside it, with one function per critical section of the client. */
module DecisionCache {
  import opened Wrappers

  /** The cache key: the five request fields that name a question. */
  datatype Key = Key(principal: string, action: string, resourceType: string, resourceKey: string, organization: string)

  /** A policy decision: a deny the client made itself, or a verdict of the decision point. Instants are
      nanoseconds on one clock. */
  datatype Decision =
    | Local(reason: string)
    | Verdict(allowed: bool, cacheable: bool, policyRevision: nat, expiresAt: int, body: string)
  {
    function Revision(): nat { if Verdict? then policyRevision else 0 }
    predicate Storable() { Verdict? && allowed && cacheable }
  }

  const NO_DECISION := Local("pdp_no_decision")

  /** An entry is a stored allow (live) or a tombstone; both keep the guard of the last refusal. */
  datatype Entry = Entry(key: Key, live: bool, decision: Decision, asked: int, guard: nat) {
    function Killed(): Entry {
      if live then this.(live := false, decision := NO_DECISION) else this
    }
  }

  datatype Cache = Cache(lru: seq<Entry>, allows: int, seqNo: nat, lastFlush: nat, floor: nat, watermark: nat, closed: bool)

  datatype Config = Config(maxEntries: nat, maxTTL: int) {
    predicate Valid() { maxEntries > 0 && maxTTL > 0 }
  }

  const EMPTY := Cache([], 0, 0, 0, 0, 0, false)

  // ----- the recency-ordered sequence -----

  function Live(e: Entry): nat { if e.live then 1 else 0 }

  function CountLive(s: seq<Entry>): nat {
    if s == [] then 0 else Live(s[0]) + CountLive(s[1..])
  }

  predicate DistinctKeys(s: seq<Entry>) {
    forall i, j :: 0 <= i < j < |s| ==> s[i].key != s[j].key
  }

  predicate Holds(s: seq<Entry>, key: Key) {
    exists i :: 0 <= i < |s| && s[i].key == key
  }

  function Find(s: seq<Entry>, key: Key): (r: Option<nat>)
    ensures r.Some? ==> r.value < |s| && s[r.value].key == key
    ensures r.None? <==> !Holds(s, key)
  {
    if s == [] then None
    else if s[0].key == key then Some(0)
    else
      var rest := Find(s[1..], key);
      assert forall i :: 0 <= i < |s| - 1 ==> s[1..][i] == s[i + 1];
      if rest.None? then
        assert forall i :: 1 <= i < |s| ==> s[i] == s[1..][i - 1];
        None
      else Some(rest.value + 1)
  }

  /** The list after the entry at i was replaced by e and moved to the front. */
  function Touch(s: seq<Entry>, i: nat, e: Entry): seq<Entry>
    requires i < |s|
  {
    [e] + s[..i] + s[i + 1..]
  }

  /** The list after the entry for e.key, new or not, became e at the front. */
  function Placed(s: seq<Entry>, e: Entry): seq<Entry> {
    var at := Find(s, e.key);
    if at.None? then [e] + s else Touch(s, at.value, e)
  }

  /** The entry an insert starts from. */
  function Unused(key: Key): Entry { Entry(key, false, NO_DECISION, 0, 0) }

  /** The entry for key, or the unused one an insert starts from. */
  function EntryFor(s: seq<Entry>, key: Key): (e: Entry)
    ensures e.key == key
  {
    var at := Find(s, key);
    if at.None? then Unused(key) else s[at.value]
  }

  function KillBelow(s: seq<Entry>, revision: nat): (r: seq<Entry>)
    ensures |r| == |s|
    ensures forall i :: 0 <= i < |s| ==> r[i] == KilledBelow(s[i], revision)
  {
    if s == [] then [] else [KilledBelow(s[0], revision)] + KillBelow(s[1..], revision)
  }

  function KilledBelow(e: Entry, revision: nat): Entry {
    if e.live && e.decision.Revision() < revision then e.Killed() else e
  }

  function Max(a: nat, b: nat): nat { if a < b then b else a }

  /** Dropping entries from the back until the bound holds; a dropped guard survives in the floor. */
  function Bound(c: Cache, maxEntries: nat): Cache
    decreases |c.lru|
  {
    if |c.lru| <= maxEntries then c
    else
      var last := c.lru[|c.lru| - 1];
      Bound(c.(lru := c.lru[..|c.lru| - 1], allows := c.allows - Live(last), floor := Max(c.floor, last.guard)), maxEntries)
  }

  // ----- the critical sections -----

  predicate Fresh(cfg: Config, watermark: nat, asked: int, d: Decision, now: int) {
    0 <= now - asked < cfg.maxTTL && d.Verdict? && now < d.expiresAt && watermark <= d.Revision()
  }

  function Get(cfg: Config, c: Cache, key: Key, now: int): (Cache, Option<Decision>) {
    var at := Find(c.lru, key);
    if at.None? || c.closed || !c.lru[at.value].live then (c, None)
    else
      var e := c.lru[at.value];
      if !Fresh(cfg, c.watermark, e.asked, e.decision, now) then
        (c.(lru := c.lru[at.value := e.Killed()], allows := c.allows - 1), None)
      else (c.(lru := Touch(c.lru, at.value, e)), Some(e.decision))
  }

  /** A verdict above the watermark moves it and kills every live entry below it. */
  function Raise(c: Cache, revision: nat): Cache {
    if c.watermark < revision then
      var lru := KillBelow(c.lru, revision);
      c.(watermark := revision, lru := lru, allows := c.allows - (CountLive(c.lru) - CountLive(lru)))
    else c
  }

  function Tomb(e: Entry, g: nat): Entry { e.Killed().(guard := g) }

  /** A refusal of the question: the entry dies and keeps the new sequence number as its guard. */
  function Buried(c: Cache, key: Key): Cache {
    var g := c.seqNo + 1;
    var e := EntryFor(c.lru, key);
    c.(seqNo := g, lru := Placed(c.lru, Tomb(e, g)), allows := c.allows - Live(e))
  }

  function Bury(cfg: Config, c: Cache, key: Key): Cache { Bound(Buried(c, key), cfg.maxEntries) }

  predicate Admits(cfg: Config, c: Cache, key: Key, d: Decision, stamp: nat, asked: int, now: int) {
    && c.lastFlush <= stamp
    && c.floor <= stamp
    && EntryFor(c.lru, key).guard <= stamp
    && Fresh(cfg, c.watermark, asked, d, now)
  }

  function Stored(c: Cache, key: Key, d: Decision, asked: int): Cache {
    var e := EntryFor(c.lru, key);
    c.(lru := Placed(c.lru, Entry(key, true, d, asked, e.guard)), allows := c.allows + 1 - Live(e))
  }

  function Store(cfg: Config, c: Cache, key: Key, d: Decision, asked: int): Cache {
    Bound(Stored(c, key, d, asked), cfg.maxEntries)
  }

  function Observe(cfg: Config, c: Cache, key: Key, d: Decision, stamp: nat, asked: int, now: int): Cache {
    if d.Local? || c.closed then c
    else
      var c1 := Raise(c, d.Revision());
      if !d.Storable() then Bury(cfg, c1, key)
      else if Admits(cfg, c1, key, d, stamp, asked, now) then Store(cfg, c1, key, d, asked)
      else c1
  }

  function Emptied(c: Cache): Cache { c.(lru := [], allows := 0) }

  function Flush(c: Cache): Cache {
    if c.closed then c else Emptied(c.(seqNo := c.seqNo + 1, lastFlush := c.seqNo + 1))
  }

  function Shut(c: Cache): Cache { Emptied(c.(closed := true)) }
}
