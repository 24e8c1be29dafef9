/** The cache object together with its run: every critical section on it is one event of CacheRuns. */
module CacheHistory {
  import opened Wrappers
  import opened DecisionCache
  import opened CacheRuns
  import opened CachedClient
  import CacheInvariant

  /** A stamp as a caller holds it: the sequence number and the reading. */
  datatype Stamp = Stamp(seqNo: nat, asked: int)

  /** Each stamp was taken by the event at its index in asks. */
  predicate Stamped(stamps: seq<Stamp>, asks: seq<nat>, states: seq<Cache>, events: seq<Event>) {
    && |stamps| == |asks| && |states| == |events| + 1
    && forall k :: 0 <= k < |asks| ==>
         asks[k] < |events| && events[asks[k]] == Ask(stamps[k].asked) && states[asks[k]].seqNo == stamps[k].seqNo
  }

  lemma StampedStill(stamps: seq<Stamp>, asks: seq<nat>, states: seq<Cache>, events: seq<Event>, ev: Event, c: Cache)
    requires Stamped(stamps, asks, states, events)
    ensures Stamped(stamps, asks, states + [c], events + [ev])
    ensures ev.Ask? ==> Stamped(stamps + [Stamp(states[|events|].seqNo, ev.now)], asks + [|events|], states + [c], events + [ev])
  {
  }

  /** A run goes on with an event it allows. */
  lemma RunGoesOn(cfg: Config, states: seq<Cache>, events: seq<Event>, ev: Event, c: Cache)
    requires IsRun(cfg, states, events)
    requires ev.Answer? ==> ev.ask < |events| && events[ev.ask].Ask?
    requires c == Next(cfg, states + [c], events + [ev], |events|)
    ensures IsRun(cfg, states + [c], events + [ev])
  {
    var s, e := states + [c], events + [ev];
    forall i | 0 <= i < |e| ensures s[i + 1] == Next(cfg, s, e, i) {
      if i < |events| { assert states[i + 1] == Next(cfg, states, events, i); }
    }
  }

  class History {
    const client: Client
    var stamps: seq<Stamp>
    ghost var asks: seq<nat>
    ghost var states: seq<Cache>
    ghost var events: seq<Event>

    ghost predicate Valid()
      reads this, client, client.rec, client.rec.list, client.rec.list.nodes
    {
      && client.Valid()
      && IsRun(client.cfg, states, events) && states[|events|] == client.State()
      && Stamped(stamps, asks, states, events)
    }

    ghost function Repr(): set<object>
      reads this, client, client.rec, client.rec.list
    {
      {this, client, client.rec, client.rec.list} + client.rec.list.nodes
    }

    constructor (cfg: Config)
      requires cfg.Valid()
      ensures Valid() && events == [] && client.cfg == cfg && fresh(Repr())
    {
      client := new Client(cfg);
      stamps, asks, events := [], [], [];
      states := [EMPTY];
    }

    /** A caller takes a stamp before it asks the decision point; k is its place among the stamps. */
    method Take(now: int) returns (k: nat)
      requires Valid()
      modifies this
      ensures Valid() && k == |old(stamps)| && asks == old(asks) + [|old(events)|]
      ensures stamps == old(stamps) + [Stamp(old(client.State()).seqNo, now)]
      ensures events == old(events) + [Ask(now)] && states == old(states) + [client.State()]
    {
      hide Client.Valid, IsRun;
      var stamp, asked := client.Stamp(now);
      StampedStill(stamps, asks, states, events, Ask(now), client.State());
      RunGoesOn(client.cfg, states, events, Ask(now), client.State());
      k := |stamps|;
      stamps, asks := stamps + [Stamp(stamp, asked)], asks + [|events|];
      states, events := states + [client.State()], events + [Ask(now)];
    }

    /** A caller reads a key. */
    method Look(key: Key, now: int) returns (r: Option<Decision>)
      requires Valid()
      modifies Repr()
      ensures Valid() && fresh(Repr() - old(Repr())) && stamps == old(stamps) && asks == old(asks)
      ensures events == old(events) + [Read(key, now)] && states == old(states) + [client.State()]
      ensures r == Get(client.cfg, old(client.State()), key, now).1
    {
      hide Client.Valid, IsRun;
      r := client.Get(key, now);
      StampedStill(stamps, asks, states, events, Read(key, now), client.State());
      RunGoesOn(client.cfg, states, events, Read(key, now), client.State());
      states, events := states + [client.State()], events + [Read(key, now)];
    }

    /** A caller records the answer to the call it stamped at k. */
    method Record(k: nat, key: Key, d: Decision, now: int)
      requires Valid() && k < |stamps|
      modifies Repr()
      ensures Valid() && fresh(Repr() - old(Repr())) && stamps == old(stamps) && asks == old(asks)
      ensures events == old(events) + [Answer(asks[k], key, d, now)] && states == old(states) + [client.State()]
    {
      hide Client.Valid, IsRun;
      client.Observe(key, d, stamps[k].seqNo, stamps[k].asked, now);
      ghost var ev := Answer(asks[k], key, d, now);
      StampedStill(stamps, asks, states, events, ev, client.State());
      RunGoesOn(client.cfg, states, events, ev, client.State());
      states, events := states + [client.State()], events + [ev];
    }

    method InvalidateAll() returns (ok: bool)
      requires Valid()
      modifies Repr()
      ensures Valid() && fresh(Repr() - old(Repr())) && stamps == old(stamps) && asks == old(asks)
      ensures events == old(events) + [Invalidation] && states == old(states) + [client.State()]
    {
      hide Client.Valid, IsRun;
      ok := client.InvalidateAll();
      StampedStill(stamps, asks, states, events, Invalidation, client.State());
      RunGoesOn(client.cfg, states, events, Invalidation, client.State());
      states, events := states + [client.State()], events + [Invalidation];
    }

    method Close()
      requires Valid()
      modifies Repr()
      ensures Valid() && fresh(Repr() - old(Repr())) && stamps == old(stamps) && asks == old(asks)
      ensures events == old(events) + [Closing] && states == old(states) + [client.State()]
    {
      hide Client.Valid, IsRun;
      client.Close();
      StampedStill(stamps, asks, states, events, Closing, client.State());
      RunGoesOn(client.cfg, states, events, Closing, client.State());
      states, events := states + [client.State()], events + [Closing];
    }
  }
}
