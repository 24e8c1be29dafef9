/** A batch through the cache, with any other caller's critical sections between any two of its own. */
module CachedBatch {
  import opened Wrappers
  import opened DecisionCache
  import opened CacheRuns
  import opened CachedClient
  import opened CacheHistory
  import opened JsonDoc
  import opened BatchBinding

  const INVALID := Local("pdp_invalid_request")

  /** One critical section of another caller, which may record an answer to any stamp taken so far. */
  datatype Step =
    | Stamps(now: int)
    | Reads(key: Key, now: int)
    | Records(stamp: nat, key: Key, d: Decision, now: int)
    | Invalidates
    | Closes

  /** What the decision point call came back with: a transport failure or a body. */
  datatype Reply = Failed(reason: string) | Answered(body: Option<Doc>)

  /** The run went on from one point to another. */
  predicate Goes(states: seq<Cache>, events: seq<Event>, s: seq<Cache>, e: seq<Event>) { states <= s && events <= e }

  method Interleave(h: History, steps: seq<Step>)
    requires h.Valid()
    modifies h.Repr()
    ensures h.Valid() && fresh(h.Repr() - old(h.Repr())) && Goes(old(h.states), old(h.events), h.states, h.events)
    ensures old(h.stamps) <= h.stamps && old(h.asks) <= h.asks
  {
    hide History.Valid;
    for i := 0 to |steps|
      invariant h.Valid() && fresh(h.Repr() - old(h.Repr())) && Goes(old(h.states), old(h.events), h.states, h.events)
      invariant old(h.stamps) <= h.stamps && old(h.asks) <= h.asks
    {
      match steps[i] {
        case Stamps(now) => var _ := h.Take(now);
        case Reads(key, now) => var _ := h.Look(key, now);
        case Records(k, key, d, now) => if k < |h.stamps| { h.Record(k, key, d, now); }
        case Invalidates => var _ := h.InvalidateAll();
        case Closes => h.Close();
      }
    }
  }

  // ----- reads -----

  /** Event n reads the key and finds r. */
  predicate ReadsAt(cfg: Config, states: seq<Cache>, events: seq<Event>, n: nat, key: Key, r: Option<Decision>) {
    n < |events| && n < |states| && events[n].Read? && events[n].key == key && r == Get(cfg, states[n], key, events[n].now).1
  }

  method ReadOne(h: History, key: Key, steps: seq<Step>, now: int) returns (r: Option<Decision>, ghost n: nat)
    requires h.Valid()
    modifies h.Repr()
    ensures h.Valid() && fresh(h.Repr() - old(h.Repr())) && Goes(old(h.states), old(h.events), h.states, h.events)
    ensures |old(h.events)| <= n && ReadsAt(h.client.cfg, h.states, h.events, n, key, r)
  {
    Interleave(h, steps);
    n := |h.events|;
    r := h.Look(key, now);
  }

  /** Every request was read at its place, and the misses, in order, are the requests that found nothing. */
  predicate AllRead(cfg: Config, states: seq<Cache>, events: seq<Event>, start: nat, reqs: seq<Request>, out: seq<Decision>,
                    hits: seq<nat>, misses: seq<nat>, seen: seq<nat>) {
    && |out| == |seen| <= |reqs| && Parted(|out|, hits, misses)
    && (forall i :: 0 <= i < |out| ==> start <= seen[i])
    && (forall i :: 0 <= i < |out| ==> ReadsAt(cfg, states, events, seen[i], reqs[i].key, if i in misses then None else Some(out[i])))
  }

  /** The batch's indices in order, each below n and none twice. */
  predicate Ascending(idx: seq<nat>, n: nat) {
    && (forall j :: 0 <= j < |idx| ==> idx[j] < n)
    && (forall j, k :: 0 <= j < k < |idx| ==> idx[j] < idx[k])
  }

  /** Every index below n is a hit or a miss, and not both. */
  predicate Parted(n: nat, hits: seq<nat>, misses: seq<nat>) {
    Ascending(hits, n) && Ascending(misses, n) && forall k :: 0 <= k < n ==> (k in hits <==> k !in misses)
  }

  lemma PartedMore(n: nat, hits: seq<nat>, misses: seq<nat>)
    requires Parted(n, hits, misses)
    ensures Parted(n + 1, hits + [n], misses) && Parted(n + 1, hits, misses + [n])
    ensures n !in misses && forall k :: 0 <= k < n ==> (k in misses + [n] <==> k in misses)
  {
  }

  lemma AllReadGoes(cfg: Config, states: seq<Cache>, events: seq<Event>, start: nat, reqs: seq<Request>, out: seq<Decision>,
                    hits: seq<nat>, misses: seq<nat>, seen: seq<nat>, s: seq<Cache>, e: seq<Event>)
    requires AllRead(cfg, states, events, start, reqs, out, hits, misses, seen) && Goes(states, events, s, e)
    ensures AllRead(cfg, s, e, start, reqs, out, hits, misses, seen)
  {
  }

  lemma AllReadMore(cfg: Config, states: seq<Cache>, events: seq<Event>, start: nat, reqs: seq<Request>, out: seq<Decision>,
                    hits: seq<nat>, misses: seq<nat>, seen: seq<nat>, r: Option<Decision>, n: nat)
    requires AllRead(cfg, states, events, start, reqs, out, hits, misses, seen) && |out| < |reqs| && start <= n
    requires ReadsAt(cfg, states, events, n, reqs[|out|].key, r)
    ensures r.Some? ==> AllRead(cfg, states, events, start, reqs, out + [r.value], hits + [|out|], misses, seen + [n])
    ensures r.None? ==> AllRead(cfg, states, events, start, reqs, out + [NO_DECISION], hits, misses + [|out|], seen + [n])
  {
    PartedMore(|out|, hits, misses);
  }

  /** Reads every key of the batch: the hits with their decisions, and the misses. */
  method ReadAll(h: History, reqs: seq<Request>, env: nat -> seq<Step>, clock: nat -> int)
      returns (out: seq<Decision>, hits: seq<nat>, misses: seq<nat>, ghost seen: seq<nat>)
    requires h.Valid()
    modifies h.Repr()
    ensures h.Valid() && fresh(h.Repr() - old(h.Repr())) && Goes(old(h.states), old(h.events), h.states, h.events)
    ensures |out| == |reqs| && AllRead(h.client.cfg, h.states, h.events, |old(h.events)|, reqs, out, hits, misses, seen)
  {
    hide History.Valid;
    out, hits, misses, seen := [], [], [], [];
    for i := 0 to |reqs|
      invariant h.Valid() && fresh(h.Repr() - old(h.Repr())) && Goes(old(h.states), old(h.events), h.states, h.events)
      invariant |out| == i && AllRead(h.client.cfg, h.states, h.events, |old(h.events)|, reqs, out, hits, misses, seen)
    {
      hide AllRead, ReadsAt;
      ghost var s, e := h.states, h.events;
      var d, n := ReadOne(h, reqs[i].key, env(i), clock(i));
      AllReadGoes(h.client.cfg, s, e, |old(h.events)|, reqs, out, hits, misses, seen, h.states, h.events);
      AllReadMore(h.client.cfg, h.states, h.events, |old(h.events)|, reqs, out, hits, misses, seen, d, n);
      seen := seen + [n];
      if d.Some? {
        out, hits := out + [d.value], hits + [i];
      } else {
        out, misses := out + [NO_DECISION], misses + [i];
      }
    }
  }

  // ----- one call and its answers -----

  /** d is the decision the reply's j-th item, with explicit index j, gives to req. */
  predicate FromReply(decode: Decoder, reply: Reply, j: nat, req: Request, d: Decision) {
    && reply.Answered?
    && Envelope(reply.body).Some? && j < |Envelope(reply.body).value|
    && IsItem(Envelope(reply.body).value[j], j)
    && d == decode(Inner(Envelope(reply.body).value[j]), req)
  }

  /** The reply answers the requests: it came, and it binds. */
  predicate BoundTo(decode: Decoder, reply: Reply, sub: seq<Request>) { reply.Answered? && Binds(decode, reply.body, sub) }

  /** The uncached client's batch: one decision per request, all verdicts when the reply is bound to them, and all
      local denies otherwise; a failed call denies with its own reason. */
  method AskDecisionPoint(decode: Decoder, sub: seq<Request>, reply: Reply) returns (got: seq<Decision>)
    ensures |got| == |sub|
    ensures AllLocal(got) || NoneLocal(got)
    ensures sub != [] ==> (NoneLocal(got) <==> BoundTo(decode, reply, sub))
    ensures sub != [] && reply.Failed? ==> got == DenyAll(Local(reply.reason), |sub|)
    ensures sub != [] && NoneLocal(got) ==> forall j :: 0 <= j < |sub| ==> FromReply(decode, reply, j, sub[j], got[j])
  {
    if |sub| == 0 { return []; }
    if reply.Failed? {
      got := DenyAll(Local(reply.reason), |sub|);
      assert got[0].Local?;
      return;
    }
    got := ParseBatch(decode, reply.body, sub);
    assert got[0] in got;
  }

  /** The answers to the requests at idx, in order, were recorded by the events at, each under the key of its own
      request and as an answer to the stamp taken by event a. */
  predicate Recorded(events: seq<Event>, start: nat, reqs: seq<Request>, idx: seq<nat>, got: seq<Decision>, a: nat, at: seq<nat>) {
    && start <= a < |events| && events[a].Ask? && |at| == |got| <= |idx| && Ascending(idx, |reqs|)
    && (forall j :: 0 <= j < |at| ==> a < at[j] < |events| && Answers(events[at[j]], a, reqs[idx[j]].key, got[j]))
    && (forall j, k :: 0 <= j < k < |at| ==> at[j] < at[k])
  }

  lemma RecordedGoes(events: seq<Event>, start: nat, reqs: seq<Request>, idx: seq<nat>, got: seq<Decision>, a: nat, at: seq<nat>, e: seq<Event>)
    requires Recorded(events, start, reqs, idx, got, a, at) && events <= e
    ensures Recorded(e, start, reqs, idx, got, a, at)
  {
  }

  lemma RecordedMore(events: seq<Event>, start: nat, reqs: seq<Request>, idx: seq<nat>, got: seq<Decision>, a: nat, at: seq<nat>, d: Decision, now: int)
    requires Recorded(events, start, reqs, idx, got, a, at) && |got| < |idx|
    ensures Recorded(events + [Answer(a, reqs[idx[|got|]].key, d, now)], start, reqs, idx, got + [d], a, at + [|events|])
  {
  }

  /** Records the answers to one call, one section each. */
  method RecordAll(h: History, reqs: seq<Request>, idx: seq<nat>, got: seq<Decision>, k: nat, ghost start: nat,
                   env: nat -> seq<Step>, clock: nat -> int, from: nat) returns (ghost at: seq<nat>)
    requires h.Valid() && k < |h.stamps| && k < |h.asks| && |got| == |idx| && Ascending(idx, |reqs|)
    requires Recorded(h.events, start, reqs, idx, [], h.asks[k], [])
    modifies h.Repr()
    ensures h.Valid() && fresh(h.Repr() - old(h.Repr())) && Goes(old(h.states), old(h.events), h.states, h.events)
    ensures Recorded(h.events, start, reqs, idx, got, old(h.asks[k]), at)
    ensures |at| == |got| && (got != [] ==> at[|at| - 1] + 1 == |h.events|)
  {
    hide History.Valid;
    at := [];
    ghost var a := h.asks[k];
    for j := 0 to |got|
      invariant h.Valid() && fresh(h.Repr() - old(h.Repr())) && Goes(old(h.states), old(h.events), h.states, h.events)
      invariant k < |h.stamps| && k < |h.asks| && h.asks[k] == a
      invariant Recorded(h.events, start, reqs, idx, got[..j], a, at)
      invariant |at| == j && (j > 0 ==> at[|at| - 1] + 1 == |h.events|)
    {
      hide Recorded;
      ghost var e := h.events;
      Interleave(h, env(from + j));
      RecordedGoes(e, start, reqs, idx, got[..j], a, at, h.events);
      RecordedMore(h.events, start, reqs, idx, got[..j], a, at, got[j], clock(from + j));
      at := at + [|h.events|];
      h.Record(k, reqs[idx[j]].key, got[j], clock(from + j));
      assert got[..j + 1] == got[..j] + [got[j]];
    }
    assert got[..|got|] == got;
  }

  /** The requests at idx, in order. */
  function Chosen(reqs: seq<Request>, idx: seq<nat>): seq<Request>
    requires Ascending(idx, |reqs|)
  {
    seq(|idx|, j requires 0 <= j < |idx| => reqs[idx[j]])
  }

  /** Sends the items at idx as one call, stamped before it is sent, and records the answers; a local deny of the
      call fails it, which is so exactly when the reply is not bound to those items. */
  method Call(h: History, decode: Decoder, reqs: seq<Request>, idx: seq<nat>, reply: Reply,
              env: nat -> seq<Step>, clock: nat -> int, from: nat)
      returns (failure: Option<Decision>, got: seq<Decision>, ghost a: nat, ghost at: seq<nat>)
    requires h.Valid() && Ascending(idx, |reqs|) && idx != []
    modifies h.Repr()
    ensures h.Valid() && fresh(h.Repr() - old(h.Repr())) && Goes(old(h.states), old(h.events), h.states, h.events)
    ensures failure.Some? ==> failure.value.Local?
    ensures failure.None? <==> BoundTo(decode, reply, Chosen(reqs, idx))
    ensures reply.Failed? ==> failure == Some(Local(reply.reason))
    ensures failure.None? ==> |got| == |idx| && NoneLocal(got) && Recorded(h.events, |old(h.events)|, reqs, idx, got, a, at)
    ensures failure.None? ==> |at| == |idx| && at[|at| - 1] + 1 == |h.events|
    ensures failure.None? ==> forall j :: 0 <= j < |idx| ==> FromReply(decode, reply, j, reqs[idx[j]], got[j])
  {
    hide History.Valid, FromReply, BoundTo;
    var sub := Chosen(reqs, idx);
    Interleave(h, env(from));
    a, at := |h.events|, [];
    var k := TakeStamp(h, clock(from));
    got := AskDecisionPoint(decode, sub, reply);
    if got[0].Local? { return Some(got[0]), got, a, at; }
    at := RecordAll(h, reqs, idx, got, k, |old(h.events)|, env, clock, from + 1);
    failure := None;
  }

  method TakeStamp(h: History, now: int) returns (k: nat)
    requires h.Valid()
    modifies h
    ensures h.Valid() && h.Repr() == old(h.Repr()) && Goes(old(h.states), old(h.events), h.states, h.events)
    ensures h.events == old(h.events) + [CacheRuns.Ask(now)]
    ensures k < |h.stamps| && k < |h.asks| && h.asks[k] == |old(h.events)|
  {
    hide Client.Valid, IsRun;
    k := h.Take(now);
  }

  // ----- the batch -----

  function Picked(out: seq<Decision>, idx: seq<nat>): seq<Decision>
    requires Ascending(idx, |out|)
  {
    seq(|idx|, j requires 0 <= j < |idx| => out[idx[j]])
  }

  /** Puts each answer at its own index. */
  method Fill(out: seq<Decision>, idx: seq<nat>, got: seq<Decision>) returns (r: seq<Decision>)
    requires Ascending(idx, |out|) && |got| == |idx|
    ensures |r| == |out| && Picked(r, idx) == got && forall i :: 0 <= i < |out| && i !in idx ==> r[i] == out[i]
  {
    r := out;
    for j := 0 to |idx|
      invariant |r| == |out| && forall i :: 0 <= i < |out| && i !in idx ==> r[i] == out[i]
      invariant forall k :: 0 <= k < j ==> r[idx[k]] == got[k]
    {
      r := r[idx[j] := got[j]];
    }
  }

  /** Whether a decision read from the cache is below the watermark. */
  method BelowWatermark(c: Client, out: seq<Decision>, idx: seq<nat>) returns (below: bool)
    requires Ascending(idx, |out|)
    ensures below <==> Below(out, idx, c.watermark)
  {
    for j := 0 to |idx|
      invariant forall k :: 0 <= k < j ==> out[idx[k]].Revision() >= c.watermark
    {
      if out[idx[j]].Revision() < c.watermark { return true; }
    }
    return false;
  }

  /** How a batch ran: what each request found and at which event, the call for the misses with its stamp and the
      events that recorded its answers, how many events had happened when the watermark was checked, and whether the
      hits were asked again, with the same of that call. */
  datatype Trace = Trace(found: seq<Decision>, hits: seq<nat>, missed: seq<nat>, seen: seq<nat>, first: nat, answers: seq<nat>,
                         checked: nat, again: bool, second: nat, reanswers: seq<nat>)

  /** The requests at idx were answered by one call: each holds the decision its own index had in the reply, which
      was recorded under the request's own key as an answer to the stamp a. */
  predicate CalledFor(decode: Decoder, reply: Reply, events: seq<Event>, start: nat, reqs: seq<Request>, idx: seq<nat>,
                      out: seq<Decision>, a: nat, at: seq<nat>) {
    && Ascending(idx, |out|) && |out| == |reqs| && |at| == |idx|
    && Recorded(events, start, reqs, idx, Picked(out, idx), a, at)
    && (forall j :: 0 <= j < |idx| ==> out[idx[j]].Verdict? && FromReply(decode, reply, j, reqs[idx[j]], out[idx[j]]))
  }

  /** No hit is below an answered miss. */
  predicate Level(out: seq<Decision>, hits: seq<nat>, missed: seq<nat>)
    requires Ascending(hits, |out|) && Ascending(missed, |out|)
  {
    forall i, m :: 0 <= i < |hits| && 0 <= m < |missed| ==> out[missed[m]].Revision() <= out[hits[i]].Revision()
  }

  /** A decision at one of the indices is below the watermark w. */
  predicate Below(out: seq<Decision>, idx: seq<nat>, w: nat)
    requires Ascending(idx, |out|)
  {
    exists j :: 0 <= j < |idx| && out[idx[j]].Revision() < w
  }

  /** The reads and the call for the misses are over when the watermark is checked. */
  predicate Checked(events: seq<Event>, t: Trace) {
    t.checked <= |events| && (forall i :: 0 <= i < |t.seen| ==> t.seen[i] < t.checked)
    && (t.missed != [] ==> forall j :: 0 <= j < |t.answers| ==> t.answers[j] < t.checked)
  }

  /** An answered batch. Every request was read under its own key; the misses were answered by the first call. If a
      hit was below the watermark at the check, all hits were answered by a second call, stamped after the check;
      if none was, all are kept as read. */
  predicate Explained(cfg: Config, states: seq<Cache>, events: seq<Event>, start: nat, decode: Decoder, reqs: seq<Request>,
                      one: Reply, two: Reply, out: seq<Decision>, t: Trace) {
    && |out| == |reqs| == |t.found| && |states| == |events| + 1 && Checked(events, t)
    && AllRead(cfg, states, events, start, reqs, t.found, t.hits, t.missed, t.seen)
    && (t.missed != [] ==> CalledFor(decode, one, events, start, reqs, t.missed, out, t.first, t.answers))
    && (t.again <==> Below(t.found, t.hits, states[t.checked].watermark))
    && (t.again ==> CalledFor(decode, two, events, t.checked, reqs, t.hits, out, t.second, t.reanswers))
    && (!t.again ==> forall i :: 0 <= i < |t.hits| ==> out[t.hits[i]] == t.found[t.hits[i]])
  }

  /** Answers recorded while the cache stayed open are at most the watermark from then on. */
  lemma RecordedBelowWatermark(cfg: Config, states: seq<Cache>, events: seq<Event>, start: nat, reqs: seq<Request>,
                               idx: seq<nat>, got: seq<Decision>, a: nat, at: seq<nat>, later: nat, j: nat)
    requires IsRun(cfg, states, events) && Recorded(events, start, reqs, idx, got, a, at) && NoneLocal(got)
    requires j < |at| && !states[at[|at| - 1] + 1].closed && at[|at| - 1] < later <= |events|
    ensures got[j].Revision() <= states[later].watermark
  {
    assert at[j] <= at[|at| - 1];
    RunGrows(cfg, states, events, at[j], at[|at| - 1] + 1);
    assert CacheRuns.Records(states, events, at[j]);
    WatermarkIsMaximum(cfg, states, events, later);
  }

  /** Every item of an answered batch is a verdict. */
  lemma ExplainedIsAnswered(cfg: Config, states: seq<Cache>, events: seq<Event>, start: nat, decode: Decoder, reqs: seq<Request>,
                            one: Reply, two: Reply, out: seq<Decision>, t: Trace)
    requires IsRun(cfg, states, events) && Explained(cfg, states, events, start, decode, reqs, one, two, out, t)
    ensures |out| == |reqs| && NoneLocal(out)
  {
    forall i | 0 <= i < |out| ensures out[i].Verdict? {
      if i in t.missed {
        var j :| 0 <= j < |t.missed| && t.missed[j] == i;
      } else {
        var j :| 0 <= j < |t.hits| && t.hits[j] == i;
        if !t.again { ServedAllowIsCurrent(cfg, states, events, t.seen[i]); }
      }
    }
  }

  lemma CalledForGoes(decode: Decoder, reply: Reply, events: seq<Event>, start: nat, reqs: seq<Request>, idx: seq<nat>,
                      out: seq<Decision>, a: nat, at: seq<nat>, e: seq<Event>)
    requires CalledFor(decode, reply, events, start, reqs, idx, out, a, at) && events <= e
    ensures CalledFor(decode, reply, e, start, reqs, idx, out, a, at)
  {
    RecordedGoes(events, start, reqs, idx, Picked(out, idx), a, at, e);
  }

  /** One call with its answers put in place. */
  method Ask(h: History, decode: Decoder, reqs: seq<Request>, idx: seq<nat>, reply: Reply, out: seq<Decision>,
             env: nat -> seq<Step>, clock: nat -> int, from: nat)
      returns (failure: Option<Decision>, r: seq<Decision>, ghost a: nat, ghost at: seq<nat>)
    requires h.Valid() && |out| == |reqs| && Ascending(idx, |reqs|) && idx != []
    modifies h.Repr()
    ensures h.Valid() && fresh(h.Repr() - old(h.Repr())) && Goes(old(h.states), old(h.events), h.states, h.events)
    ensures failure.Some? ==> failure.value.Local?
    ensures failure.None? <==> BoundTo(decode, reply, Chosen(reqs, idx))
    ensures reply.Failed? ==> failure == Some(Local(reply.reason))
    ensures |r| == |reqs| && forall i :: 0 <= i < |reqs| && i !in idx ==> r[i] == out[i]
    ensures failure.None? ==> CalledFor(decode, reply, h.events, |old(h.events)|, reqs, idx, r, a, at)
    ensures failure.None? ==> at[|at| - 1] + 1 == |h.events|
  {
    hide History.Valid, FromReply, Recorded, BoundTo, Chosen;
    var got;
    failure, got, a, at := Call(h, decode, reqs, idx, reply, env, clock, from);
    if failure.Some? { return failure, out, a, at; }
    r := Fill(out, idx, got);
    PickedAt(r, idx);
  }

  lemma PickedAt(out: seq<Decision>, idx: seq<nat>)
    requires Ascending(idx, |out|)
    ensures forall j :: 0 <= j < |idx| ==> Picked(out, idx)[j] == out[idx[j]]
  {
  }

  lemma CalledForLater(decode: Decoder, reply: Reply, events: seq<Event>, start: nat, earlier: nat, reqs: seq<Request>,
                       idx: seq<nat>, out: seq<Decision>, a: nat, at: seq<nat>)
    requires CalledFor(decode, reply, events, start, reqs, idx, out, a, at) && earlier <= start
    ensures CalledFor(decode, reply, events, earlier, reqs, idx, out, a, at)
  {
  }

  /** The misses keep their answers while the hits are answered again. */
  lemma CalledForElsewhere(decode: Decoder, reply: Reply, events: seq<Event>, start: nat, reqs: seq<Request>,
                           idx: seq<nat>, out: seq<Decision>, a: nat, at: seq<nat>, r: seq<Decision>)
    requires CalledFor(decode, reply, events, start, reqs, idx, out, a, at)
    requires |r| == |out| && forall j :: 0 <= j < |idx| ==> r[idx[j]] == out[idx[j]]
    ensures CalledFor(decode, reply, events, start, reqs, idx, r, a, at)
  {
    assert Picked(r, idx) == Picked(out, idx);
  }

  /** The batch after the call for the misses. */
  predicate Halfway(cfg: Config, states: seq<Cache>, events: seq<Event>, start: nat, decode: Decoder, reqs: seq<Request>,
                    one: Reply, out: seq<Decision>, t: Trace) {
    && |out| == |reqs| == |t.found| && |states| == |events| + 1
    && AllRead(cfg, states, events, start, reqs, t.found, t.hits, t.missed, t.seen)
    && (forall i :: 0 <= i < |reqs| && i !in t.missed ==> out[i] == t.found[i])
    && (t.missed != [] ==> CalledFor(decode, one, events, start, reqs, t.missed, out, t.first, t.answers))
  }

  lemma HalfwayGoes(cfg: Config, states: seq<Cache>, events: seq<Event>, start: nat, decode: Decoder, reqs: seq<Request>,
                    one: Reply, out: seq<Decision>, t: Trace, s: seq<Cache>, e: seq<Event>)
    requires Halfway(cfg, states, events, start, decode, reqs, one, out, t) && Goes(states, events, s, e) && |s| == |e| + 1
    ensures Halfway(cfg, s, e, start, decode, reqs, one, out, t) && Halfway(cfg, s, e, start, decode, reqs, one, out, t.(checked := |e|))
  {
    AllReadGoes(cfg, states, events, start, reqs, t.found, t.hits, t.missed, t.seen, s, e);
    if t.missed != [] { CalledForGoes(decode, one, events, start, reqs, t.missed, out, t.first, t.answers, e); }
  }

  lemma HalfwayChecked(cfg: Config, states: seq<Cache>, events: seq<Event>, start: nat, decode: Decoder, reqs: seq<Request>,
                       one: Reply, out: seq<Decision>, t: Trace)
    requires Halfway(cfg, states, events, start, decode, reqs, one, out, t) && t.checked == |events|
    ensures Checked(events, t) && Picked(out, t.hits) == Picked(t.found, t.hits)
    ensures Below(out, t.hits, states[t.checked].watermark) <==> Below(t.found, t.hits, states[t.checked].watermark)
  {
    forall i | 0 <= i < |t.seen| ensures t.seen[i] < t.checked {
      assert ReadsAt(cfg, states, events, t.seen[i], reqs[i].key, if i in t.missed then None else Some(t.found[i]));
    }
    PickedAt(out, t.hits);
    PickedAt(t.found, t.hits);
  }

  lemma KeptExplained(cfg: Config, states: seq<Cache>, events: seq<Event>, start: nat, decode: Decoder, reqs: seq<Request>,
                      one: Reply, two: Reply, out: seq<Decision>, t: Trace)
    requires Halfway(cfg, states, events, start, decode, reqs, one, out, t) && t.checked == |events|
    requires !t.again && !Below(out, t.hits, states[t.checked].watermark)
    ensures Explained(cfg, states, events, start, decode, reqs, one, two, out, t)
  {
    hide CalledFor;
    HalfwayChecked(cfg, states, events, start, decode, reqs, one, out, t);
    PickedAt(out, t.hits);
    PickedAt(t.found, t.hits);
  }

  lemma AskedAgainExplained(cfg: Config, states: seq<Cache>, events: seq<Event>, start: nat, decode: Decoder, reqs: seq<Request>,
                            one: Reply, two: Reply, out: seq<Decision>, t: Trace, s: seq<Cache>, e: seq<Event>, r: seq<Decision>,
                            a: nat, at: seq<nat>)
    requires Halfway(cfg, states, events, start, decode, reqs, one, out, t) && t.checked == |events|
    requires Below(out, t.hits, states[t.checked].watermark)
    requires Goes(states, events, s, e) && |s| == |e| + 1 && |r| == |reqs|
    requires forall i :: 0 <= i < |reqs| && i !in t.hits ==> r[i] == out[i]
    requires CalledFor(decode, two, e, t.checked, reqs, t.hits, r, a, at)
    ensures Explained(cfg, s, e, start, decode, reqs, one, two, r, t.(again := true, second := a, reanswers := at))
  {
    hide CalledFor;
    HalfwayChecked(cfg, states, events, start, decode, reqs, one, out, t);
    HalfwayGoes(cfg, states, events, start, decode, reqs, one, out, t, s, e);
    if t.missed != [] {
      assert forall j :: 0 <= j < |t.missed| ==> t.missed[j] in t.missed;
      CalledForElsewhere(decode, one, e, start, reqs, t.missed, out, t.first, t.answers, r);
    }
  }

  /** The reads and the call for the misses. */
  method AnswerMisses(h: History, decode: Decoder, reqs: seq<Request>, one: Reply, env: nat -> seq<Step>, clock: nat -> int)
      returns (failure: Option<Decision>, out: seq<Decision>, hits: seq<nat>, ghost t: Trace)
    requires h.Valid()
    modifies h.Repr()
    ensures h.Valid() && fresh(h.Repr() - old(h.Repr())) && Goes(old(h.states), old(h.events), h.states, h.events)
    ensures failure.Some? ==> failure.value.Local?
    ensures t.hits == hits && Ascending(hits, |reqs|) && Ascending(t.missed, |reqs|) && !t.again
    ensures |t.found| == |reqs| && AllRead(h.client.cfg, h.states, h.events, |old(h.events)|, reqs, t.found, t.hits, t.missed, t.seen)
    ensures failure.None? <==> t.missed == [] || BoundTo(decode, one, Chosen(reqs, t.missed))
    ensures t.missed != [] && one.Failed? ==> failure == Some(Local(one.reason))
    ensures failure.None? ==> Halfway(h.client.cfg, h.states, h.events, |old(h.events)|, decode, reqs, one, out, t)
  {
    hide Client.Valid, IsRun, CalledFor, BoundTo, Chosen, ReadsAt;
    failure := None;
    var found, misses; ghost var seen;
    found, hits, misses, seen := ReadAll(h, reqs, env, clock);
    t, out := Trace(found, hits, misses, seen, 0, [], 0, false, 0, []), found;
    if |misses| > 0 {
      ghost var s, e := h.states, h.events;
      ghost var a, at;
      failure, out, a, at := Ask(h, decode, reqs, misses, one, found, env, clock, |reqs|);
      t := t.(first := a, answers := at);
      AllReadGoes(h.client.cfg, s, e, |old(h.events)|, reqs, found, hits, misses, seen, h.states, h.events);
      if failure.None? { CalledForLater(decode, one, h.events, |e|, |old(h.events)|, reqs, misses, out, a, at); }
    }
  }

  // ----- what a kept hit is -----

  /** No decision read from the cache comes back once the watermark has moved: a kept hit is an allow of the decision
      point for its own key, recorded as the answer to a stamp that no refusal of the key and no invalidation followed
      before the read, and its revision is the watermark both at the read and at the check. */
  lemma KeptIsCurrent(cfg: Config, states: seq<Cache>, events: seq<Event>, start: nat, decode: Decoder, reqs: seq<Request>,
                      one: Reply, two: Reply, out: seq<Decision>, t: Trace, i: nat)
    requires IsRun(cfg, states, events) && Explained(cfg, states, events, start, decode, reqs, one, two, out, t)
    requires !t.again && i < |reqs| && i in t.hits
    ensures var n := t.seen[i];
            && start <= n < t.checked && out[i].Storable()
            && out[i].Revision() == states[n].watermark == states[t.checked].watermark
            && exists m, a ::
                 && 0 <= a < m < n && events[a].Ask? && Answers(events[m], a, reqs[i].key, out[i])
                 && 0 <= events[n].now - events[a].now < cfg.maxTTL && events[n].now < out[i].expiresAt
                 && (forall j :: a < j < n ==> !Refuses(states, events, j, reqs[i].key))
  {
    var n := t.seen[i];
    assert ReadsAt(cfg, states, events, n, reqs[i].key, Some(out[i]));
    ServedAllowIsCurrent(cfg, states, events, n);
    RunGrows(cfg, states, events, n, t.checked);
    assert !Below(t.found, t.hits, states[t.checked].watermark);
  }

  lemma MissBelowWatermark(cfg: Config, states: seq<Cache>, events: seq<Event>, start: nat, decode: Decoder, reqs: seq<Request>,
                           one: Reply, out: seq<Decision>, t: Trace, m: nat)
    requires IsRun(cfg, states, events) && CalledFor(decode, one, events, start, reqs, t.missed, out, t.first, t.answers)
    requires m < |t.missed| && Checked(events, t) && !states[t.answers[|t.answers| - 1] + 1].closed
    ensures out[t.missed[m]].Revision() <= states[t.checked].watermark
  {
    RecordedBelowWatermark(cfg, states, events, start, reqs, t.missed, Picked(out, t.missed), t.first, t.answers, t.checked, m);
  }

  /** No kept hit is below a miss that was recorded while the cache stayed open. */
  lemma KeptIsLevel(cfg: Config, states: seq<Cache>, events: seq<Event>, start: nat, decode: Decoder, reqs: seq<Request>,
                    one: Reply, two: Reply, out: seq<Decision>, t: Trace)
    requires IsRun(cfg, states, events) && Explained(cfg, states, events, start, decode, reqs, one, two, out, t)
    requires !t.again && (t.missed != [] ==> !states[t.answers[|t.answers| - 1] + 1].closed)
    ensures Level(out, t.hits, t.missed)
  {
    hide IsRun, ReadsAt, FromReply, Recorded;
    forall i, m | 0 <= i < |t.hits| && 0 <= m < |t.missed| ensures out[t.missed[m]].Revision() <= out[t.hits[i]].Revision() {
      MissBelowWatermark(cfg, states, events, start, decode, reqs, one, out, t, m);
      assert !Below(t.found, t.hits, states[t.checked].watermark);
    }
  }

  // ----- the batch itself -----

  /** What decides a batch: it is answered exactly when the first reply is bound to the misses, if there are any, and
      the second to the hits, if one of them is below the watermark at the check. */
  predicate Decides(cfg: Config, states: seq<Cache>, events: seq<Event>, start: nat, decode: Decoder, reqs: seq<Request>,
                    one: Reply, two: Reply, t: Trace, answered: bool) {
    && |t.found| == |reqs| && |states| == |events| + 1
    && AllRead(cfg, states, events, start, reqs, t.found, t.hits, t.missed, t.seen)
    && var first := t.missed == [] || BoundTo(decode, one, Chosen(reqs, t.missed));
       && (first ==> Checked(events, t))
       && (answered <==> first && (Below(t.found, t.hits, states[t.checked].watermark) ==> BoundTo(decode, two, Chosen(reqs, t.hits))))
  }

  lemma FailedDecides(cfg: Config, states: seq<Cache>, events: seq<Event>, start: nat, decode: Decoder, reqs: seq<Request>,
                      one: Reply, two: Reply, t: Trace)
    requires |t.found| == |reqs| && |states| == |events| + 1
    requires AllRead(cfg, states, events, start, reqs, t.found, t.hits, t.missed, t.seen)
    requires t.missed != [] && !BoundTo(decode, one, Chosen(reqs, t.missed))
    ensures Decides(cfg, states, events, start, decode, reqs, one, two, t, false)
  {
  }

  /** The check decides whether the second reply matters. */
  lemma CheckDecides(cfg: Config, states: seq<Cache>, events: seq<Event>, start: nat, decode: Decoder, reqs: seq<Request>,
                     one: Reply, two: Reply, out: seq<Decision>, t: Trace, s: seq<Cache>, e: seq<Event>, t1: Trace, answered: bool)
    requires Halfway(cfg, states, events, start, decode, reqs, one, out, t) && t.checked == |events|
    requires t.missed == [] || BoundTo(decode, one, Chosen(reqs, t.missed))
    requires Goes(states, events, s, e) && |s| == |e| + 1
    requires answered <==> (Below(out, t.hits, states[t.checked].watermark) ==> BoundTo(decode, two, Chosen(reqs, t.hits)))
    requires t1 == t.(again := t1.again, second := t1.second, reanswers := t1.reanswers)
    ensures Decides(cfg, s, e, start, decode, reqs, one, two, t1, answered)
  {
    hide CalledFor, BoundTo, Chosen;
    HalfwayChecked(cfg, states, events, start, decode, reqs, one, out, t);
    HalfwayGoes(cfg, states, events, start, decode, reqs, one, out, t, s, e);
  }

  /** The reads, the call for the misses, the check and the second call. */
  method AnswerBatch(h: History, decode: Decoder, reqs: seq<Request>, one: Reply, two: Reply, env: nat -> seq<Step>, clock: nat -> int)
      returns (failure: Option<Decision>, out: seq<Decision>, ghost t: Trace)
    requires h.Valid()
    modifies h.Repr()
    ensures h.Valid() && fresh(h.Repr() - old(h.Repr())) && Goes(old(h.states), old(h.events), h.states, h.events)
    ensures failure.Some? ==> failure.value.Local?
    ensures failure.None? ==> Explained(h.client.cfg, h.states, h.events, |old(h.events)|, decode, reqs, one, two, out, t)
    ensures Decides(h.client.cfg, h.states, h.events, |old(h.events)|, decode, reqs, one, two, t, failure.None?)
    ensures t.missed != [] && one.Failed? ==> failure == Some(Local(one.reason))
  {
    hide Client.Valid, IsRun, Halfway, Explained, CalledFor, Decides, BoundTo, Chosen, AllRead;
    var hits;
    ghost var start := |old(h.events)|;
    failure, out, hits, t := AnswerMisses(h, decode, reqs, one, env, clock);
    if failure.Some? {
      FailedDecides(h.client.cfg, h.states, h.events, start, decode, reqs, one, two, t);
      return;
    }
    ghost var s, e := h.states, h.events;
    Interleave(h, env(2 * |reqs| + 1));
    HalfwayGoes(h.client.cfg, s, e, start, decode, reqs, one, out, t, h.states, h.events);
    t := t.(checked := |h.events|);
    var below := BelowWatermark(h.client, out, hits);
    if below {
      s, e := h.states, h.events;
      ghost var halfway := out;
      ghost var a, at;
      failure, out, a, at := Ask(h, decode, reqs, hits, two, out, env, clock, 2 * |reqs| + 2);
      if failure.None? { AskedAgainExplained(h.client.cfg, s, e, start, decode, reqs, one, two, halfway, t, h.states, h.events, out, a, at); }
      ghost var t1 := t.(again := true, second := a, reanswers := at);
      CheckDecides(h.client.cfg, s, e, start, decode, reqs, one, two, halfway, t, h.states, h.events, t1, failure.None?);
      t := t1;
    } else {
      KeptExplained(h.client.cfg, h.states, h.events, start, decode, reqs, one, two, out, t);
      CheckDecides(h.client.cfg, h.states, h.events, start, decode, reqs, one, two, out, t, h.states, h.events, t, true);
    }
  }

  /** A batch through the cache. An oversize batch and an invalid request deny every item; otherwise Decides says
      exactly when every item is a verdict, and Explained accounts for these. */
  method DecideBatch(h: History, decode: Decoder, valid: Request -> bool, reqs: seq<Request>, one: Reply, two: Reply,
                     env: nat -> seq<Step>, clock: nat -> int) returns (out: seq<Decision>, ghost t: Trace)
    requires h.Valid()
    modifies h.Repr()
    ensures h.Valid() && fresh(h.Repr() - old(h.Repr())) && Goes(old(h.states), old(h.events), h.states, h.events)
    ensures |out| == |reqs|
    ensures AllLocal(out) || (NoneLocal(out) && Explained(h.client.cfg, h.states, h.events, |old(h.events)|, decode, reqs, one, two, out, t))
    ensures |reqs| > 100 || (exists i :: 0 <= i < |reqs| && !valid(reqs[i])) ==> out == DenyAll(Local("pdp_invalid_request"), |reqs|)
    ensures 0 < |reqs| <= 100 && (forall i :: 0 <= i < |reqs| ==> valid(reqs[i])) ==>
              && Decides(h.client.cfg, h.states, h.events, |old(h.events)|, decode, reqs, one, two, t, NoneLocal(out))
              && (t.missed != [] && one.Failed? ==> out == DenyAll(Local(one.reason), |reqs|))
  {
    hide Explained, Decides, Client.Valid, IsRun;
    t := Trace([], [], [], [], 0, [], 0, false, 0, []);
    if |reqs| == 0 { return [], t; }
    if |reqs| > MAX_BATCH { return DenyAll(INVALID, |reqs|), t; }
    for i := 0 to |reqs|
      invariant forall k :: 0 <= k < i ==> valid(reqs[k])
    {
      if !valid(reqs[i]) { return DenyAll(INVALID, |reqs|), t; }
    }
    var failure;
    failure, out, t := AnswerBatch(h, decode, reqs, one, two, env, clock);
    if failure.Some? {
      out := DenyAll(failure.value, |reqs|);
      assert out[0].Local?;
      return;
    }
    ExplainedIsAnswered(h.client.cfg, h.states, h.events, |old(h.events)|, decode, reqs, one, two, out, t);
  }
}
