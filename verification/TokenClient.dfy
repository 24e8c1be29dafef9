/** The workload token client as an object: the sections of Token and Invalidate over its slots. */
module TokenClient {
  import opened Wrappers
  import opened JsonDoc
  import opened NumberText
  import opened TokenWire
  import opened TokenCheck
  import opened TokenSlots

  class Client {
    const env: Env
    const cfg: Config
    var slots: map<Key, Slot>

    ghost function At(key: Key): Slot
      reads this
    {
      if key in slots then slots[key] else EMPTY
    }

    constructor (env: Env, cfg: Config)
      requires cfg.Valid(env)
      ensures this.env == env && this.cfg == cfg && slots == map[]
    {
      this.env, this.cfg, slots := env, cfg, map[];
    }

    /** The first section of Token: find or make the slot, drop a token that left its window, then answer,
        wait or take the flight. */
    method Begin(key: Key, now: int) returns (outcome: Outcome)
      modifies this
      ensures slots == old(slots)[key := Begun(env, cfg, old(At(key)), now).0]
      ensures outcome == Begun(env, cfg, old(At(key)), now).1
    {
      var s := EMPTY;
      if key in slots { s := slots[key]; }
      if s.entry.Some? {
        var checked := CheckToken(env, cfg.check, s.entry.value, now);
        if !checked.Usable? {
          s := s.(entry := None);
        } else if now < checked.window.refreshAt {
          slots := slots[key := s];
          return Token(s.entry.value.token);
        }
      }
      if s.flight {
        slots := slots[key := s];
        return if s.entry.Some? then Token(s.entry.value.token) else Wait;
      }
      if s.retryAt.Some? && now < s.retryAt.value {
        slots := slots[key := s];
        return if s.entry.Some? then Token(s.entry.value.token) else NoUsable(s.lastErr);
      }
      s := s.(flight := true);
      slots := slots[key := s];
      return Start;
    }

    /** The check of an answer at the reading taken when it arrived. */
    method Judge(answer: Answer, arrived: int) returns (cause: Option<Cause>)
      ensures cause == Complaint(env, cfg, answer, arrived)
    {
      if answer.Failed? { return Some(Exchange(answer.reason)); }
      var checked := CheckToken(env, cfg.check, answer.entry, arrived);
      if checked.NotYetValid? { return Some(TooEarly); }
      if checked.Refused? { return Some(Unusable); }
      cause := None;
    }

    /** The second section of Token, run by the caller whose exchange has ended. */
    method Finish(key: Key, answer: Answer, arrived: int, failed: int, held: int) returns (outcome: Outcome)
      requires cfg.Valid(env) && key in slots
      modifies this
      ensures var (t, o) := Settled(env, cfg, old(At(key)), answer, arrived, failed, held);
              slots == old(slots)[key := t] && outcome == o
    {
      var s := slots[key].(flight := false);
      var cause := Judge(answer, arrived);
      if cause.Some? {
        outcome := Fail(key, s, cause.value, failed, held);
        return;
      }
      s := Slot(Some(answer.entry), false, None, 0, None);
      slots := slots[key := s];
      return Token(answer.entry.token);
    }

    /** The end of a failed exchange, with the slot already off its flight. */
    method Fail(key: Key, slot: Slot, cause: Cause, failed: int, held: int) returns (outcome: Outcome)
      requires cfg.Valid(env)
      modifies this
      ensures var n := slot.failures + 1;
              var t := Slot(slot.entry, slot.flight, Some(failed + Waited(cfg, n)), n, Some(cause));
              if UsableAt(env, cfg, slot.entry, held)
              then slots == old(slots)[key := t] && outcome == Token(slot.entry.value.token)
              else slots == old(slots)[key := t.(entry := None)] && outcome == NoUsable(Some(cause))
    {
      var s := slot.(failures := slot.failures + 1, lastErr := Some(cause));
      var wait := Backoff(cfg, s.failures);
      s := s.(retryAt := Some(failed + wait));
      if UsableAt(env, cfg, s.entry, held) {
        slots := slots[key := s];
        return Token(s.entry.value.token);
      }
      s := s.(entry := None);
      slots := slots[key := s];
      return NoUsable(Some(cause));
    }

    method Invalidate(key: Key)
      modifies this
      ensures slots == if key in old(slots) then old(slots)[key := Invalidated(old(At(key)))] else old(slots)
    {
      if key in slots {
        slots := slots[key := slots[key].(entry := None, retryAt := None, failures := 0, lastErr := None)];
      }
    }
  }

  // ----- the readers of the check -----

  /** The member map a decoder fills one member at a time, stopping at the first name met again: it is filled
      exactly for distinct names, and then holds what a lookup finds. */
  method ReadMembers(members: seq<Member>) returns (r: Option<map<string, Doc>>)
    ensures r.Some? <==> DistinctNames(members)
    ensures r.Some? ==> |r.value| == |members|
    ensures r.Some? ==> forall name :: Lookup(members, name) == if name in r.value then Some(r.value[name]) else None
  {
    var found: map<string, Doc> := map[];
    for i := 0 to |members|
      invariant DistinctNames(members[..i]) && |found| == i
      invariant forall name :: Lookup(members[..i], name) == if name in found then Some(found[name]) else None
    {
      var m := members[i];
      assert members[..i + 1] == members[..i] + [m];
      LookupPresent(members[..i], m.name);
      if m.name in found { return None; }
      found := found[m.name := m.value];
    }
    assert members[..|members|] == members;
    r := Some(found);
  }

  /** The three dates read into an array in order, and their order checked. */
  method ReadDates(members: seq<Member>) returns (r: Option<Dates>)
    ensures r == DateClaims(members)
  {
    var dates := new int[3];
    var names := ["iat", "nbf", "exp"];
    for i := 0 to 3
      invariant forall j :: 0 <= j < i ==> DateOf(members, names[j]) == Some(dates[j])
    {
      var value := DateOf(members, names[i]);
      if value.None? { return None; }
      dates[i] := value.value;
    }
    assert names[0] == "iat" && names[1] == "nbf" && names[2] == "exp";
    if dates[1] < dates[0] || dates[2] - dates[0] > MAX_LIFETIME { return None; }
    r := Some(Dates(dates[0], dates[1], dates[2]));
  }
}
