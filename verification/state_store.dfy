/** The store of pending authorizations: random, short-lived, consumed once. */
module StateStore {
  import opened Prelude

  const STATE_TTL := 600

  datatype Entry = Entry(verifier: string, service: string, account: string, expiresAt: int)
  datatype Error = StateInvalid | StateExpired

  type Entries = map<string, Entry>

  function Purged(entries: Entries, now: int): Entries {
    map k | k in entries && !(now > entries[k].expiresAt) :: entries[k]
  }

  function Registered(entries: Entries, now: int, state: string, e: Entry): Entries {
    Purged(entries, now)[state := e.(expiresAt := now + STATE_TTL)]
  }

  function Consumed(entries: Entries, now: int, state: string): (Entries, Result<Entry, Error>) {
    if state !in entries then (entries, Err(StateInvalid))
    else
      (entries - {state},
       if now > entries[state].expiresAt then Err(StateExpired) else Ok(entries[state]))
  }

  class Store {
    var entries: Entries

    constructor ()
      ensures entries == map[]
    {
      entries := map[];
    }

    method Purge(now: int)
      modifies this
      ensures entries == Purged(old(entries), now)
    {
      var left := entries.Keys;
      while left != {}
        invariant left <= old(entries).Keys
        invariant forall k :: k in entries ==> k in old(entries) && entries[k] == old(entries)[k]
        invariant forall k :: k in old(entries) ==>
                    (k in entries <==> k in left || !(now > old(entries)[k].expiresAt))
        decreases |left|
      {
        var k :| k in left;
        if now > entries[k].expiresAt {
          entries := entries - {k};
        }
        left := left - {k};
      }
    }

    /** state is the random value drawn for this authorization. */
    method Put(now: int, state: string, verifier: string, service: string, account: string)
      modifies this
      ensures entries == Registered(old(entries), now, state, Entry(verifier, service, account, 0))
    {
      Purge(now);
      entries := entries[state := Entry(verifier, service, account, now + STATE_TTL)];
    }

    method Consume(now: int, state: string) returns (r: Result<Entry, Error>)
      modifies this
      ensures (entries, r) == Consumed(old(entries), now, state)
    {
      if state !in entries {
        return Err(StateInvalid);
      }
      var entry := entries[state];
      entries := entries - {state};
      if now > entry.expiresAt {
        return Err(StateExpired);
      }
      return Ok(entry);
    }
  }

  // ---- histories ----

  datatype Op = PutOp(now: int, state: string, entry: Entry) | ConsumeOp(now: int, state: string)

  /** The clock readings of successive operations do not decrease. */
  ghost predicate Clocked(h: seq<Op>) {
    forall i :: 0 < i < |h| ==> h[i - 1].now <= h[i].now
  }

  /** The entries after a history; purging says whether put reclaims expired entries. */
  function After(h: seq<Op>, purging: bool): Entries {
    if h == [] then map[]
    else
      var before := After(h[..|h| - 1], purging);
      match h[|h| - 1]
      case PutOp(now, state, e) =>
        if purging then Registered(before, now, state, e) else before[state := e.(expiresAt := now + STATE_TTL)]
      case ConsumeOp(now, state) => Consumed(before, now, state).0
  }

  /** The authorization a state stands for: the last one put under it, unless an attempt to consume
      it came later. Expiry plays no part. */
  function Pending(h: seq<Op>, state: string): Option<Entry> {
    if h == [] then None
    else
      match h[|h| - 1]
      case PutOp(now, st, e) =>
        if st == state then Some(e.(expiresAt := now + 10 * 60)) else Pending(h[..|h| - 1], state)
      case ConsumeOp(_, st) =>
        if st == state then None else Pending(h[..|h| - 1], state)
  }

  /** Every stored entry is pending, and a pending entry missing from the store has expired. */
  lemma {:induction false} StoredIsPending(h: seq<Op>, purging: bool, state: string)
    requires Clocked(h)
    ensures state in After(h, purging) ==> Pending(h, state) == Some(After(h, purging)[state])
    ensures Pending(h, state).Some? && state !in After(h, purging) ==>
              purging && h != [] && h[|h| - 1].now > Pending(h, state).value.expiresAt
  {
    if h != [] {
      StoredIsPending(h[..|h| - 1], purging, state);
    }
  }

  /** A consumption succeeds exactly when its state is pending and its ten minutes are not over, with
      or without purging; purging only turns the expired error into the invalid one. */
  lemma ConsumeMeaning(h: seq<Op>, purging: bool, now: int, state: string)
    requires Clocked(h + [ConsumeOp(now, state)])
    ensures var r := Consumed(After(h, purging), now, state).1;
            && (r.Ok? <==> Pending(h, state).Some? && now <= Pending(h, state).value.expiresAt)
            && (r.Ok? ==> r.value == Pending(h, state).value)
            && (Consumed(After(h, true), now, state).1.Ok? <==> Consumed(After(h, false), now, state).1.Ok?)
            && (!purging ==> (r == Err(StateInvalid) <==> Pending(h, state).None?))
  {
    var all := h + [ConsumeOp(now, state)];
    assert forall i :: 0 <= i < |h| ==> h[i] == all[i];
    assert h != [] ==> all[|h| - 1].now <= all[|h|].now;
    StoredIsPending(h, purging, state);
    StoredIsPending(h, true, state);
    StoredIsPending(h, false, state);
  }

  function Puts(h: seq<Op>, state: string): nat {
    if h == [] then 0
    else Puts(h[..|h| - 1], state) + if h[|h| - 1].PutOp? && h[|h| - 1].state == state then 1 else 0
  }

  function Successes(h: seq<Op>, state: string): nat {
    if h == [] then 0
    else
      var before := h[..|h| - 1];
      var last := h[|h| - 1];
      Successes(before, state) +
      if last.ConsumeOp? && last.state == state && Consumed(After(before, true), last.now, state).1.Ok? then 1 else 0
  }

  /** A state is consumed successfully at most once per put. */
  lemma {:induction false} ConsumedAtMostOncePerPut(h: seq<Op>, state: string)
    ensures Successes(h, state) + (if state in After(h, true) then 1 else 0) <= Puts(h, state)
  {
    if h != [] {
      ConsumedAtMostOncePerPut(h[..|h| - 1], state);
    }
  }
}
