/** Login sessions: a token stays valid as long as it is used often enough. */
module SessionStore {
  type Time = int

  class Store {
    const ttl: Time
    var entries: map<string, Time>

    constructor (ttl: Time)
      ensures this.ttl == ttl && entries == map[]
    {
      this.ttl := ttl;
      entries := map[];
    }

    method Add(now: Time, token: string) returns (exp: Time)
      modifies this
      ensures exp == now + ttl
      ensures entries == Step(ttl, old(entries), AddOp(now, token))
    {
      exp := now + ttl;
      entries := entries[token := exp];
    }

    /** The clock is read once for the check and again for the renewal. */
    method Valid(now: Time, renewedAt: Time, token: string) returns (ok: bool)
      modifies this
      ensures ok == Accepts(old(entries), now, token)
      ensures entries == Step(ttl, old(entries), UseOp(now, renewedAt, token))
    {
      if token !in entries {
        return false;
      }
      if !(now < entries[token]) {
        entries := entries - {token};
        return false;
      }
      entries := entries[token := renewedAt + ttl];
      return true;
    }

    method Remove(now: Time, token: string) returns (existed: bool)
      modifies this
      ensures existed == (token in old(entries))
      ensures entries == Step(ttl, old(entries), RemoveOp(now, token))
    {
      existed := token in entries;
      entries := entries - {token};
    }
  }

  datatype Op =
    | AddOp(now: Time, token: string)
    | UseOp(now: Time, renewedAt: Time, token: string)
    | RemoveOp(now: Time, token: string)
  {
    /** The last clock reading of the operation. */
    function End(): Time { if UseOp? then renewedAt else now }
  }

  predicate Accepts(entries: map<string, Time>, now: Time, token: string) {
    token in entries && now < entries[token]
  }

  function Step(ttl: Time, entries: map<string, Time>, op: Op): map<string, Time> {
    match op
    case AddOp(now, token) => entries[token := now + ttl]
    case UseOp(now, renewedAt, token) =>
      if Accepts(entries, now, token) then entries[token := renewedAt + ttl] else entries - {token}
    case RemoveOp(_, token) => entries - {token}
  }

  function After(ttl: Time, h: seq<Op>): map<string, Time> {
    if h == [] then map[] else Step(ttl, After(ttl, h[..|h| - 1]), h[|h| - 1])
  }

  ghost predicate Clocked(h: seq<Op>) {
    && (forall i :: 0 <= i < |h| ==> h[i].now <= h[i].End())
    && forall i :: 0 < i < |h| ==> h[i - 1].End() <= h[i].now
  }

  /** The uses of a token since it was last added, the addition included, provided that it has not
      been removed since. What the store answered plays no part. */
  function Uses(h: seq<Op>, token: string): seq<Op> {
    if h == [] then []
    else
      var last := h[|h| - 1];
      var before := Uses(h[..|h| - 1], token);
      if last.token != token then before
      else if last.AddOp? then [last]
      else if last.RemoveOp? || before == [] then []
      else before + [last]
  }

  ghost predicate GapsBelow(ttl: Time, uses: seq<Op>) {
    forall i :: 0 < i < |uses| ==> uses[i].now - uses[i - 1].End() < ttl
  }

  lemma {:induction false} UsesClocked(h: seq<Op>, token: string)
    requires Clocked(h) && Uses(h, token) != []
    ensures var u := Uses(h, token); h != [] && u[|u| - 1].End() <= h[|h| - 1].End()
  {
    if h[|h| - 1].token != token {
      UsesClocked(h[..|h| - 1], token);
    }
  }

  /** A stored expiry is one lifetime after the last use, and all gaps before it were short; a token
      with short gaps is stored. */
  lemma {:induction false} StoredMeaning(ttl: Time, h: seq<Op>, token: string)
    requires Clocked(h)
    ensures var u := Uses(h, token);
            && (token in After(ttl, h) <==> u != [] && GapsBelow(ttl, u))
            && (token in After(ttl, h) ==> After(ttl, h)[token] == u[|u| - 1].End() + ttl)
  {
    if h != [] {
      var before := h[..|h| - 1];
      StoredMeaning(ttl, before, token);
      var u := Uses(before, token);
      var last := h[|h| - 1];
      if last.token == token && last.UseOp? && u != [] {
        assert forall i :: 0 <= i < |u| ==> (u + [last])[i] == u[i];
        assert (u + [last])[|u|] == last && (u + [last])[|u| - 1] == u[|u| - 1];
        assert GapsBelow(ttl, u + [last]) <==> GapsBelow(ttl, u) && last.now - u[|u| - 1].End() < ttl;
      }
    }
  }

  /** A token is accepted exactly when it was added, not removed since, and no two successive uses up
      to and including this one are a lifetime or more apart. */
  lemma ValidMeaning(ttl: Time, h: seq<Op>, now: Time, renewedAt: Time, token: string)
    requires Clocked(h + [UseOp(now, renewedAt, token)])
    ensures var u := Uses(h, token);
            Accepts(After(ttl, h), now, token) <==>
            u != [] && GapsBelow(ttl, u + [UseOp(now, renewedAt, token)])
  {
    var op := UseOp(now, renewedAt, token);
    var all := h + [op];
    assert forall i :: 0 <= i < |h| ==> h[i] == all[i];
    StoredMeaning(ttl, h, token);
    var u := Uses(h, token);
    if u != [] {
      assert forall i :: 0 <= i < |u| ==> (u + [op])[i] == u[i];
      assert (u + [op])[|u|] == op && (u + [op])[|u| - 1] == u[|u| - 1];
      assert GapsBelow(ttl, u + [op]) <==> GapsBelow(ttl, u) && now - u[|u| - 1].End() < ttl;
    }
  }
}
