/** Concurrency slots of access tokens: acquired up to a maximum, given back once each. */
module AccessSlots {
  import opened Prelude

  datatype Error = ConcurrencyLimit

  /** A release closure, and whether its once has fired. */
  datatype Handle = Handle(token: string, fired: bool)

  datatype State = State(inUse: map<string, int>, handles: seq<Handle>)

  datatype Op = Acquire(token: string, max: int) | Release(handle: nat)

  function InUse(inUse: map<string, int>, token: string): int {
    if token in inUse then inUse[token] else 0
  }

  predicate Full(s: State, token: string, max: int) {
    max > 0 && InUse(s.inUse, token) >= max
  }

  function Freed(s: State, token: string): map<string, int> {
    if InUse(s.inUse, token) > 0 then s.inUse[token := InUse(s.inUse, token) - 1] else s.inUse
  }

  function Step(s: State, op: Op): State {
    match op
    case Acquire(token, max) =>
      if Full(s, token, max) then s
      else State(s.inUse[token := InUse(s.inUse, token) + 1], s.handles + [Handle(token, false)])
    case Release(i) =>
      if i < |s.handles| && !s.handles[i].fired then
        State(Freed(s, s.handles[i].token), s.handles[i := s.handles[i].(fired := true)])
      else s
  }

  /** handles stands for the closures given out so far; each knows its token and its once. */
  class Service {
    var inUse: map<string, int>
    var handles: seq<Handle>

    ghost function Now(): State
      reads this
    {
      State(inUse, handles)
    }

    constructor ()
      ensures Now() == State(map[], [])
    {
      inUse, handles := map[], [];
    }

    method Acquire(token: string, max: int) returns (r: Result<nat, Error>)
      modifies this
      ensures Now() == Step(old(Now()), Op.Acquire(token, max))
      ensures r == if Full(old(Now()), token, max) then Err(ConcurrencyLimit) else Ok(|old(handles)|)
    {
      if max > 0 && InUse(inUse, token) >= max {
        return Err(ConcurrencyLimit);
      }
      inUse := inUse[token := InUse(inUse, token) + 1];
      handles := handles + [Handle(token, false)];
      return Ok(|handles| - 1);
    }

    /** Calling the release closure, perhaps not for the first time. */
    method Release(i: nat)
      requires i < |handles|
      modifies this
      ensures Now() == Step(old(Now()), Op.Release(i))
    {
      if !handles[i].fired {
        var token := handles[i].token;
        handles := handles[i := handles[i].(fired := true)];
        if InUse(inUse, token) > 0 {
          inUse := inUse[token := InUse(inUse, token) - 1];
        }
      }
    }
  }

  // ---- any sequence of acquires and releases ----

  function After(h: seq<Op>): State {
    if h == [] then State(map[], []) else Step(After(h[..|h| - 1]), h[|h| - 1])
  }

  /** The handles of a token that have not been released. */
  function Live(handles: seq<Handle>, token: string): nat {
    if handles == [] then 0
    else
      var last := handles[|handles| - 1];
      Live(handles[..|handles| - 1], token) + if last.token == token && !last.fired then 1 else 0
  }

  lemma {:induction false} LiveAfterFiring(handles: seq<Handle>, i: nat, token: string)
    requires i < |handles| && !handles[i].fired
    ensures Live(handles[i := handles[i].(fired := true)], token)
            == Live(handles, token) - if handles[i].token == token then 1 else 0
    ensures Live(handles, handles[i].token) > 0
    decreases |handles|
  {
    var n := |handles| - 1;
    var fired := handles[i := handles[i].(fired := true)];
    if i == n {
      assert fired[..n] == handles[..n];
    } else {
      assert fired[..n] == handles[..n][i := handles[i].(fired := true)];
      LiveAfterFiring(handles[..n], i, token);
    }
  }

  /** The count of a token is the number of its live handles. */
  lemma {:induction false} InUseIsLive(h: seq<Op>, token: string)
    ensures InUse(After(h).inUse, token) == Live(After(h).handles, token)
  {
    if h != [] {
      var before := After(h[..|h| - 1]);
      InUseIsLive(h[..|h| - 1], token);
      match h[|h| - 1]
      case Acquire(t, max) =>
        assert (before.handles + [Handle(t, false)])[..|before.handles|] == before.handles;
      case Release(i) =>
        if i < |before.handles| && !before.handles[i].fired {
          LiveAfterFiring(before.handles, i, token);
        }
    }
  }

  /** The first release of a handle always finds a slot to give back: the guard is never false. */
  lemma GuardNeverFalse(h: seq<Op>, i: nat)
    requires i < |After(h).handles| && !After(h).handles[i].fired
    ensures InUse(After(h).inUse, After(h).handles[i].token) > 0
  {
    InUseIsLive(h, After(h).handles[i].token);
    LiveAfterFiring(After(h).handles, i, After(h).handles[i].token);
  }

  /** The maximum of a token is the same in all its acquires. */
  ghost predicate FixedMax(h: seq<Op>, token: string, max: int) {
    forall i :: 0 <= i < |h| && h[i].Acquire? && h[i].token == token ==> h[i].max == max
  }

  lemma {:induction false} NeverOverMax(h: seq<Op>, token: string, max: int)
    requires max > 0 && FixedMax(h, token, max)
    ensures Live(After(h).handles, token) <= max
  {
    if h != [] {
      NeverOverMax(h[..|h| - 1], token, max);
      InUseIsLive(h[..|h| - 1], token);
      InUseIsLive(h, token);
    }
  }

  /** With a fixed positive maximum, an acquire fails exactly when that many handles are live; without
      a positive maximum it never fails. */
  lemma AcquireFailsExactly(h: seq<Op>, token: string, max: int)
    requires FixedMax(h, token, max)
    ensures Full(After(h), token, max) <==> max > 0 && Live(After(h).handles, token) == max
  {
    InUseIsLive(h, token);
    if max > 0 {
      NeverOverMax(h, token, max);
    }
  }

  lemma {:induction false} FiredStays(h: seq<Op>, later: seq<Op>, i: nat)
    requires i < |After(h).handles| && After(h).handles[i].fired
    ensures i < |After(h + later).handles| && After(h + later).handles[i].fired
    decreases |later|
  {
    if later == [] {
      assert h + later == h;
    } else {
      var m := |later| - 1;
      FiredStays(h, later[..m], i);
      assert (h + later)[..|h + later| - 1] == h + later[..m];
    }
  }

  /** Releasing a handle again changes nothing, whatever came in between. */
  lemma ReleaseTwice(h: seq<Op>, i: nat, later: seq<Op>)
    requires i < |After(h).handles|
    ensures var once := h + [Release(i)] + later;
            After(once + [Release(i)]) == After(once)
  {
    var once := h + [Release(i)];
    assert once[..|h|] == h;
    FiredStays(once, later, i);
    assert (once + later + [Release(i)])[..|once + later|] == once + later;
  }
}
