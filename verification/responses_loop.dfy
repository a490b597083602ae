/** The candidate loop of the responses endpoint, and when it repeats output. */
module ResponsesLoop {
  import opened Prelude
  import opened Bytes

  /** A status the upstream answered with, or another error: whether its message has one of the words that
      mark a broken connection is all that is looked at. */
  datatype Failure = Status(code: int) | Message(connection: bool)

  /** What trying a candidate comes to: its account is gone, its target cannot be resolved (perhaps for
      lack of authorization), or the upstream is asked, with these chunks given to the client. */
  datatype Attempt = Gone | Unresolved(reauth: bool) | Ran(chunks: seq<bytes>, failure: Option<Failure>)

  /** What happens at each position of the candidate list. */
  type World = seq<Attempt>

  predicate Retryable(f: Failure) {
    match f
    case Status(code) => code == 429 || code >= 500
    case Message(connection) => connection
  }

  /** The positions asked from position i on, and whether one of them answered. */
  function Walk(world: World, sticky: bool, i: nat): (seq<nat>, bool)
    requires i <= |world|
    decreases |world| - i
  {
    if i == |world| then ([], false)
    else match world[i]
      case Gone => Walk(world, sticky, i + 1)
      case Unresolved(reauth) => if reauth then ([], false) else Walk(world, sticky, i + 1)
      case Ran(_, None) => ([i], true)
      case Ran(_, Some(f)) =>
        if sticky || !Retryable(f) then ([i], false)
        else var (asked, ok) := Walk(world, sticky, i + 1); ([i] + asked, ok)
  }

  /** The client's side: which positions were asked, and each chunk with the position it came from. */
  class Client {
    var asked: seq<nat>
    var got: seq<(nat, bytes)>

    constructor ()
      ensures asked == [] && got == []
    {
      asked, got := [], [];
    }

    method Ask(i: nat, chunks: seq<bytes>)
      modifies this
      ensures asked == old(asked) + [i] && got == old(got) + Tagged(i, chunks)
    {
      asked := asked + [i];
      for k := 0 to |chunks|
        invariant asked == old(asked) + [i] && got == old(got) + Tagged(i, chunks[..k])
      {
        assert chunks[..k + 1][..k] == chunks[..k];
        got := got + [(i, chunks[k])];
      }
      assert chunks[..|chunks|] == chunks;
    }
  }

  function Tagged(i: nat, chunks: seq<bytes>): (t: seq<(nat, bytes)>)
    ensures |t| == |chunks| && forall k :: 0 <= k < |chunks| ==> t[k] == (i, chunks[k])
  {
    if chunks == [] then [] else Tagged(i, chunks[..|chunks| - 1]) + [(i, chunks[|chunks| - 1])]
  }

  /** The chunks of the positions asked, in order. */
  function Delivered(world: World, asked: seq<nat>): seq<(nat, bytes)>
    requires RanFrom(world, asked, 0)
  {
    if asked == [] then []
    else
      var last := |asked| - 1;
      Delivered(world, asked[..last]) + Tagged(asked[last], world[asked[last]].chunks)
  }

  ghost predicate RanFrom(world: World, asked: seq<nat>, i: nat) {
    forall k :: 0 <= k < |asked| ==> i <= asked[k] < |world| && world[asked[k]].Ran?
  }

  lemma {:induction false} WalkRan(world: World, sticky: bool, i: nat)
    requires i <= |world|
    ensures RanFrom(world, Walk(world, sticky, i).0, i)
    decreases |world| - i
  {
    if i < |world| {
      WalkRan(world, sticky, i + 1);
    }
  }

  /** The positions asked so far, and those still to come, are the walk's. */
  ghost predicate OnWalk(world: World, sticky: bool, i: nat, asked: seq<nat>)
    requires i <= |world|
  {
    var rest := Walk(world, sticky, i);
    Walk(world, sticky, 0) == (asked + rest.0, rest.1)
  }

  ghost predicate Served(world: World, asked: seq<nat>, client: Client)
    reads client
  {
    && RanFrom(world, asked, 0)
    && client.asked == asked && client.got == Delivered(world, asked)
  }

  lemma Asked(world: World, sticky: bool, i: nat, asked: seq<nat>)
    requires i < |world| && OnWalk(world, sticky, i, asked)
    ensures world[i].Ran? && world[i].failure.Some? && !sticky && Retryable(world[i].failure.value) ==>
              OnWalk(world, sticky, i + 1, asked + [i])
    ensures world[i].Ran? && (world[i].failure.None? || sticky || !Retryable(world[i].failure.value)) ==>
              Walk(world, sticky, 0) == (asked + [i], world[i].failure.None?)
    ensures world[i] == Unresolved(true) ==> Walk(world, sticky, 0) == (asked, false)
  {
    if world[i].Ran? {
      Assoc(asked, [i], Walk(world, sticky, i + 1).0);
    }
    assert asked + [] == asked;
  }

  lemma DeliverOne(world: World, asked: seq<nat>, i: nat)
    requires RanFrom(world, asked, 0)
    requires i < |world| && world[i].Ran?
    ensures RanFrom(world, asked + [i], 0)
    ensures Delivered(world, asked + [i]) == Delivered(world, asked) + Tagged(i, world[i].chunks)
  {
    assert (asked + [i])[..|asked|] == asked;
  }

  /** The loop asks the walk's positions, gives the client their chunks, and tells whether one answered. */
  method HandleResponses(world: World, sticky: bool) returns (ok: bool, client: Client)
    ensures fresh(client) && Served(world, Walk(world, sticky, 0).0, client) && ok == Walk(world, sticky, 0).1
  {
    client := new Client();
    ghost var asked: seq<nat> := [];
    assert [] + Walk(world, sticky, 0).0 == Walk(world, sticky, 0).0;
    var i := 0;
    while i < |world|
      invariant 0 <= i <= |world| && fresh(client)
      invariant OnWalk(world, sticky, i, asked) && Served(world, asked, client)
    {
      Asked(world, sticky, i, asked);
      match world[i] {
        case Gone =>
        case Unresolved(reauth) =>
          if reauth {
            return false, client;
          }
        case Ran(chunks, failure) =>
          DeliverOne(world, asked, i);
          client.Ask(i, chunks);
          asked := asked + [i];
          if failure.None? {
            return true, client;
          }
          if sticky || !Retryable(failure.value) {
            return false, client;
          }
      }
      i := i + 1;
    }
    assert asked + [] == asked;
    return false, client;
  }

  // ---- replay ----

  /** The loop goes on after this candidate. */
  predicate Passes(x: Attempt, sticky: bool) {
    match x
    case Gone => true
    case Unresolved(reauth) => !reauth
    case Ran(_, None) => false
    case Ran(_, Some(f)) => !sticky && Retryable(f)
  }

  lemma {:induction false} AskedExactly(world: World, sticky: bool, i: nat, j: nat)
    requires i <= j < |world|
    ensures j in Walk(world, sticky, i).0 <==> world[j].Ran? && forall k :: i <= k < j ==> Passes(world[k], sticky)
    decreases j - i
  {
    var asked, rest := Walk(world, sticky, i).0, Walk(world, sticky, i + 1).0;
    if world[i].Ran? {
      assert asked == if Passes(world[i], sticky) then [i] + rest else [i];
    } else {
      assert asked == if Passes(world[i], sticky) then rest else [];
    }
    if i < j {
      AskedExactly(world, sticky, i + 1, j);
      assert j in asked <==> Passes(world[i], sticky) && j in rest;
    } else {
      WalkRan(world, sticky, i + 1);
      assert world[i].Ran? ==> asked[0] == i;
    }
  }

  /** The request is answered exactly when some candidate that was asked answers. */
  lemma {:induction false} AnsweredExactly(world: World, sticky: bool, i: nat)
    requires i <= |world|
    ensures Walk(world, sticky, i).1 <==>
            exists j :: i <= j < |world| && j in Walk(world, sticky, i).0 && Answers(world[j])
    decreases |world| - i
  {
    if i < |world| {
      var asked, rest := Walk(world, sticky, i).0, Walk(world, sticky, i + 1).0;
      AnsweredExactly(world, sticky, i + 1);
      WalkRan(world, sticky, i + 1);
      if world[i].Ran? {
        assert asked == if Passes(world[i], sticky) then [i] + rest else [i];
        assert i in asked;
      } else {
        assert asked == if Passes(world[i], sticky) then rest else [];
      }
      assert forall j :: j in asked ==> j == i || (j in rest && Passes(world[i], sticky));
    }
  }

  predicate Answers(x: Attempt) {
    x.Ran? && x.failure.None?
  }

  /** After candidate i has failed, candidate j is the next that can be asked. */
  ghost predicate NextCandidate(world: World, i: nat, j: nat) {
    && i < j < |world| && world[i].Ran? && world[i].failure.Some? && world[j].Ran?
    && forall k :: i < k < j ==> world[k].Gone? || world[k] == Unresolved(false)
  }

  /** An unbound request is passed on after a status answer exactly for 429 and for 500 and above, and after
      another error exactly when its message tells of a broken connection; a bound one never is. */
  lemma PassedOnExactly(world: World, sticky: bool, i: nat, j: nat)
    requires NextCandidate(world, i, j) && i in Walk(world, sticky, 0).0
    ensures j in Walk(world, sticky, 0).0 <==>
            !sticky && match world[i].failure.value
                       case Status(code) => code == 429 || code >= 500
                       case Message(connection) => connection
  {
    AskedExactly(world, sticky, 0, i);
    AskedExactly(world, sticky, 0, j);
  }

  /** Some candidate was asked after another one's output had begun. */
  ghost predicate Replays(world: World, sticky: bool) {
    exists i, j :: 0 <= i < j < |world| && Replayed(world, sticky, i, j)
  }

  ghost predicate Replayed(world: World, sticky: bool, i: nat, j: nat)
    requires i < j < |world|
  {
    && i in Walk(world, sticky, 0).0 && j in Walk(world, sticky, 0).0
    && world[i].Ran? && world[i].chunks != []
  }

  /** Output fails retryably at i, and j is the next to be asked. */
  ghost predicate OutputThenRetry(world: World, i: nat, j: nat)
    requires i < j < |world|
  {
    && world[i].Ran? && world[i].chunks != [] && world[j].Ran?
    && forall k :: 0 <= k < j ==> Passes(world[k], false)
  }

  /** For instance: whatever the first of two candidates has given the client before its connection breaks,
      the second one is asked, and its chunks follow. */
  lemma BrokenOutputIsRepeated(before: seq<bytes>, after: seq<bytes>)
    requires before != []
    ensures var world := [Ran(before, Some(Message(true))), Ran(after, None)];
            Replays(world, false) && Walk(world, false, 0).0 == [0, 1]
  {
    var world := [Ran(before, Some(Message(true))), Ran(after, None)];
    assert Walk(world, false, 1) == ([1], true);
    assert Walk(world, false, 0).0 == [0] + Walk(world, false, 1).0;
    assert Replayed(world, false, 0, 1);
  }

  /** Unlike the router, this loop does repeat output: exactly when the request is not bound to an account,
      a candidate whose output had begun fails with an error that counts as retryable, and a later
      candidate can be asked, no earlier one having ended the loop. */
  lemma ReplaysExactly(world: World, sticky: bool)
    ensures Replays(world, sticky) <==>
            !sticky && exists i, j :: 0 <= i < j < |world| && OutputThenRetry(world, i, j)
  {
    forall i: nat, j: nat | i < j < |world|
      ensures Replayed(world, sticky, i, j) <==> !sticky && OutputThenRetry(world, i, j)
    {
      AskedExactly(world, sticky, 0, i);
      AskedExactly(world, sticky, 0, j);
      assert Replayed(world, sticky, i, j) ==> Passes(world[i], sticky);
    }
  }
}
