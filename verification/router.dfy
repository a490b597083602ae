/** Candidate selection and failover. */
module Router {
  import opened Prelude
  import opened Bytes
  import opened Connectors

  datatype Candidate = Candidate(account: string, model: string, priority: int, weight: int)
  datatype Account = Account(active: bool, monitorOnly: bool)
  datatype Policy = Policy(id: string, enabled: bool, candidates: seq<Candidate>)
  datatype Lookup = Found(policy: Policy) | Absent | Broken(error: Error)

  /** What the repository answers while one alias is resolved: its policy, the accounts that can be
      read, the account listing (None when it fails) and which accounts have the model. */
  datatype Directory = Directory(lookup: Lookup, accounts: map<string, Account>,
                                 listing: Option<seq<string>>, offering: set<string>)

  // ---- the candidate list ----

  predicate Usable(d: Directory, account: string) {
    account in d.accounts && d.accounts[account].active && !d.accounts[account].monitorOnly
  }

  function UsableOnly(d: Directory, cs: seq<Candidate>): seq<Candidate> {
    if cs == [] then [] else (if Usable(d, cs[0].account) then [cs[0]] else []) + UsableOnly(d, cs[1..])
  }

  lemma {:induction false} UsableOnlySnoc(d: Directory, cs: seq<Candidate>, c: Candidate)
    ensures UsableOnly(d, cs + [c]) == UsableOnly(d, cs) + if Usable(d, c.account) then [c] else []
  {
    if cs == [] {
      assert [c][1..] == [];
    } else {
      UsableOnlySnoc(d, cs[1..], c);
      assert (cs + [c])[1..] == cs[1..] + [c];
    }
  }

  function Insert(c: Candidate, cs: seq<Candidate>): seq<Candidate> {
    if cs == [] || c.priority <= cs[0].priority then [c] + cs else [cs[0]] + Insert(c, cs[1..])
  }

  /** The stable sort by priority. */
  function StableSort(cs: seq<Candidate>): seq<Candidate> {
    if cs == [] then [] else Insert(cs[0], StableSort(cs[1..]))
  }

  function Defaults(d: Directory, model: string, accounts: seq<string>): seq<Candidate> {
    if accounts == [] then []
    else
      (if Usable(d, accounts[0]) && accounts[0] in d.offering then [Candidate(accounts[0], model, 1, 1)] else [])
      + Defaults(d, model, accounts[1..])
  }

  lemma {:induction false} DefaultsSnoc(d: Directory, model: string, accounts: seq<string>, a: string)
    ensures Defaults(d, model, accounts + [a]) ==
            Defaults(d, model, accounts) +
            if Usable(d, a) && a in d.offering then [Candidate(a, model, 1, 1)] else []
  {
    if accounts == [] {
      assert [a][1..] == [];
    } else {
      DefaultsSnoc(d, model, accounts[1..], a);
      assert (accounts + [a])[1..] == accounts[1..] + [a];
    }
  }

  function Resolved(d: Directory, model: string): Result<(seq<Candidate>, string), Error> {
    match d.lookup
    case Found(p) =>
      var usable := UsableOnly(d, p.candidates);
      if !p.enabled || usable == [] then Err(NoCandidate) else Ok((StableSort(usable), p.id))
    case Broken(e) => Err(e)
    case Absent =>
      if d.listing.None? then Err(Foreign(false, false))
      else
        var cs := Defaults(d, model, d.listing.value);
        if cs == [] then Err(NoCandidate) else Ok((cs, ""))
  }

  method ResolveCandidates(d: Directory, model: string) returns (r: Result<(seq<Candidate>, string), Error>)
    ensures r == Resolved(d, model)
  {
    match d.lookup
    case Broken(e) => return Err(e);
    case Absent =>
      r := DefaultCandidates(d, model);
    case Found(p) =>
      if !p.enabled {
        return Err(NoCandidate);
      }
      if |p.candidates| == 0 {
        return Err(NoCandidate);
      }
      var usable: seq<Candidate> := [];
      for i := 0 to |p.candidates|
        invariant usable == UsableOnly(d, p.candidates[..i])
      {
        UsableOnlySnoc(d, p.candidates[..i], p.candidates[i]);
        assert p.candidates[..i + 1] == p.candidates[..i] + [p.candidates[i]];
        if Usable(d, p.candidates[i].account) {
          usable := usable + [p.candidates[i]];
        }
      }
      assert p.candidates[..|p.candidates|] == p.candidates;
      if |usable| == 0 {
        return Err(NoCandidate);
      }
      return Ok((StableSort(usable), p.id));
  }

  method DefaultCandidates(d: Directory, model: string) returns (r: Result<(seq<Candidate>, string), Error>)
    requires d.lookup.Absent?
    ensures r == Resolved(d, model)
  {
    if d.listing.None? {
      return Err(Foreign(false, false));
    }
    var accounts := d.listing.value;
    var cands: seq<Candidate> := [];
    for i := 0 to |accounts|
      invariant cands == Defaults(d, model, accounts[..i])
    {
      DefaultsSnoc(d, model, accounts[..i], accounts[i]);
      assert accounts[..i + 1] == accounts[..i] + [accounts[i]];
      var a := accounts[i];
      if a !in d.accounts || !d.accounts[a].active || d.accounts[a].monitorOnly {
        continue;
      }
      if a in d.offering {
        cands := cands + [Candidate(a, model, 1, 1)];
      }
    }
    assert accounts[..|accounts|] == accounts;
    if |cands| == 0 {
      return Err(NoCandidate);
    }
    return Ok((cands, ""));
  }

  ghost predicate Sorted(cs: seq<Candidate>) {
    forall i, j :: 0 <= i < j < |cs| ==> cs[i].priority <= cs[j].priority
  }

  function OfPriority(cs: seq<Candidate>, p: int): seq<Candidate> {
    if cs == [] then [] else (if cs[0].priority == p then [cs[0]] else []) + OfPriority(cs[1..], p)
  }

  lemma {:induction false} OfPriorityMember(cs: seq<Candidate>, p: int, c: Candidate)
    ensures c in OfPriority(cs, p) <==> c in cs && c.priority == p
  {
    if cs != [] {
      OfPriorityMember(cs[1..], p, c);
      assert c in cs <==> c == cs[0] || c in cs[1..];
    }
  }

  lemma {:induction false} InsertKeeps(c: Candidate, cs: seq<Candidate>)
    ensures multiset(Insert(c, cs)) == multiset(cs) + multiset{c}
  {
    if cs != [] && c.priority > cs[0].priority {
      InsertKeeps(c, cs[1..]);
      assert cs == [cs[0]] + cs[1..];
    }
  }

  lemma InsertMember(c: Candidate, cs: seq<Candidate>, x: Candidate)
    requires x in Insert(c, cs)
    ensures x == c || x in cs
  {
    InsertKeeps(c, cs);
    assert x in multiset(Insert(c, cs));
  }

  lemma {:induction false} InsertSorts(c: Candidate, cs: seq<Candidate>)
    requires Sorted(cs)
    ensures Sorted(Insert(c, cs))
  {
    if cs != [] && c.priority > cs[0].priority {
      InsertSorts(c, cs[1..]);
      var tail := Insert(c, cs[1..]);
      forall x | x in tail ensures cs[0].priority <= x.priority {
        InsertMember(c, cs[1..], x);
      }
    }
  }

  lemma {:induction false} InsertOrder(c: Candidate, cs: seq<Candidate>, p: int)
    ensures OfPriority(Insert(c, cs), p) == (if c.priority == p then [c] else []) + OfPriority(cs, p)
  {
    if cs == [] || c.priority <= cs[0].priority {
      HeadOn(c, cs, p);
    } else {
      InsertOrder(c, cs[1..], p);
      HeadOn(cs[0], Insert(c, cs[1..]), p);
      if c.priority == p {
        assert OfPriority(cs, p) == OfPriority(cs[1..], p);
      }
    }
  }

  lemma HeadOn(c: Candidate, cs: seq<Candidate>, p: int)
    ensures OfPriority([c] + cs, p) == if c.priority == p then [c] + OfPriority(cs, p) else OfPriority(cs, p)
  {
    assert ([c] + cs)[1..] == cs;
  }

  /** The candidates, in priority order, equal priorities keeping their order. */
  lemma {:induction false} StableSortMeaning(cs: seq<Candidate>)
    ensures Sorted(StableSort(cs)) && multiset(StableSort(cs)) == multiset(cs)
    ensures forall p :: OfPriority(StableSort(cs), p) == OfPriority(cs, p)
  {
    if cs != [] {
      StableSortMeaning(cs[1..]);
      InsertKeeps(cs[0], StableSort(cs[1..]));
      InsertSorts(cs[0], StableSort(cs[1..]));
      assert cs == [cs[0]] + cs[1..];
      forall p ensures OfPriority(StableSort(cs), p) == OfPriority(cs, p) {
        InsertOrder(cs[0], StableSort(cs[1..]), p);
      }
    }
  }

  /** No other list is sorted and keeps the order of equal priorities. */
  lemma {:induction false} StableOrderUnique(a: seq<Candidate>, b: seq<Candidate>)
    requires Sorted(a) && Sorted(b) && forall p :: OfPriority(a, p) == OfPriority(b, p)
    ensures a == b
  {
    if a != [] {
      HeadFirst(a);
      assert OfPriority(a, a[0].priority) == OfPriority(b, a[0].priority);
    }
    if b != [] {
      HeadFirst(b);
      assert OfPriority(a, b[0].priority) == OfPriority(b, b[0].priority);
    }
    if a != [] && b != [] {
      OfPriorityMember(b, a[0].priority, a[0]);
      OfPriorityMember(a, b[0].priority, b[0]);
      assert a[0].priority == b[0].priority;
      forall p ensures OfPriority(a[1..], p) == OfPriority(b[1..], p) {
        assert OfPriority(a, p) == OfPriority(b, p);
        HeadOff(a, p);
        HeadOff(b, p);
      }
      StableOrderUnique(a[1..], b[1..]);
    }
  }

  lemma HeadFirst(cs: seq<Candidate>)
    requires cs != []
    ensures OfPriority(cs, cs[0].priority) != [] && OfPriority(cs, cs[0].priority)[0] == cs[0]
  {
  }

  lemma HeadOff(cs: seq<Candidate>, p: int)
    requires cs != []
    ensures OfPriority(cs[1..], p) == if cs[0].priority == p then OfPriority(cs, p)[1..] else OfPriority(cs, p)
  {
  }

  /** What resolution promises: only usable accounts, and for a policy exactly its usable candidates in
      stable priority order. */
  lemma ResolvedMeaning(d: Directory, model: string, cs: seq<Candidate>)
    requires Resolved(d, model).Ok? && Resolved(d, model).value.0 == cs
    ensures cs != [] && forall c :: c in cs ==> Usable(d, c.account)
    ensures d.lookup.Absent? ==>
              d.listing.Some? && forall c :: c in cs <==>
                c.account in d.listing.value && Usable(d, c.account) && c.account in d.offering
                && c == Candidate(c.account, model, 1, 1)
    ensures d.lookup.Found? ==>
              && d.lookup.policy.enabled && Sorted(cs)
              && multiset(cs) == multiset(UsableOnly(d, d.lookup.policy.candidates))
              && forall p :: OfPriority(cs, p) == OfPriority(UsableOnly(d, d.lookup.policy.candidates), p)
  {
    if d.lookup.Found? {
      var usable := UsableOnly(d, d.lookup.policy.candidates);
      StableSortMeaning(usable);
      UsableOnlyUsable(d, d.lookup.policy.candidates);
      forall c | c in cs ensures c in usable {
        assert c in multiset(cs);
      }
      assert |multiset(cs)| == |cs| && |multiset(usable)| == |usable|;
    } else {
      DefaultsUsable(d, model, d.listing.value);
    }
  }

  /** The order is that of the listing, and every listed account counts once: without a policy the list is the
      usable accounts that offer the model, as they are listed; for a policy it is sorted from the usable
      ones of its candidates, as they are listed. */
  lemma ResolvedOrder(d: Directory, model: string, cs: seq<Candidate>)
    requires Resolved(d, model).Ok? && Resolved(d, model).value.0 == cs
    ensures Resolved(d, model).value.1 == if d.lookup.Found? then d.lookup.policy.id else ""
    ensures d.lookup.Absent? ==>
              && |cs| == |Filter(Offers(d), d.listing.value)|
              && forall i :: 0 <= i < |cs| ==> cs[i] == Candidate(Filter(Offers(d), d.listing.value)[i], model, 1, 1)
    ensures d.lookup.Found? ==>
              forall p :: OfPriority(cs, p) == OfPriority(Filter(Serves(d), d.lookup.policy.candidates), p)
  {
    if d.lookup.Found? {
      ResolvedMeaning(d, model, cs);
      UsableOnlyFilters(d, d.lookup.policy.candidates);
    } else {
      DefaultsFilter(d, model, d.listing.value);
    }
  }

  /** The account can be read, is active, is not for monitoring only, and has the model. */
  function Offers(d: Directory): string -> bool {
    (a: string) => a in d.accounts && d.accounts[a].active && !d.accounts[a].monitorOnly && a in d.offering
  }

  function Serves(d: Directory): Candidate -> bool {
    (c: Candidate) => c.account in d.accounts && d.accounts[c.account].active && !d.accounts[c.account].monitorOnly
  }

  lemma {:induction false} UsableOnlyFilters(d: Directory, cs: seq<Candidate>)
    ensures UsableOnly(d, cs) == Filter(Serves(d), cs)
  {
    if cs != [] {
      UsableOnlyFilters(d, cs[1..]);
    }
  }

  lemma {:induction false} DefaultsFilter(d: Directory, model: string, accounts: seq<string>)
    ensures var kept := Filter(Offers(d), accounts);
            && |Defaults(d, model, accounts)| == |kept|
            && forall i :: 0 <= i < |kept| ==> Defaults(d, model, accounts)[i] == Candidate(kept[i], model, 1, 1)
  {
    if accounts != [] {
      DefaultsFilter(d, model, accounts[1..]);
    }
  }

  /** Resolution fails exactly when the policy is disabled or has no usable candidate; without a policy,
      when no listed account is usable and offers the model; and whenever the repository fails. */
  lemma RefusedExactly(d: Directory, model: string)
    ensures Resolved(d, model).Err? <==>
            match d.lookup
            case Found(p) => !p.enabled || forall c :: c in p.candidates ==> !Usable(d, c.account)
            case Absent =>
              d.listing.None? || forall a :: a in d.listing.value ==> !(Usable(d, a) && a in d.offering)
            case Broken(_) => true
  {
    match d.lookup
    case Found(p) =>
      UsableOnlyUsable(d, p.candidates);
      var usable := UsableOnly(d, p.candidates);
      if usable != [] {
        assert usable[0] in usable;
      }
    case Absent =>
      if d.listing.Some? {
        DefaultsUsable(d, model, d.listing.value);
        var cs := Defaults(d, model, d.listing.value);
        if cs != [] {
          assert cs[0] in cs;
        } else {
          forall a | a in d.listing.value ensures !(Usable(d, a) && a in d.offering) {
            assert Candidate(a, model, 1, 1) !in cs;
          }
        }
      }
    case Broken(_) =>
  }

  /** The error: the repository's own, an unclassified one when the accounts cannot be listed, or that there is
      no candidate. */
  lemma RefusedHow(d: Directory, model: string)
    requires Resolved(d, model).Err?
    ensures Resolved(d, model).error ==
            if d.lookup.Broken? then d.lookup.error
            else if d.lookup.Absent? && d.listing.None? then Foreign(false, false)
            else NoCandidate
  {
  }

  lemma {:induction false} UsableOnlyUsable(d: Directory, cs: seq<Candidate>)
    ensures forall c :: c in UsableOnly(d, cs) <==> Usable(d, c.account) && c in cs
  {
    if cs != [] {
      UsableOnlyUsable(d, cs[1..]);
    }
  }

  lemma {:induction false} DefaultsUsable(d: Directory, model: string, accounts: seq<string>)
    ensures forall c :: c in Defaults(d, model, accounts) <==>
              c.account in accounts && Usable(d, c.account) && c.account in d.offering
              && c == Candidate(c.account, model, 1, 1)
  {
    if accounts != [] {
      DefaultsUsable(d, model, accounts[1..]);
    }
  }

  // ---- failover ----

  type Response = string

  /** What trying a candidate comes to: its account cannot be resolved, or the connector runs, calling
      the chunk callback with these chunks. */
  datatype Attempt = Unresolvable(error: Error) | Ran(chunks: seq<bytes>, result: Result<Response, Error>)

  /** What happens at each position of the candidate list. */
  type World = seq<Attempt>

  function At(world: World, i: nat): Attempt {
    if i < |world| then world[i] else Unresolvable(NoCandidate)
  }

  datatype Status = Success | Failed | Partial
  datatype Reason = Okay | Failover

  /** One attempt made: the candidate's position and the status recorded for it. */
  datatype Step = Step(index: nat, status: Status)

  datatype Decision = Decision(selected: Option<Candidate>, candidates: seq<Candidate>, reasons: seq<Reason>)

  /** The attempts from position i on, and what is returned. */
  function Walk(n: nat, world: World, i: nat, lastErr: Error): (seq<Step>, Result<Response, Error>)
    requires i <= n
    decreases n - i
  {
    if i == n then ([], Err(lastErr))
    else match At(world, i)
      case Unresolvable(e) => Walk(n, world, i + 1, e)
      case Ran(chunks, Ok(resp)) => ([Step(i, Success)], Ok(resp))
      case Ran(chunks, Err(e)) =>
        var step := Step(i, if chunks != [] then Partial else Failed);
        if chunks != [] || !Retryable(Some(e)) then ([step], Err(e))
        else var (steps, r) := Walk(n, world, i + 1, e); ([step] + steps, r)
  }

  /** The chunk calls of the attempts, in order, with the position they came from. */
  function Delivered(world: World, steps: seq<Step>): seq<(nat, bytes)> {
    if steps == [] then []
    else
      var last := |steps| - 1;
      Delivered(world, steps[..last]) + Calls(world, steps[last].index)
  }

  function Calls(world: World, i: nat): seq<(nat, bytes)> {
    if At(world, i).Ran? then Tagged(i, At(world, i).chunks) else []
  }

  function Tagged(i: nat, chunks: seq<bytes>): (t: seq<(nat, bytes)>)
    ensures |t| == |chunks| && forall k :: 0 <= k < |chunks| ==> t[k] == (i, chunks[k])
  {
    if chunks == [] then [] else Tagged(i, chunks[..|chunks| - 1]) + [(i, chunks[|chunks| - 1])]
  }

  function Code(status: Status): Reason { if status == Success then Okay else Failover }

  /** The candidates tried, and the reason code of each attempt. */
  function Picked(cands: seq<Candidate>, steps: seq<Step>): (r: seq<Candidate>)
    requires forall k :: 0 <= k < |steps| ==> steps[k].index < |cands|
    ensures |r| == |steps|
  {
    if steps == [] then []
    else Picked(cands, steps[..|steps| - 1]) + [cands[steps[|steps| - 1].index]]
  }

  function Reasons(steps: seq<Step>): (r: seq<Reason>)
    ensures |r| == |steps|
  {
    if steps == [] then [] else Reasons(steps[..|steps| - 1]) + [Code(steps[|steps| - 1].status)]
  }

  /** The finishes of attempts numbered from base. */
  function Finishes(base: nat, steps: seq<Step>): (r: seq<(nat, Status)>)
    ensures |r| == |steps|
  {
    if steps == [] then []
    else Finishes(base, steps[..|steps| - 1]) + [(base + |steps| - 1, steps[|steps| - 1].status)]
  }

  lemma {:induction false} PickedAt(cands: seq<Candidate>, steps: seq<Step>, k: nat)
    requires (forall j :: 0 <= j < |steps| ==> steps[j].index < |cands|) && k < |steps|
    ensures Picked(cands, steps)[k] == cands[steps[k].index]
    decreases |steps|
  {
    if k < |steps| - 1 {
      PickedAt(cands, steps[..|steps| - 1], k);
    }
  }

  lemma {:induction false} ReasonAt(steps: seq<Step>, k: nat)
    requires k < |steps|
    ensures Reasons(steps)[k] == Code(steps[k].status)
    decreases |steps|
  {
    if k < |steps| - 1 {
      ReasonAt(steps[..|steps| - 1], k);
    }
  }

  lemma {:induction false} FinishAt(base: nat, steps: seq<Step>, k: nat)
    requires k < |steps|
    ensures Finishes(base, steps)[k] == (base + k, steps[k].status)
    decreases |steps|
  {
    if k < |steps| - 1 {
      FinishAt(base, steps[..|steps| - 1], k);
    }
  }

  /** The attempt recorder: which candidates were started, and each finish with the attempt it ends.
      absent: no recorder is installed. */
  class Recorder {
    const absent: bool
    var started: seq<Candidate>
    var finished: seq<(nat, Status)>

    constructor (absent: bool)
      ensures this.absent == absent && started == [] && finished == []
    {
      this.absent := absent;
      started, finished := [], [];
    }

    method Start(c: Candidate) returns (id: Option<nat>)
      modifies this
      ensures finished == old(finished)
      ensures id == if absent then None else Some(|old(started)|)
      ensures started == if absent then old(started) else old(started) + [c]
    {
      if absent {
        return None;
      }
      id := Some(|started|);
      started := started + [c];
    }

    method Finish(id: Option<nat>, status: Status)
      modifies this
      ensures started == old(started)
      ensures finished == if absent || id.None? then old(finished) else old(finished) + [(id.value, status)]
    {
      if !absent && id.Some? {
        finished := finished + [(id.value, status)];
      }
    }
  }

  /** How far a request has come: the decision so far and what the recorder has been told. */
  ghost predicate Traced(cands: seq<Candidate>, steps: seq<Step>, decision: Decision)
  {
    && (forall k :: 0 <= k < |steps| ==> steps[k].index < |cands|)
    && decision.candidates == Picked(cands, steps)
    && decision.reasons == Reasons(steps)
    && decision.selected == if steps == [] then None else Some(cands[steps[|steps| - 1].index])
  }

  ghost predicate Recorded(cands: seq<Candidate>, steps: seq<Step>, absent: bool,
                           started0: seq<Candidate>, finished0: seq<(nat, Status)>,
                           started: seq<Candidate>, finished: seq<(nat, Status)>)
  {
    && (forall k :: 0 <= k < |steps| ==> steps[k].index < |cands|)
    && started == (if absent then started0 else started0 + Picked(cands, steps))
    && finished == (if absent then finished0 else finished0 + Finishes(|started0|, steps))
  }

  /** An attempt that lets the next candidate be tried. */
  predicate PassesOn(world: World, i: nat) {
    && At(world, i).Ran? && At(world, i).chunks == []
    && At(world, i).result.Err? && Retryable(Some(At(world, i).result.error))
  }

  /** After the steps, the walk goes on from position i. */
  ghost predicate OnWalk(n: nat, world: World, i: nat, lastErr: Error, steps: seq<Step>)
    requires i <= n
  {
    var rest := Walk(n, world, i, lastErr);
    Walk(n, world, 0, NoCandidate) == (steps + rest.0, rest.1)
  }

  function Outcome(world: World, i: nat): Step {
    var a := At(world, i);
    Step(i, if a.Unresolvable? then Failed else if a.result.Ok? then Success
            else if a.chunks != [] then Partial else Failed)
  }

  lemma WalkAdvance(n: nat, world: World, i: nat, lastErr: Error, steps: seq<Step>)
    requires i < n && OnWalk(n, world, i, lastErr, steps)
    ensures At(world, i).Unresolvable? ==> OnWalk(n, world, i + 1, At(world, i).error, steps)
    ensures At(world, i).Ran? ==>
              if PassesOn(world, i) then OnWalk(n, world, i + 1, At(world, i).result.error, steps + [Outcome(world, i)])
              else Walk(n, world, 0, NoCandidate) == (steps + [Outcome(world, i)], At(world, i).result)
  {
    if PassesOn(world, i) {
      var rest := Walk(n, world, i + 1, At(world, i).result.error);
      assert steps + ([Outcome(world, i)] + rest.0) == steps + [Outcome(world, i)] + rest.0;
    }
  }

  lemma WalkStart(n: nat, world: World)
    ensures OnWalk(n, world, 0, NoCandidate, [])
  {
    var rest := Walk(n, world, 0, NoCandidate);
    assert [] + rest.0 == rest.0;
  }

  lemma WalkStop(n: nat, world: World, lastErr: Error, steps: seq<Step>)
    requires OnWalk(n, world, n, lastErr, steps)
    ensures Walk(n, world, 0, NoCandidate) == (steps, Err(lastErr))
  {
    assert steps + [] == steps;
  }

  lemma TraceOne(cands: seq<Candidate>, steps: seq<Step>, decision: Decision, s: Step)
    requires Traced(cands, steps, decision) && s.index < |cands|
    ensures Traced(cands, steps + [s],
                   Decision(Some(cands[s.index]), decision.candidates + [cands[s.index]],
                            decision.reasons + [Code(s.status)]))
  {
    assert (steps + [s])[..|steps|] == steps;
  }

  lemma RecordOne(cands: seq<Candidate>, steps: seq<Step>, absent: bool, started0: seq<Candidate>,
                  finished0: seq<(nat, Status)>, started: seq<Candidate>, finished: seq<(nat, Status)>, s: Step)
    requires Recorded(cands, steps, absent, started0, finished0, started, finished) && s.index < |cands|
    ensures Recorded(cands, steps + [s], absent, started0, finished0,
                     if absent then started else started + [cands[s.index]],
                     if absent then finished else finished + [(|started|, s.status)])
  {
    assert (steps + [s])[..|steps|] == steps;
  }

  /** Forward: the connector is asked for a whole response, so no chunk callback exists. */
  method Forward(d: Directory, alias: string, world: World, recorder: Recorder)
    returns (r: Result<Response, Error>, decision: Option<Decision>)
    requires forall i :: At(world, i).Ran? ==> At(world, i).chunks == []
    modifies recorder
    ensures Resolved(d, alias).Err? ==>
              && r == Err(Resolved(d, alias).error) && decision == None
              && recorder.started == old(recorder.started) && recorder.finished == old(recorder.finished)
    ensures Resolved(d, alias).Ok? ==>
              var cands := Resolved(d, alias).value.0;
              var walk := Walk(|cands|, world, 0, NoCandidate);
              && r == walk.1 && decision.Some? && Traced(cands, walk.0, decision.value)
              && Recorded(cands, walk.0, recorder.absent, old(recorder.started), old(recorder.finished),
                          recorder.started, recorder.finished)
  {
    var resolved := ResolveCandidates(d, alias);
    if resolved.Err? {
      return Err(resolved.error), None;
    }
    var dec;
    r, dec := Try(resolved.value.0, world, recorder);
    decision := Some(dec);
  }

  /** One attempt of Forward: start it, ask, finish it with its status, extend the decision. */
  method AskOnce(cands: seq<Candidate>, world: World, i: nat, was: Decision, recorder: Recorder,
                 ghost steps: seq<Step>, ghost started0: seq<Candidate>, ghost finished0: seq<(nat, Status)>)
    returns (dec: Decision)
    requires i < |cands| && At(world, i).Ran? && At(world, i).chunks == []
    requires Traced(cands, steps, was)
    requires Recorded(cands, steps, recorder.absent, started0, finished0, recorder.started, recorder.finished)
    modifies recorder
    ensures Traced(cands, steps + [Outcome(world, i)], dec)
    ensures Recorded(cands, steps + [Outcome(world, i)], recorder.absent, started0, finished0,
                     recorder.started, recorder.finished)
  {
    var attempt := At(world, i);
    TraceOne(cands, steps, was, Outcome(world, i));
    RecordOne(cands, steps, recorder.absent, started0, finished0, recorder.started, recorder.finished,
              Outcome(world, i));
    dec := was.(selected := Some(cands[i]), candidates := was.candidates + [cands[i]]);
    var id := recorder.Start(cands[i]);
    if attempt.result.Ok? {
      recorder.Finish(id, Success);
      dec := dec.(reasons := dec.reasons + [Okay]);
    } else {
      recorder.Finish(id, Failed);
      dec := dec.(reasons := dec.reasons + [Failover]);
    }
  }

  /** The failover loop of Forward. */
  method Try(cands: seq<Candidate>, world: World, recorder: Recorder)
    returns (r: Result<Response, Error>, dec: Decision)
    requires forall i :: At(world, i).Ran? ==> At(world, i).chunks == []
    modifies recorder
    ensures var walk := Walk(|cands|, world, 0, NoCandidate);
            && r == walk.1 && Traced(cands, walk.0, dec)
            && Recorded(cands, walk.0, recorder.absent, old(recorder.started), old(recorder.finished),
                        recorder.started, recorder.finished)
  {
    dec := Decision(None, [], []);
    var lastErr := NoCandidate;
    ghost var steps: seq<Step> := [];
    WalkStart(|cands|, world);
    var i := 0;
    while i < |cands|
      invariant 0 <= i <= |cands|
      invariant Traced(cands, steps, dec)
      invariant Recorded(cands, steps, recorder.absent, old(recorder.started), old(recorder.finished),
                         recorder.started, recorder.finished)
      invariant OnWalk(|cands|, world, i, lastErr, steps)
    {
      WalkAdvance(|cands|, world, i, lastErr, steps);
      var attempt := At(world, i);
      if attempt.Unresolvable? {
        lastErr := attempt.error;
      } else {
        dec := AskOnce(cands, world, i, dec, recorder, steps, old(recorder.started), old(recorder.finished));
        steps := steps + [Outcome(world, i)];
        r := attempt.result;
        if r.Ok? || !Retryable(Some(r.error)) {
          return;
        }
        lastErr := r.error;
      }
      i := i + 1;
    }
    WalkStop(|cands|, world, lastErr, steps);
    return Err(lastErr), dec;
  }

  /** The client of a streamed request: every chunk call, with the candidate whose stream made it. */
  class Sink {
    var got: seq<(nat, bytes)>

    constructor ()
      ensures got == []
    {
      got := [];
    }

    /** One connector run: the wrapped callback notes that output has begun, and passes each chunk on. */
    method Stream(i: nat, chunks: seq<bytes>, already: bool) returns (streamed: bool)
      modifies this
      ensures got == old(got) + Tagged(i, chunks)
      ensures streamed == (already || chunks != [])
    {
      streamed := already;
      for k := 0 to |chunks|
        invariant got == old(got) + Tagged(i, chunks[..k])
        invariant streamed == (already || k > 0)
      {
        assert chunks[..k + 1][..k] == chunks[..k];
        streamed := true;
        got := got + [(i, chunks[k])];
      }
      assert chunks[..|chunks|] == chunks;
    }
  }

  /** Decision, recorder and client after the steps. */
  ghost predicate Streaming(cands: seq<Candidate>, world: World, steps: seq<Step>, decision: Decision, absent: bool,
                            started0: seq<Candidate>, finished0: seq<(nat, Status)>, got0: seq<(nat, bytes)>,
                            started: seq<Candidate>, finished: seq<(nat, Status)>, got: seq<(nat, bytes)>)
  {
    && Traced(cands, steps, decision) && Recorded(cands, steps, absent, started0, finished0, started, finished)
    && got == got0 + Delivered(world, steps)
  }

  lemma StreamOne(cands: seq<Candidate>, world: World, steps: seq<Step>, decision: Decision, absent: bool,
                  started0: seq<Candidate>, finished0: seq<(nat, Status)>, got0: seq<(nat, bytes)>,
                  started: seq<Candidate>, finished: seq<(nat, Status)>, got: seq<(nat, bytes)>, i: nat)
    requires Streaming(cands, world, steps, decision, absent, started0, finished0, got0, started, finished, got)
    requires i < |cands| && At(world, i).Ran?
    ensures var s := Outcome(world, i);
            Streaming(cands, world, steps + [s],
                      Decision(Some(cands[i]), decision.candidates + [cands[i]], decision.reasons + [Code(s.status)]),
                      absent, started0, finished0, got0,
                      if absent then started else started + [cands[i]],
                      if absent then finished else finished + [(|started|, s.status)],
                      got + Tagged(i, At(world, i).chunks))
  {
    var s := Outcome(world, i);
    TraceOne(cands, steps, decision, s);
    RecordOne(cands, steps, absent, started0, finished0, started, finished, s);
    DeliverOne(world, steps, s);
    Assoc(got0, Delivered(world, steps), Calls(world, i));
  }

  lemma DeliverOne(world: World, steps: seq<Step>, s: Step)
    ensures Delivered(world, steps + [s]) == Delivered(world, steps) + Calls(world, s.index)
  {
    assert (steps + [s])[..|steps|] == steps;
  }

  method ForwardStream(d: Directory, alias: string, world: World, recorder: Recorder, sink: Sink)
    returns (r: Result<Response, Error>, decision: Option<Decision>)
    modifies recorder, sink
    ensures Resolved(d, alias).Err? ==>
              && r == Err(Resolved(d, alias).error) && decision == None && sink.got == old(sink.got)
              && recorder.started == old(recorder.started) && recorder.finished == old(recorder.finished)
    ensures Resolved(d, alias).Ok? ==>
              var cands := Resolved(d, alias).value.0;
              var walk := Walk(|cands|, world, 0, NoCandidate);
              && r == walk.1 && decision.Some?
              && Streaming(cands, world, walk.0, decision.value, recorder.absent, old(recorder.started),
                           old(recorder.finished), old(sink.got), recorder.started, recorder.finished, sink.got)
  {
    var resolved := ResolveCandidates(d, alias);
    if resolved.Err? {
      return Err(resolved.error), None;
    }
    var dec;
    r, dec := TryStream(resolved.value.0, world, recorder, sink);
    decision := Some(dec);
  }

  /** One attempt of ForwardStream: start it, stream, finish it with its status, extend the decision. */
  method StreamFrom(cands: seq<Candidate>, world: World, i: nat, was: Decision, recorder: Recorder, sink: Sink,
                    ghost steps: seq<Step>, ghost started0: seq<Candidate>, ghost finished0: seq<(nat, Status)>,
                    ghost got0: seq<(nat, bytes)>)
    returns (dec: Decision, streamed: bool)
    requires i < |cands| && At(world, i).Ran?
    requires Streaming(cands, world, steps, was, recorder.absent, started0, finished0, got0,
                       recorder.started, recorder.finished, sink.got)
    modifies recorder, sink
    ensures Streaming(cands, world, steps + [Outcome(world, i)], dec, recorder.absent, started0, finished0, got0,
                      recorder.started, recorder.finished, sink.got)
    ensures streamed == (At(world, i).chunks != [])
  {
    var attempt := At(world, i);
    StreamOne(cands, world, steps, was, recorder.absent, started0, finished0, got0,
              recorder.started, recorder.finished, sink.got, i);
    dec := was.(selected := Some(cands[i]), candidates := was.candidates + [cands[i]]);
    var id := recorder.Start(cands[i]);
    streamed := sink.Stream(i, attempt.chunks, false);
    var status := Success;
    if attempt.result.Ok? {
      dec := dec.(reasons := dec.reasons + [Okay]);
    } else {
      status := Failed;
      if streamed {
        status := Partial;
      }
      dec := dec.(reasons := dec.reasons + [Failover]);
    }
    recorder.Finish(id, status);
  }

  /** The failover loop of ForwardStream. */
  method TryStream(cands: seq<Candidate>, world: World, recorder: Recorder, sink: Sink)
    returns (r: Result<Response, Error>, dec: Decision)
    modifies recorder, sink
    ensures var walk := Walk(|cands|, world, 0, NoCandidate);
            && r == walk.1
            && Streaming(cands, world, walk.0, dec, recorder.absent, old(recorder.started),
                         old(recorder.finished), old(sink.got), recorder.started, recorder.finished, sink.got)
  {
    dec := Decision(None, [], []);
    var lastErr := NoCandidate;
    var streamed := false;
    ghost var steps: seq<Step> := [];
    WalkStart(|cands|, world);
    var i := 0;
    while i < |cands|
      invariant 0 <= i <= |cands| && !streamed
      invariant Streaming(cands, world, steps, dec, recorder.absent, old(recorder.started), old(recorder.finished),
                          old(sink.got), recorder.started, recorder.finished, sink.got)
      invariant OnWalk(|cands|, world, i, lastErr, steps)
    {
      WalkAdvance(|cands|, world, i, lastErr, steps);
      var attempt := At(world, i);
      if attempt.Unresolvable? {
        lastErr := attempt.error;
      } else {
        dec, streamed := StreamFrom(cands, world, i, dec, recorder, sink, steps, old(recorder.started),
                                    old(recorder.finished), old(sink.got));
        steps := steps + [Outcome(world, i)];
        r := attempt.result;
        if r.Ok? || streamed || !Retryable(Some(r.error)) {
          return;
        }
        lastErr := r.error;
      }
      i := i + 1;
    }
    WalkStop(|cands|, world, lastErr, steps);
    return Err(lastErr), dec;
  }

  // ---- what a walk promises ----

  /** The positions from i on whose account can be resolved. */
  function Resolvable(n: nat, world: World, i: nat): seq<nat>
    requires i <= n
    decreases n - i
  {
    if i == n then [] else (if At(world, i).Ran? then [i] else []) + Resolvable(n, world, i + 1)
  }

  ghost predicate IndexesOf(steps: seq<Step>, at: seq<nat>) {
    |steps| <= |at| && forall k :: 0 <= k < |steps| ==> steps[k].index == at[k]
  }

  /** Attempts are made on a prefix of the resolvable candidates, in order; all but the last were silent
      retryable failures, recorded as failed. */
  lemma {:induction false} WalkPrefix(n: nat, world: World, i: nat, lastErr: Error)
    requires i <= n
    ensures var steps := Walk(n, world, i, lastErr).0;
            && IndexesOf(steps, Resolvable(n, world, i))
            && (forall k :: 0 <= k < |steps| ==> i <= steps[k].index < n && At(world, steps[k].index).Ran?)
            && (forall k :: 0 <= k < |steps| - 1 ==> PassesOn(world, steps[k].index) && steps[k].status == Failed)
    decreases n - i
  {
    if i < n {
      match At(world, i)
      case Unresolvable(e) => WalkPrefix(n, world, i + 1, e);
      case Ran(chunks, Ok(_)) =>
      case Ran(chunks, Err(e)) => WalkPrefix(n, world, i + 1, e);
    }
  }

  function ErrorOf(a: Attempt): Error {
    if a.Unresolvable? then a.error else if a.result.Err? then a.result.error else NoCandidate
  }

  lemma WalkStops(n: nat, world: World, i: nat, lastErr: Error)
    requires i < n && At(world, i).Ran? && !PassesOn(world, i)
    ensures Walk(n, world, i, lastErr) == ([Outcome(world, i)], At(world, i).result)
  {
  }

  lemma WalkOn(n: nat, world: World, i: nat, lastErr: Error)
    requires i < n && (At(world, i).Unresolvable? || PassesOn(world, i))
    ensures var (steps, r) := Walk(n, world, i, lastErr);
            var (rest, q) := Walk(n, world, i + 1, ErrorOf(At(world, i)));
            r == q && steps == (if At(world, i).Ran? then [Outcome(world, i)] else []) + rest
  {
  }

  ghost predicate Ends(n: nat, world: World, i: nat, lastErr: Error, steps: seq<Step>, r: Result<Response, Error>)
    requires i <= n
  {
    if steps != [] && !PassesOn(world, steps[|steps| - 1].index) then
      var last := steps[|steps| - 1];
      && At(world, last.index).Ran? && r == At(world, last.index).result
      && last.status == (if r.Ok? then Success else if At(world, last.index).chunks != [] then Partial else Failed)
    else
      && IndexesOf(steps, Resolvable(n, world, i)) && |steps| == |Resolvable(n, world, i)|
      && (steps != [] ==> steps[|steps| - 1].status == Failed)
      && r == Err(if i == n then lastErr else ErrorOf(At(world, n - 1)))
  }

  lemma EndsLater(n: nat, world: World, i: nat, lastErr: Error, rest: seq<Step>, r: Result<Response, Error>)
    requires i < n && (At(world, i).Unresolvable? || PassesOn(world, i))
    requires Ends(n, world, i + 1, ErrorOf(At(world, i)), rest, r)
    ensures Ends(n, world, i, lastErr, (if At(world, i).Ran? then [Outcome(world, i)] else []) + rest, r)
  {
    if At(world, i).Unresolvable? {
      assert [] + rest == rest;
    } else {
      var steps := [Outcome(world, i)] + rest;
      assert rest != [] ==> steps[|steps| - 1] == rest[|rest| - 1];
      assert Resolvable(n, world, i) == [i] + Resolvable(n, world, i + 1);
    }
  }

  /** How a walk ends: by the first success; by an error after which no further candidate may be tried;
      or, with every resolvable candidate tried, by the error of the last candidate. */
  lemma {:induction false} WalkEnd(n: nat, world: World, i: nat, lastErr: Error)
    requires i <= n
    ensures var (steps, r) := Walk(n, world, i, lastErr); Ends(n, world, i, lastErr, steps, r)
    decreases n - i
  {
    if i < n {
      if At(world, i).Unresolvable? || PassesOn(world, i) {
        WalkOn(n, world, i, lastErr);
        WalkEnd(n, world, i + 1, ErrorOf(At(world, i)));
        var (rest, r) := Walk(n, world, i + 1, ErrorOf(At(world, i)));
        EndsLater(n, world, i, lastErr, rest, r);
      } else {
        WalkStops(n, world, i, lastErr);
      }
    }
  }

  /** A request succeeds with candidate w's answer exactly when w answers and every resolvable candidate
      before it failed silently and retryably. */
  lemma {:induction false} SucceedsExactly(n: nat, world: World, i: nat, lastErr: Error, w: nat)
    requires i <= w < n
    ensures var (steps, r) := Walk(n, world, i, lastErr);
            (r.Ok? && steps != [] && steps[|steps| - 1].index == w) <==>
            (At(world, w).Ran? && At(world, w).result.Ok? &&
             forall j :: i <= j < w ==> At(world, j).Unresolvable? || PassesOn(world, j))
    decreases n - i
  {
    if i < w {
      if At(world, i).Unresolvable? || PassesOn(world, i) {
        WalkOn(n, world, i, lastErr);
        SucceedsExactly(n, world, i + 1, ErrorOf(At(world, i)), w);
        SuccessHasSteps(n, world, i + 1, ErrorOf(At(world, i)));
      } else {
        WalkStops(n, world, i, lastErr);
      }
    } else if At(world, i).Unresolvable? || PassesOn(world, i) {
      WalkOn(n, world, i, lastErr);
      WalkPrefix(n, world, i + 1, ErrorOf(At(world, i)));
      SuccessHasSteps(n, world, i + 1, ErrorOf(At(world, i)));
    } else {
      WalkStops(n, world, i, lastErr);
    }
  }

  lemma SuccessHasSteps(n: nat, world: World, i: nat, lastErr: Error)
    requires i <= n
    ensures Walk(n, world, i, lastErr).1.Ok? ==> Walk(n, world, i, lastErr).0 != []
  {
    WalkEnd(n, world, i, lastErr);
  }

  /** The decision of a request: failover for every attempt but the last, ok for a success; the selected
      target is the last one tried, and the tried ones are the picked prefix. */
  lemma DecisionMeaning(cands: seq<Candidate>, world: World, decision: Decision)
    requires Traced(cands, Walk(|cands|, world, 0, NoCandidate).0, decision)
    ensures var (steps, r) := Walk(|cands|, world, 0, NoCandidate);
            && |decision.reasons| == |decision.candidates| == |steps|
            && (decision.selected.Some? <==> steps != [])
            && (decision.selected.Some? ==> decision.candidates[|steps| - 1] == decision.selected.value)
            && (forall k :: 0 <= k < |steps| - 1 ==> decision.reasons[k] == Failover)
            && (steps != [] ==> decision.reasons[|steps| - 1] == if r.Ok? then Okay else Failover)
            && (r.Ok? ==> steps != [])
  {
    var steps := Walk(|cands|, world, 0, NoCandidate).0;
    WalkStatuses(|cands|, world);
    ReasonsAre(cands, steps, decision);
  }

  lemma WalkStatuses(n: nat, world: World)
    ensures var (steps, r) := Walk(n, world, 0, NoCandidate);
            && (forall k :: 0 <= k < |steps| - 1 ==> steps[k].status == Failed)
            && (steps != [] ==> steps[|steps| - 1].status in (if r.Ok? then {Success} else {Failed, Partial}))
            && (r.Ok? ==> steps != [])
  {
    WalkPrefix(n, world, 0, NoCandidate);
    WalkEnd(n, world, 0, NoCandidate);
  }

  lemma ReasonsAre(cands: seq<Candidate>, steps: seq<Step>, decision: Decision)
    requires Traced(cands, steps, decision)
    ensures |decision.reasons| == |decision.candidates| == |steps|
    ensures forall k :: 0 <= k < |steps| ==> decision.reasons[k] == Code(steps[k].status)
    ensures decision.selected == if steps == [] then None else Some(decision.candidates[|steps| - 1])
  {
    forall k | 0 <= k < |steps| ensures decision.reasons[k] == Code(steps[k].status) {
      ReasonAt(steps, k);
    }
    if steps != [] {
      PickedAt(cands, steps, |steps| - 1);
    }
  }

  lemma {:induction false} SilentDeliverNothing(world: World, steps: seq<Step>)
    requires forall k :: 0 <= k < |steps| ==> PassesOn(world, steps[k].index)
    ensures Delivered(world, steps) == []
  {
    if steps != [] {
      SilentDeliverNothing(world, steps[..|steps| - 1]);
    }
  }

  /** No replay: everything the client is given comes from the last candidate tried, so no attempt
      follows output; only that attempt can be partial, and it is exactly when output was followed by an
      error. */
  lemma NoReplayAfterOutput(n: nat, world: World)
    ensures var (steps, r) := Walk(n, world, 0, NoCandidate);
            && (steps == [] ==> Delivered(world, steps) == [])
            && (steps != [] ==>
                  var last := steps[|steps| - 1];
                  && At(world, last.index).Ran?
                  && Delivered(world, steps) == Tagged(last.index, At(world, last.index).chunks)
                  && (last.status == Partial <==> r.Err? && Delivered(world, steps) != []))
            && forall k :: 0 <= k < |steps| - 1 ==> steps[k].status == Failed
  {
    WalkPrefix(n, world, 0, NoCandidate);
    WalkEnd(n, world, 0, NoCandidate);
    var steps := Walk(n, world, 0, NoCandidate).0;
    if steps != [] {
      SilentDeliverNothing(world, steps[..|steps| - 1]);
    }
  }

  /** Every attempt started is finished exactly once, in order. */
  lemma StartedAreFinished(cands: seq<Candidate>, world: World, started: seq<Candidate>, finished: seq<(nat, Status)>)
    requires Recorded(cands, Walk(|cands|, world, 0, NoCandidate).0, false, [], [], started, finished)
    ensures |finished| == |started|
    ensures forall k :: 0 <= k < |started| ==> finished[k].0 == k
    ensures forall k :: 0 <= k < |started| - 1 ==> finished[k].1 == Failed
    ensures started != [] ==>
              (finished[|started| - 1].1 == Success <==> Walk(|cands|, world, 0, NoCandidate).1.Ok?)
  {
    var steps := Walk(|cands|, world, 0, NoCandidate).0;
    WalkStatuses(|cands|, world);
    assert finished == Finishes(0, steps) && |started| == |steps|;
    forall k | 0 <= k < |steps| ensures finished[k] == (k, steps[k].status) {
      FinishAt(0, steps, k);
    }
  }
}
