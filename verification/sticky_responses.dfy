/** Conversations stay with the account that started them: the binding of response ids to accounts, and
    every interleaving of requests that use and extend it. */
module StickyResponses {
  import opened Prelude

  type Account = string
  type Id = string

  const BINDING_TTL := 86400

  datatype Binding = Binding(account: Account, expires: int)

  type Bindings = map<Id, Binding>

  /** Saving a known id only moves its expiry. */
  function Saved(rows: Bindings, id: Id, account: Account, expires: int): Bindings {
    rows[id := if id in rows then rows[id].(expires := expires) else Binding(account, expires)]
  }

  /** A binding is found until its expiry has passed. */
  function Found(rows: Bindings, id: Id, now: int): Option<Account> {
    if id in rows && !(now > rows[id].expires) then Some(rows[id].account) else None
  }

  class Table {
    var rows: Bindings

    constructor ()
      ensures rows == map[]
    {
      rows := map[];
    }

    method Save(id: Id, account: Account, expires: int)
      modifies this
      ensures rows == Saved(old(rows), id, account, expires)
    {
      if id in rows {
        rows := rows[id := rows[id].(expires := expires)];
      } else {
        rows := rows[id := Binding(account, expires)];
      }
    }

    method Get(id: Id, now: int) returns (r: Option<Account>)
      ensures r == Found(rows, id, now)
    {
      if id !in rows {
        return None;
      }
      if now > rows[id].expires {
        return None;
      }
      return Some(rows[id].account);
    }
  }

  /** One request: previous is the response id it continues. */
  type Request = nat

  datatype Phase =
    | Trying(previous: Option<Id>, candidates: seq<Account>, sticky: bool)
    | InFlight(previous: Option<Id>, account: Account, rest: seq<Account>, sticky: bool)
    | Saving(previous: Option<Id>, account: Account, id: Id)
    | Over

  datatype Sent = Sent(request: Request, previous: Option<Id>, account: Account)

  /** Who produced a response, and in continuation of what. */
  datatype Origin = Origin(account: Account, parent: Option<Id>)

  /** sent and origins are history: every forwarding, and every response id an upstream returned. */
  datatype State = State(rows: Bindings, requests: map<Request, Phase>, sent: seq<Sent>, origins: map<Id, Origin>)

  datatype Action =
    | Arrive(r: Request, previous: Option<Id>, now: int, usable: bool, candidates: seq<Account>)
    | Skip(r: Request, reauth: bool)
    | Send(r: Request)
    | Fail(r: Request, retryable: bool)
    | Answer(r: Request, id: Id)
    | Save(r: Request, now: int, works: bool)

  predicate Enabled(s: State, a: Action) {
    match a
    case Arrive(r, _, _, _, _) => r !in s.requests
    case Skip(r, _) => r in s.requests && s.requests[r].Trying? && s.requests[r].candidates != []
    case Send(r) => r in s.requests && s.requests[r].Trying? && s.requests[r].candidates != []
    case Fail(r, _) => r in s.requests && s.requests[r].InFlight?
    case Answer(r, _) => r in s.requests && s.requests[r].InFlight?
    case Save(r, _, _) => r in s.requests && s.requests[r].Saving?
  }

  /** The upstream returns a response id that no upstream has returned before. */
  predicate FreshIds(s: State, a: Action) {
    a.Answer? ==> a.id !in s.origins
  }

  function Step(s: State, a: Action): State
    requires Enabled(s, a)
  {
    match a
    case Arrive(r, previous, now, usable, candidates) =>
      var phase :=
        if previous.None? then Trying(None, candidates, false)
        else
          var bound := Found(s.rows, previous.value, now);
          if bound.None? || !usable then Over else Trying(previous, [bound.value], true);
      s.(requests := s.requests[r := phase])
    case Skip(r, reauth) =>
      var Trying(previous, candidates, sticky) := s.requests[r];
      s.(requests := s.requests[r := if reauth then Over else Trying(previous, candidates[1..], sticky)])
    case Send(r) =>
      var Trying(previous, candidates, sticky) := s.requests[r];
      s.(requests := s.requests[r := InFlight(previous, candidates[0], candidates[1..], sticky)],
         sent := s.sent + [Sent(r, previous, candidates[0])])
    case Fail(r, retryable) =>
      var InFlight(previous, _, rest, sticky) := s.requests[r];
      s.(requests := s.requests[r := if sticky || !retryable then Over else Trying(previous, rest, sticky)])
    case Answer(r, id) =>
      var InFlight(previous, account, _, _) := s.requests[r];
      if id == "" then s.(requests := s.requests[r := Over])
      else
        s.(requests := s.requests[r := Saving(previous, account, id)],
           origins := s.origins[id := Origin(account, previous)])
    case Save(r, now, works) =>
      var Saving(_, account, id) := s.requests[r];
      s.(requests := s.requests[r := Over],
         rows := if works then Saved(s.rows, id, account, now + BINDING_TTL) else s.rows)
  }

  const INITIAL := State(map[], map[], [], map[])

  /** The state after the actions in turn; fresh demands that upstreams never repeat an id. */
  function Run(distinct: bool, s: State, actions: seq<Action>): Option<State> {
    if actions == [] then Some(s)
    else
      var last := |actions| - 1;
      var p := Run(distinct, s, actions[..last]);
      if p.Some? && Enabled(p.value, actions[last]) && (distinct ==> FreshIds(p.value, actions[last]))
      then Some(Step(p.value, actions[last]))
      else None
  }

  // ---- bindings are for good ----

  ghost predicate Extends(before: Bindings, after: Bindings) {
    forall id :: id in before ==> id in after && after[id].account == before[id].account
  }

  lemma StepExtends(s: State, a: Action)
    requires Enabled(s, a)
    ensures Extends(s.rows, Step(s, a).rows)
  {
  }

  /** Over any run, the account a response id is bound to never changes. */
  lemma {:induction false} BindingNeverChanges(s: State, actions: seq<Action>)
    requires Run(false, s, actions).Some?
    ensures Extends(s.rows, Run(false, s, actions).value.rows)
  {
    if actions != [] {
      var last := |actions| - 1;
      BindingNeverChanges(s, actions[..last]);
      StepExtends(Run(false, s, actions[..last]).value, actions[last]);
    }
  }

  /** Saving binds an id to the account that produced the response exactly when the id was not already
      bound to another one. */
  lemma SaveBindsProducer(rows: Bindings, id: Id, account: Account, expires: int)
    ensures Saved(rows, id, account, expires)[id].account == account <==> (id !in rows || rows[id].account == account)
  {
  }

  // ---- continued conversations go to the bound account only ----

  /** previous is bound to account. */
  predicate Bound(s: State, previous: Option<Id>, account: Account) {
    previous.Some? ==> previous.value in s.rows && s.rows[previous.value].account == account
  }

  ghost predicate PhaseOk(s: State, p: Phase) {
    match p
    case Trying(previous, candidates, sticky) =>
      && (sticky <==> previous.Some?)
      && (sticky ==> |candidates| <= 1 && forall c :: c in candidates ==> Bound(s, previous, c))
    case InFlight(previous, account, rest, sticky) =>
      (sticky <==> previous.Some?) && (sticky ==> rest == []) && Bound(s, previous, account)
    case Saving(previous, account, id) =>
      Bound(s, previous, account) && id in s.origins
    case Over => true
  }

  ghost predicate Inv(s: State) {
    && (forall r :: r in s.requests ==> PhaseOk(s, s.requests[r]))
    && (forall k :: 0 <= k < |s.sent| ==> Bound(s, s.sent[k].previous, s.sent[k].account))
  }

  lemma StepKeepsInv(s: State, a: Action)
    requires Inv(s) && Enabled(s, a)
    ensures Inv(Step(s, a))
  {
    var s' := Step(s, a);
    StepExtends(s, a);
    if a.Send? {
      assert PhaseOk(s, s.requests[a.r]);
      assert s.requests[a.r].candidates[0] in s.requests[a.r].candidates;
    }
    forall r | r in s'.requests ensures PhaseOk(s', s'.requests[r]) {
      if r in s.requests {
        assert PhaseOk(s, s.requests[r]);
      }
    }
    forall k | 0 <= k < |s'.sent| ensures Bound(s', s'.sent[k].previous, s'.sent[k].account) {
      if k < |s.sent| {
        assert Bound(s, s.sent[k].previous, s.sent[k].account);
      }
    }
  }

  lemma {:induction false} RunKeepsInv(distinct: bool, actions: seq<Action>)
    requires Run(distinct, INITIAL, actions).Some?
    ensures Inv(Run(distinct, INITIAL, actions).value)
  {
    if actions != [] {
      var last := |actions| - 1;
      RunKeepsInv(distinct, actions[..last]);
      StepKeepsInv(Run(distinct, INITIAL, actions[..last]).value, actions[last]);
    }
  }

  /** Whatever is sent on behalf of a request that carries a response id goes to the account that id is
      bound to: then, and at every later time. */
  lemma SentOnlyToBoundAccount(distinct: bool, actions: seq<Action>, k: nat)
    requires Run(distinct, INITIAL, actions).Some? && k < |Run(distinct, INITIAL, actions).value.sent|
    requires Run(distinct, INITIAL, actions).value.sent[k].previous.Some?
    ensures var s := Run(distinct, INITIAL, actions).value;
            && s.sent[k].previous.value in s.rows
            && s.rows[s.sent[k].previous.value].account == s.sent[k].account
  {
    RunKeepsInv(distinct, actions);
  }

  /** At some arrival of request r with this id, the id was bound to account, its binding had not expired,
      and the account was usable. */
  ghost predicate Admitted(distinct: bool, actions: seq<Action>, r: Request, id: Id, account: Account) {
    exists j :: 0 <= j < |actions| && Admits(Run(distinct, INITIAL, actions[..j]), actions[j], r, id, account)
  }

  predicate Admits(s: Option<State>, a: Action, r: Request, id: Id, account: Account) {
    && s.Some? && a.Arrive? && a.r == r && a.previous == Some(id) && a.usable
    && Found(s.value.rows, id, a.now) == Some(account)
  }

  lemma AdmittedGrows(distinct: bool, actions: seq<Action>, a: Action, r: Request, id: Id, account: Account)
    ensures Admitted(distinct, actions, r, id, account)
            || Admits(Run(distinct, INITIAL, actions), a, r, id, account) ==>
              Admitted(distinct, actions + [a], r, id, account)
  {
    var all := actions + [a];
    assert all[|actions|] == a && all[..|actions|] == actions;
    if Admitted(distinct, actions, r, id, account) {
      var j :| 0 <= j < |actions| && Admits(Run(distinct, INITIAL, actions[..j]), actions[j], r, id, account);
      assert all[j] == actions[j] && all[..j] == actions[..j];
    }
  }

  /** Whoever a request that carries an id may still be sent to, or has been sent to, was admitted. */
  ghost predicate OnlyAdmitted(distinct: bool, actions: seq<Action>, r: Request, p: Phase) {
    match p
    case Trying(Some(id), candidates, _) => forall c :: c in candidates ==> Admitted(distinct, actions, r, id, c)
    case InFlight(Some(id), account, rest, _) =>
      Admitted(distinct, actions, r, id, account) && forall c :: c in rest ==> Admitted(distinct, actions, r, id, c)
    case _ => true
  }

  ghost predicate SentAdmitted(distinct: bool, actions: seq<Action>, x: Sent) {
    x.previous.Some? ==> Admitted(distinct, actions, x.request, x.previous.value, x.account)
  }

  lemma PhaseGrows(distinct: bool, actions: seq<Action>, a: Action, r: Request, p: Phase)
    requires OnlyAdmitted(distinct, actions, r, p)
    ensures OnlyAdmitted(distinct, actions + [a], r, p)
  {
    forall id, c | Admitted(distinct, actions, r, id, c) ensures Admitted(distinct, actions + [a], r, id, c) {
      AdmittedGrows(distinct, actions, a, r, id, c);
    }
  }

  lemma ActorAdmitted(distinct: bool, actions: seq<Action>, a: Action)
    requires Run(distinct, INITIAL, actions).Some? && Enabled(Run(distinct, INITIAL, actions).value, a)
    requires var s := Run(distinct, INITIAL, actions).value;
             a.r in s.requests ==> OnlyAdmitted(distinct, actions, a.r, s.requests[a.r])
    ensures var s' := Step(Run(distinct, INITIAL, actions).value, a);
            && OnlyAdmitted(distinct, actions + [a], a.r, s'.requests[a.r])
            && (a.Send? ==> SentAdmitted(distinct, actions + [a], s'.sent[|s'.sent| - 1]))
  {
    var s := Run(distinct, INITIAL, actions).value;
    if a.r in s.requests {
      PhaseGrows(distinct, actions, a, a.r, s.requests[a.r]);
      if a.Skip? || a.Send? {
        assert s.requests[a.r].candidates[0] in s.requests[a.r].candidates;
        assert forall c :: c in s.requests[a.r].candidates[1..] ==> c in s.requests[a.r].candidates;
      }
    } else if a.previous.Some? && Found(s.rows, a.previous.value, a.now).Some? {
      AdmittedGrows(distinct, actions, a, a.r, a.previous.value, Found(s.rows, a.previous.value, a.now).value);
    }
  }

  lemma {:induction false} RunAdmits(distinct: bool, actions: seq<Action>)
    requires Run(distinct, INITIAL, actions).Some?
    ensures var s := Run(distinct, INITIAL, actions).value;
            && (forall r :: r in s.requests ==> OnlyAdmitted(distinct, actions, r, s.requests[r]))
            && (forall k :: 0 <= k < |s.sent| ==> SentAdmitted(distinct, actions, s.sent[k]))
  {
    if actions != [] {
      var last := |actions| - 1;
      var before, a := actions[..last], actions[last];
      RunAdmits(distinct, before);
      assert before + [a] == actions;
      var s, s' := Run(distinct, INITIAL, before).value, Run(distinct, INITIAL, actions).value;
      ActorAdmitted(distinct, before, a);
      forall r | r in s'.requests ensures OnlyAdmitted(distinct, actions, r, s'.requests[r]) {
        if r != a.r {
          PhaseGrows(distinct, before, a, r, s.requests[r]);
        }
      }
      forall k | 0 <= k < |s'.sent| ensures SentAdmitted(distinct, actions, s'.sent[k]) {
        if k < |s.sent| && s.sent[k].previous.Some? {
          AdmittedGrows(distinct, before, a, s.sent[k].request, s.sent[k].previous.value, s.sent[k].account);
        }
      }
    }
  }

  /** Over any run, everything sent on behalf of a request that carries an id comes from an arrival of that
      request at which the id was bound to the account it is sent to, unexpired, and the account usable. */
  lemma SentWasAdmitted(distinct: bool, actions: seq<Action>, k: nat)
    requires Run(distinct, INITIAL, actions).Some? && k < |Run(distinct, INITIAL, actions).value.sent|
    requires Run(distinct, INITIAL, actions).value.sent[k].previous.Some?
    ensures var x := Run(distinct, INITIAL, actions).value.sent[k];
            Admitted(distinct, actions, x.request, x.previous.value, x.account)
  {
    RunAdmits(distinct, actions);
  }

  /** Nothing has been sent for the request, and it is over. */
  ghost predicate Silent(s: State, r: Request) {
    && r in s.requests && s.requests[r].Over?
    && forall k :: 0 <= k < |s.sent| ==> s.sent[k].request != r
  }

  lemma {:induction false} SentWereRequests(distinct: bool, actions: seq<Action>)
    requires Run(distinct, INITIAL, actions).Some?
    ensures var s := Run(distinct, INITIAL, actions).value;
            forall k :: 0 <= k < |s.sent| ==> s.sent[k].request in s.requests
  {
    if actions != [] {
      SentWereRequests(distinct, actions[..|actions| - 1]);
    }
  }

  lemma {:induction false} SilentStays(distinct: bool, s: State, more: seq<Action>, r: Request)
    requires Silent(s, r) && Run(distinct, s, more).Some?
    ensures Silent(Run(distinct, s, more).value, r)
    decreases |more|
  {
    if more != [] {
      SilentStays(distinct, s, more[..|more| - 1], r);
    }
  }

  /** Something is sent for the request in some continuation. */
  ghost predicate MaySend(distinct: bool, s: State, r: Request) {
    exists more :: SendsFor(distinct, s, more, r)
  }

  ghost predicate SendsFor(distinct: bool, s: State, more: seq<Action>, r: Request) {
    && Run(distinct, s, more).Some?
    && exists k :: 0 <= k < |Run(distinct, s, more).value.sent| && Run(distinct, s, more).value.sent[k].request == r
  }

  /** A request that carries an id can lead to anything being sent, now or later, exactly when the id is
      bound, the binding has not expired, and the bound account is usable. */
  lemma MaySendExactly(distinct: bool, actions: seq<Action>, r: Request, id: Id, now: int, usable: bool,
                       candidates: seq<Account>)
    requires Run(distinct, INITIAL, actions).Some? && r !in Run(distinct, INITIAL, actions).value.requests
    ensures var s := Run(distinct, INITIAL, actions).value;
            MaySend(distinct, Step(s, Arrive(r, Some(id), now, usable, candidates)), r)
            <==> usable && id in s.rows && now <= s.rows[id].expires
  {
    var s := Run(distinct, INITIAL, actions).value;
    var s' := Step(s, Arrive(r, Some(id), now, usable, candidates));
    SentWereRequests(distinct, actions);
    if usable && id in s.rows && now <= s.rows[id].expires {
      assert [Send(r)][..0] == [];
      assert Run(distinct, s', []) == Some(s');
      var end := Step(s', Send(r));
      assert Run(distinct, s', [Send(r)]) == Some(end);
      assert end.sent[|s'.sent|].request == r;
      assert SendsFor(distinct, s', [Send(r)], r);
    } else {
      assert Silent(s', r);
      forall more | Run(distinct, s', more).Some? ensures !SendsFor(distinct, s', more, r) {
        SilentStays(distinct, s', more, r);
      }
    }
  }

  // ---- conversation trees ----

  /** With distinct ids: an id is bound to its producer only, and a continuation has the producer of
      what it continues. */
  ghost predicate OriginOk(s: State, id: Id)
    requires id in s.origins
  {
    var o := s.origins[id];
    && (id in s.rows ==> s.rows[id].account == o.account)
    && (o.parent.Some? ==>
          && o.parent.value in s.origins && s.origins[o.parent.value].account == o.account
          && Bound(s, o.parent, o.account))
  }

  ghost predicate Trees(s: State) {
    && (forall id :: id in s.origins ==> OriginOk(s, id))
    && (forall id :: id in s.rows ==> id in s.origins)
    && (forall r :: r in s.requests && s.requests[r].Saving? ==>
          s.requests[r].id in s.origins && s.origins[s.requests[r].id].account == s.requests[r].account)
  }

  lemma StepKeepsTrees(s: State, a: Action)
    requires Inv(s) && Trees(s) && Enabled(s, a) && FreshIds(s, a)
    ensures Trees(Step(s, a))
  {
    var s' := Step(s, a);
    StepExtends(s, a);
    if !a.Arrive? {
      assert PhaseOk(s, s.requests[a.r]);
    }
    forall id | id in s'.origins ensures OriginOk(s', id) {
      if id in s.origins {
        assert OriginOk(s, id);
      }
      if a.Answer? && s.requests[a.r].previous.Some? {
        assert OriginOk(s, s.requests[a.r].previous.value);
      }
    }
  }

  lemma {:induction false} RunKeepsTrees(actions: seq<Action>)
    requires Run(true, INITIAL, actions).Some?
    ensures Trees(Run(true, INITIAL, actions).value)
  {
    if actions != [] {
      var last := |actions| - 1;
      RunKeepsTrees(actions[..last]);
      RunKeepsInv(true, actions[..last]);
      StepKeepsTrees(Run(true, INITIAL, actions[..last]).value, actions[last]);
    }
  }

  /** Each response continues the one before it. */
  ghost predicate Branch(s: State, path: seq<Id>) {
    && (forall i :: 0 <= i < |path| ==> path[i] in s.origins)
    && (forall i :: 0 < i < |path| ==> s.origins[path[i]].parent == Some(path[i - 1]))
  }

  lemma {:induction false} BranchHasOneProducer(s: State, path: seq<Id>)
    requires Trees(s) && Branch(s, path) && path != []
    ensures s.origins[path[|path| - 1]].account == s.origins[path[0]].account
  {
    if |path| > 1 {
      var shorter := path[..|path| - 1];
      BranchHasOneProducer(s, shorter);
      assert OriginOk(s, path[|path| - 1]);
    }
  }

  /** With distinct upstream ids, every response of a conversation was produced by the root's account,
      and if it is bound it is bound to that account; every response that was continued is bound. */
  lemma ConversationStaysWithRoot(actions: seq<Action>, path: seq<Id>)
    requires Run(true, INITIAL, actions).Some? && path != [] && Branch(Run(true, INITIAL, actions).value, path)
    ensures var s := Run(true, INITIAL, actions).value;
            var root := s.origins[path[0]].account;
            var leaf := path[|path| - 1];
            && s.origins[leaf].account == root
            && (leaf in s.rows ==> s.rows[leaf].account == root)
            && (|path| > 1 ==> path[|path| - 2] in s.rows && s.rows[path[|path| - 2]].account == root)
  {
    RunKeepsTrees(actions);
    var s := Run(true, INITIAL, actions).value;
    BranchHasOneProducer(s, path);
    assert OriginOk(s, path[|path| - 1]);
  }

  // ---- which bindings there are ----

  /** This action saves the id for the account, in this state. */
  predicate Saves(s: State, a: Action, id: Id) {
    a.Save? && a.works && a.r in s.requests && s.requests[a.r].Saving? && s.requests[a.r].id == id
  }

  /** The binding that a run has made for an id: the account of its first save, for a day after its last. */
  function Made(s: State, actions: seq<Action>, id: Id): Option<Binding> {
    if actions == [] then None
    else
      var last := |actions| - 1;
      var p, earlier := Run(false, s, actions[..last]), Made(s, actions[..last], id);
      if p.Some? && Saves(p.value, actions[last], id) then
        Some(Binding(if earlier.Some? then earlier.value.account else p.value.requests[actions[last].r].account,
                     actions[last].now + 24 * 60 * 60))
      else earlier
  }

  /** Over every run the bindings are exactly those that were saved. */
  lemma {:induction false} BindingsTold(actions: seq<Action>, id: Id)
    requires Run(false, INITIAL, actions).Some?
    ensures var s := Run(false, INITIAL, actions).value;
            (if id in s.rows then Some(s.rows[id]) else None) == Made(INITIAL, actions, id)
  {
    if actions != [] {
      BindingsTold(actions[..|actions| - 1], id);
    }
  }

  /** An answer with an id can be saved, and a save that works binds the id to the account that was asked,
      unless it was bound before; an answer without one ends the request. */
  lemma AnswerBinds(s: State, r: Request, id: Id, now: int, works: bool)
    requires Enabled(s, Answer(r, id))
    ensures var s' := Step(s, Answer(r, id));
            && (Enabled(s', Save(r, now, works)) <==> id != "") && s'.rows == s.rows
            && (id == "" ==> s' == s.(requests := s.requests[r := Over]))
            && (id != "" ==>
                  && s'.origins == s.origins[id := Origin(s.requests[r].account, s.requests[r].previous)]
                  && var end := Step(s', Save(r, now, works));
                     && end.requests[r] == Over && (!works ==> end.rows == s.rows)
                     && (works ==> id in end.rows && end.rows[id].expires == now + 24 * 60 * 60)
                     && (works && id in s.rows ==> end.rows[id].account == s.rows[id].account)
                     && (works && id !in s.rows ==> end.rows[id].account == s.requests[r].account))
  {
  }

  // ---- requests go forward, candidate by candidate ----

  /** How many steps a request has left at most. */
  function Left(p: Phase): nat {
    match p
    case Trying(_, candidates, _) => 3 * |candidates| + 1
    case InFlight(_, _, rest, _) => 3 * |rest| + 3
    case Saving(_, _, _) => 1
    case Over => 0
  }

  lemma RequestsGoForward(s: State, a: Action)
    requires Enabled(s, a) && !a.Arrive?
    ensures a.r in Step(s, a).requests && Left(Step(s, a).requests[a.r]) < Left(s.requests[a.r])
  {
  }

  /** After a failure the next candidate can be asked exactly when the request carries no id, the error is
      retryable and a candidate is left; it is then the next in the list. */
  lemma PassedOnExactly(s: State, r: Request, retryable: bool)
    requires Inv(s) && Enabled(s, Fail(r, retryable))
    ensures var s' := Step(s, Fail(r, retryable));
            && (Enabled(s', Send(r)) <==>
                  s.requests[r].previous.None? && retryable && s.requests[r].rest != [])
            && (Enabled(s', Send(r)) ==> s'.requests[r].candidates == s.requests[r].rest)
  {
    assert PhaseOk(s, s.requests[r]);
  }

  /** After a candidate that cannot be resolved, the next one exactly when that is not for lack of authorization
      and one is left. */
  lemma SkippedExactly(s: State, r: Request, reauth: bool)
    requires Enabled(s, Skip(r, reauth))
    ensures var s' := Step(s, Skip(r, reauth));
            && (Enabled(s', Send(r)) <==> !reauth && |s.requests[r].candidates| > 1)
            && (Enabled(s', Send(r)) ==> s'.requests[r].candidates == s.requests[r].candidates[1..])
  {
  }

  /** A request without an id can ask all its candidates; whoever is asked is the first one left. */
  lemma SendsFirst(s: State, r: Request, now: int, usable: bool, candidates: seq<Account>)
    requires r !in s.requests
    ensures Step(s, Arrive(r, None, now, usable, candidates)).requests[r] == Trying(None, candidates, false)
    ensures forall q :: Enabled(s, Send(q)) ==>
              var s' := Step(s, Send(q));
              && s'.sent == s.sent + [Sent(q, s.requests[q].previous, s.requests[q].candidates[0])]
              && s'.requests[q].InFlight? && s'.requests[q].account == s.requests[q].candidates[0]
              && s'.requests[q].rest == s.requests[q].candidates[1..]
              && s'.requests[q].previous == s.requests[q].previous
  {
  }

  // ---- a conversation ----

  lemma RunSnoc(distinct: bool, s: State, actions: seq<Action>, a: Action)
    requires Run(distinct, s, actions).Some? && Enabled(Run(distinct, s, actions).value, a)
    requires distinct ==> FreshIds(Run(distinct, s, actions).value, a)
    ensures Run(distinct, s, actions + [a]) == Some(Step(Run(distinct, s, actions).value, a))
  {
    TakeAppend(actions, [a]);
  }

  lemma ConversationStarts(distinct: bool, s: State, q: Request, id: Id, now: int, candidates: seq<Account>)
    returns (actions: seq<Action>)
    requires q !in s.requests && candidates != [] && id != "" && id !in s.origins && id !in s.rows
    ensures Run(distinct, s, actions).Some?
    ensures var t := Run(distinct, s, actions).value;
            && t.rows == s.rows[id := Binding(candidates[0], now + 24 * 60 * 60)]
            && t.sent == s.sent + [Sent(q, None, candidates[0])] && t.requests.Keys == s.requests.Keys + {q}
  {
    actions := [];
    RunSnoc(distinct, s, actions, Arrive(q, None, now, true, candidates));
    actions := actions + [Arrive(q, None, now, true, candidates)];
    RunSnoc(distinct, s, actions, Send(q));
    actions := actions + [Send(q)];
    RunSnoc(distinct, s, actions, Answer(q, id));
    actions := actions + [Answer(q, id)];
    RunSnoc(distinct, s, actions, Save(q, now, true));
    actions := actions + [Save(q, now, true)];
  }

  /** From every state: a request without an id can be answered by its first candidate, and its response id is
      then bound to that account; a request that carries the id within a day goes there. */
  lemma ConversationContinues(distinct: bool, s: State, q: Request, r: Request, id: Id, now: int, later: int,
                              candidates: seq<Account>) returns (actions: seq<Action>)
    requires q !in s.requests && r !in s.requests && q != r && candidates != []
    requires id != "" && id !in s.origins && id !in s.rows && later <= now + 24 * 60 * 60
    ensures Run(distinct, s, actions).Some?
    ensures var t := Run(distinct, s, actions).value;
            && t.rows == s.rows[id := Binding(candidates[0], now + 24 * 60 * 60)]
            && t.sent == s.sent + [Sent(q, None, candidates[0])] + [Sent(r, Some(id), candidates[0])]
            && r in t.requests && t.requests[r] == InFlight(Some(id), candidates[0], [], true)
  {
    actions := ConversationStarts(distinct, s, q, id, now, candidates);
    RunSnoc(distinct, s, actions, Arrive(r, Some(id), later, true, []));
    actions := actions + [Arrive(r, Some(id), later, true, [])];
    RunSnoc(distinct, s, actions, Send(r));
    actions := actions + [Send(r)];
  }
}
