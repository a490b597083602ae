/** The race between the callback listener and manual completions of one login. One action is a
    critical section on the state store or on the flow, the code exchange, or the account insertion. */
module FlowCompletion {
  import opened Prelude
  import StateStore

  type FlowId = nat

  /** One run of completeFlowAccount; it also names the account that run would create. */
  type Path = nat

  datatype Status = Pending | Completed | Failed
  datatype Flow = Flow(state: string, status: Status, account: Option<Path>)

  /** Who brings a callback: the listener that the flow has started, which delivers one, or the user. */
  datatype Source = Listener | Manual

  datatype Verdict = Created | Superseded | Rejected

  datatype Pc =
    | Exchanging(flow: FlowId, state: string)
    | Refused(flow: FlowId)
    | Authorized(flow: FlowId, state: string)
    | Creating(flow: FlowId, state: string)
    | Recording(flow: FlowId, state: string)
    | Abandoning(flow: FlowId, state: string)
    | Done(flow: FlowId, verdict: Verdict)
  {
    /** Has consumed a state that it may still turn into an account. */
    predicate Holds() { Exchanging? || Authorized? || Creating? || Recording? || Abandoning? }

    /** May still become, or is about to be recorded as, an account of its flow. */
    predicate Advancing() { Exchanging? || Authorized? || Creating? || Recording? }
  }

  /** heard are the flows whose listener has delivered; clock is the latest reading. drawn and consumer are
      history: the states ever issued, and who consumed each successfully. */
  datatype State = State(flows: map<FlowId, Flow>, entries: StateStore.Entries, paths: map<Path, Pc>,
                         accounts: map<Path, FlowId>, secrets: set<Path>,
                         drawn: set<string>, consumer: map<string, Path>, heard: set<FlowId>, clock: int)

  datatype Action =
    | Start(flow: FlowId, now: int, state: string, entry: StateStore.Entry)
    | Complete(p: Path, flow: FlowId, now: int, state: string, usable: bool, source: Source)
    | Exchange(p: Path, ok: bool)
    | Settle(p: Path)
    | Create(p: Path, providerFound: bool, inserted: bool, deleted: bool)
    | Finish(p: Path)

  /** Random states never repeat, nor do random account ids, and the clock does not go back. A manual
      completion finds its flow by the state it presents; the listener does not compare the two. */
  predicate Enabled(s: State, a: Action) {
    match a
    case Start(f, now, state, _) => f !in s.flows && state !in s.drawn && s.clock <= now
    case Complete(p, f, now, state, _, source) =>
      && f in s.flows && p !in s.paths && s.clock <= now
      && match source { case Manual => state == s.flows[f].state case Listener => f !in s.heard }
    case Exchange(p, _) => p in s.paths && s.paths[p].Exchanging?
    case Settle(p) => p in s.paths && (s.paths[p].Refused? || s.paths[p].Authorized?) && s.paths[p].flow in s.flows
    case Create(p, _, _, _) => p in s.paths && s.paths[p].Creating?
    case Finish(p) =>
      p in s.paths && (s.paths[p].Recording? || s.paths[p].Abandoning?) && s.paths[p].flow in s.flows
  }

  /** A live state: consuming it now succeeds. */
  predicate Live(s: State, now: int, state: string) {
    state in s.entries && now <= s.entries[state].expiresAt
  }

  /** A completion that presents its flow's own state, or that cannot matter: it is unusable, its flow is
      settled, or the state it presents is dead. Only the listener can do otherwise. */
  predicate Harmless(s: State, a: Action) {
    a.Complete? && a.usable && a.flow in s.flows && s.flows[a.flow].status == Pending && Live(s, a.now, a.state) ==>
      a.state == s.flows[a.flow].state
  }

  /** Some run is on its way to an account of the flow. */
  ghost predicate Underway(s: State, f: FlowId) {
    exists p :: p in s.paths && s.paths[p].flow == f && s.paths[p].Advancing()
  }

  /** A completion that presents another flow's live state to a pending flow, which can still get an account
      by itself: its own state is live, or a run is under way. */
  ghost predicate Risky(s: State, a: Action) {
    && a.Complete? && a.usable && a.flow in s.flows && s.flows[a.flow].status == Pending
    && a.state != s.flows[a.flow].state && Live(s, a.now, a.state)
    && (Live(s, a.now, s.flows[a.flow].state) || Underway(s, a.flow))
  }

  /** usable: the callback carries a code, a state and no error. */
  function Step(s: State, a: Action): State
    requires Enabled(s, a)
  {
    match a
    case Start(f, now, state, e) =>
      s.(entries := StateStore.Registered(s.entries, now, state, e),
         flows := s.flows[f := Flow(state, Pending, None)], drawn := s.drawn + {state}, clock := now)
    case Complete(p, f, now, state, usable, source) =>
      var t := s.(heard := if source == Listener then s.heard + {f} else s.heard, clock := now);
      if !usable then
        t.(paths := s.paths[p := Refused(f)])
      else
        var (left, r) := StateStore.Consumed(s.entries, now, state);
        if r.Err? then
          t.(entries := left, paths := s.paths[p := Refused(f)])
        else
          t.(entries := left, paths := s.paths[p := Exchanging(f, state)], consumer := s.consumer[state := p])
    case Exchange(p, ok) =>
      var Exchanging(f, state) := s.paths[p];
      if ok then
        s.(paths := s.paths[p := Authorized(f, state)], secrets := s.secrets + {p})
      else
        s.(paths := s.paths[p := Refused(f)])
    case Settle(p) =>
      var f := s.paths[p].flow;
      if s.flows[f].status != Pending then
        s.(paths := s.paths[p := Done(f, Superseded)])
      else if s.paths[p].Refused? then
        s.(paths := s.paths[p := Done(f, Rejected)], flows := s.flows[f := s.flows[f].(status := Failed)])
      else
        s.(paths := s.paths[p := Creating(f, s.paths[p].state)])
    case Create(p, providerFound, inserted, deleted) =>
      var Creating(f, state) := s.paths[p];
      if !providerFound then
        s.(paths := s.paths[p := Abandoning(f, state)])
      else if !inserted then
        s.(paths := s.paths[p := Abandoning(f, state)],
           secrets := if deleted then s.secrets - {p} else s.secrets)
      else
        s.(paths := s.paths[p := Recording(f, state)], accounts := s.accounts[p := f])
    case Finish(p) =>
      var f := s.paths[p].flow;
      if s.paths[p].Recording? then
        s.(paths := s.paths[p := Done(f, Created)],
           flows := s.flows[f := s.flows[f].(status := Completed, account := Some(p))])
      else
        s.(paths := s.paths[p := Done(f, Rejected)],
           flows := s.flows[f := s.flows[f].(status := Failed)])
  }

  const INITIAL := State(map[], map[], map[], map[], {}, {}, map[], {}, 0)

  /** Which completions a run may contain. */
  datatype Guard = Anything | HarmlessOnly | RisklessOnly

  ghost predicate Allowed(guard: Guard, s: State, a: Action) {
    match guard
    case Anything => true
    case HarmlessOnly => Harmless(s, a)
    case RisklessOnly => !Risky(s, a)
  }

  /** The state after the actions in turn. */
  ghost function Run(guard: Guard, s: State, actions: seq<Action>): Option<State> {
    if actions == [] then Some(s)
    else
      var last := |actions| - 1;
      var p := Run(guard, s, actions[..last]);
      if p.Some? && Enabled(p.value, actions[last]) && Allowed(guard, p.value, actions[last])
      then Some(Step(p.value, actions[last]))
      else None
  }

  // ---- tokens and accounts, whatever state is presented ----

  /** A run has stored its bundle once the exchange is over; only an abandoned one may be without it. */
  ghost predicate SecretOk(s: State, p: Path)
    requires p in s.paths
  {
    && (s.paths[p].Authorized? || s.paths[p].Creating? || p in s.accounts ==> p in s.secrets)
    && (s.paths[p].Exchanging? || s.paths[p].Refused? ==> p !in s.secrets)
    && (p in s.accounts <==> s.paths[p].Recording? || (s.paths[p].Done? && s.paths[p].verdict.Created?))
    && (p in s.accounts ==> s.accounts[p] == s.paths[p].flow)
  }

  ghost predicate Kept(s: State) {
    && (forall p :: p in s.paths ==> SecretOk(s, p))
    && (forall p :: p in s.secrets || p in s.accounts ==> p in s.paths)
  }

  /** Which flow an action may write. */
  function Target(s: State, a: Action): FlowId
    requires Enabled(s, a)
  {
    if a.Start? || a.Complete? then a.flow else s.paths[a.p].flow
  }

  /** An action touches only its own run, its own flow, its own bundle and account, and the state it
      draws or consumes. */
  ghost predicate Moves(s: State, s': State, a: Action)
    requires Enabled(s, a)
  {
    && s.clock <= s'.clock && s.heard <= s'.heard && (a.Start? || a.Complete? ==> s'.clock == a.now)
    && (a.Start? ==>
          && s'.paths == s.paths && s'.secrets == s.secrets && s'.accounts == s.accounts
          && s'.flows == s.flows[a.flow := Flow(a.state, Pending, None)] && s'.drawn == s.drawn + {a.state}
          && s'.entries.Keys <= s.entries.Keys + {a.state} && s'.consumer == s.consumer)
    && (!a.Start? ==>
          && a.p in s'.paths && s'.paths == s.paths[a.p := s'.paths[a.p]]
          && s'.paths[a.p].flow == Target(s, a) && s'.drawn == s.drawn
          && (forall p :: p != a.p ==> (p in s'.secrets <==> p in s.secrets))
          && (forall p :: p != a.p ==> (p in s'.accounts <==> p in s.accounts))
          && (forall p :: p != a.p && p in s.accounts ==> s'.accounts[p] == s.accounts[p])
          && s'.entries.Keys <= s.entries.Keys
          && (s'.consumer == s.consumer ||
              (a.Complete? && a.state in s.entries && a.state !in s'.entries
               && s'.consumer == s.consumer[a.state := a.p] && s'.paths[a.p] == Exchanging(a.flow, a.state)))
          && (Target(s, a) in s.flows ==>
                && Target(s, a) in s'.flows && s'.flows == s.flows[Target(s, a) := s'.flows[Target(s, a)]]
                && var was := s.flows[Target(s, a)];
                   var now := s'.flows[Target(s, a)];
                   && now.state == was.state
                   && (now == was
                       || (a.Settle? && s.paths[a.p].Refused? && was.status == Pending && now == was.(status := Failed))
                       || (a.Finish? && s.paths[a.p].Abandoning? && now == was.(status := Failed))
                       || (a.Finish? && s.paths[a.p].Recording? && s'.paths[a.p] == Done(Target(s, a), Created)
                           && now == was.(status := Completed, account := Some(a.p))))))
  }

  lemma LoginMoves(s: State, a: Action)
    requires Enabled(s, a) && a.Start?
    ensures Moves(s, Step(s, a), a)
  {
  }

  lemma ArrivalMoves(s: State, a: Action)
    requires Enabled(s, a) && a.Complete?
    ensures Moves(s, Step(s, a), a)
  {
    assert s.flows == s.flows[a.flow := s.flows[a.flow]];
  }

  lemma SettleMoves(s: State, a: Action)
    requires Enabled(s, a) && (a.Settle? || a.Finish?)
    ensures Moves(s, Step(s, a), a)
  {
    assert s.flows == s.flows[Target(s, a) := s.flows[Target(s, a)]];
  }

  lemma ExchangeMoves(s: State, a: Action)
    requires Enabled(s, a) && a.Exchange?
    ensures Moves(s, Step(s, a), a)
  {
    assert Target(s, a) in s.flows ==> s.flows == s.flows[Target(s, a) := s.flows[Target(s, a)]];
  }

  lemma CreateMoves(s: State, a: Action)
    requires Enabled(s, a) && a.Create?
    ensures Moves(s, Step(s, a), a)
  {
    assert Target(s, a) in s.flows ==> s.flows == s.flows[Target(s, a) := s.flows[Target(s, a)]];
  }

  lemma StepMoves(s: State, a: Action)
    requires Enabled(s, a)
    ensures Moves(s, Step(s, a), a)
  {
    if a.Start? {
      LoginMoves(s, a);
    } else if a.Complete? {
      ArrivalMoves(s, a);
    } else if a.Settle? || a.Finish? {
      SettleMoves(s, a);
    } else if a.Exchange? {
      ExchangeMoves(s, a);
    } else {
      CreateMoves(s, a);
    }
  }

  lemma ActorKeepsSecrets(s: State, a: Action)
    requires Kept(s) && Enabled(s, a) && !a.Start?
    ensures a.p in Step(s, a).paths && SecretOk(Step(s, a), a.p)
  {
    StepMoves(s, a);
    if a.p in s.paths {
      assert SecretOk(s, a.p);
      if a.Exchange? || a.Create? { WorkKeepsSecrets(s, a); } else { SettleKeepsSecrets(s, a); }
    }
  }

  lemma WorkKeepsSecrets(s: State, a: Action)
    requires Enabled(s, a) && (a.Exchange? || a.Create?) && SecretOk(s, a.p)
    ensures SecretOk(Step(s, a), a.p)
  {
  }

  lemma SettleKeepsSecrets(s: State, a: Action)
    requires Enabled(s, a) && (a.Settle? || a.Finish?) && SecretOk(s, a.p)
    ensures SecretOk(Step(s, a), a.p)
  {
  }

  lemma OthersKeepSecrets(s: State, s': State, a: Action, p: Path)
    requires Kept(s) && Enabled(s, a) && Moves(s, s', a) && p in s.paths && (a.Start? || p != a.p)
    ensures SecretOk(s', p)
  {
    assert SecretOk(s, p);
  }

  lemma StepKeepsSecrets(s: State, a: Action)
    requires Kept(s) && Enabled(s, a)
    ensures Kept(Step(s, a))
  {
    var s' := Step(s, a);
    StepMoves(s, a);
    forall p | p in s'.paths ensures SecretOk(s', p) {
      if !a.Start? && p == a.p { ActorKeepsSecrets(s, a); } else { OthersKeepSecrets(s, s', a, p); }
    }
  }

  lemma {:induction false} RunKept(guard: Guard, actions: seq<Action>)
    requires Run(guard, INITIAL, actions).Some?
    ensures Kept(Run(guard, INITIAL, actions).value)
  {
    if actions != [] {
      var last := |actions| - 1;
      RunKept(guard, actions[..last]);
      StepKeepsSecrets(Run(guard, INITIAL, actions[..last]).value, actions[last]);
    }
  }

  // ---- what becomes of the bundles, told by the run's own actions ----

  ghost predicate ExchangeWorked(actions: seq<Action>, p: Path) {
    Exchange(p, true) in actions
  }

  /** The provider was missing, or neither the insertion nor the deletion that makes up for it worked. */
  ghost predicate Stranded(actions: seq<Action>, p: Path) {
    exists found, inserted, deleted ::
      Create(p, found, inserted, deleted) in actions && (!found || (!inserted && !deleted))
  }

  ghost predicate CreationFailed(actions: seq<Action>, p: Path) {
    exists found, inserted, deleted :: Create(p, found, inserted, deleted) in actions && (!found || !inserted)
  }

  /** In this state the flow of run p is not pending. */
  ghost predicate FlowSettled(r: Option<State>, p: Path) {
    && r.Some? && p in r.value.paths && r.value.paths[p].flow in r.value.flows
    && r.value.flows[r.value.paths[p].flow].status != Pending
  }

  /** When run p looked at its flow, the flow was not pending any more. */
  ghost predicate SettledLate(guard: Guard, actions: seq<Action>, p: Path) {
    exists i :: 0 <= i < |actions| && actions[i] == Settle(p) && FlowSettled(Run(guard, INITIAL, actions[..i]), p)
  }

  /** What a run has done so far, and whether its bundle is in the vault, by where it is. */
  ghost predicate PastOk(guard: Guard, actions: seq<Action>, s: State, p: Path) {
    var worked, late := ExchangeWorked(actions, p), SettledLate(guard, actions, p);
    var stranded, failed := Stranded(actions, p), CreationFailed(actions, p);
    if p !in s.paths then !worked && !late && !stranded && !failed
    else
      match s.paths[p]
      case Exchanging(_, _) => !worked && !late && !stranded && !failed
      case Refused(_) => !worked && !late && !stranded && !failed
      case Authorized(_, _) => worked && !late && !stranded && !failed
      case Creating(_, _) => worked && !late && !stranded && !failed
      case Recording(_, _) => worked && !late && !stranded && !failed
      case Abandoning(_, _) => worked && !late && failed && (p in s.secrets <==> stranded)
      case Done(_, Created) => worked && !late && !stranded && !failed
      case Done(_, _) => (p in s.secrets <==> worked && (late || stranded)) && (!worked || late || failed)
  }

  lemma ActionsGrow(guard: Guard, actions: seq<Action>, a: Action, p: Path)
    ensures ExchangeWorked(actions + [a], p) <==> ExchangeWorked(actions, p) || a == Exchange(p, true)
    ensures SettledLate(guard, actions + [a], p) <==>
              SettledLate(guard, actions, p) || (a == Settle(p) && FlowSettled(Run(guard, INITIAL, actions), p))
  {
    var all := actions + [a];
    assert forall i :: 0 <= i < |actions| ==> all[i] == actions[i] && all[..i] == actions[..i];
    assert all[|actions|] == a && all[..|actions|] == actions;
    if SettledLate(guard, actions, p) {
      var i :| 0 <= i < |actions| && actions[i] == Settle(p) && FlowSettled(Run(guard, INITIAL, actions[..i]), p);
      assert all[i] == Settle(p) && FlowSettled(Run(guard, INITIAL, all[..i]), p);
    }
  }

  lemma CreationsGrow(actions: seq<Action>, a: Action, p: Path)
    ensures Stranded(actions + [a], p) <==>
              Stranded(actions, p) || (a.Create? && a.p == p && (!a.providerFound || (!a.inserted && !a.deleted)))
    ensures CreationFailed(actions + [a], p) <==>
              CreationFailed(actions, p) || (a.Create? && a.p == p && (!a.providerFound || !a.inserted))
  {
    assert forall x :: x in actions + [a] <==> x in actions || x == a;
  }

  lemma ActorKeepsPast(guard: Guard, actions: seq<Action>, a: Action)
    requires Run(guard, INITIAL, actions).Some? && Enabled(Run(guard, INITIAL, actions).value, a) && !a.Start?
    requires var s := Run(guard, INITIAL, actions).value; Kept(s) && PastOk(guard, actions, s, a.p)
    ensures PastOk(guard, actions + [a], Step(Run(guard, INITIAL, actions).value, a), a.p)
  {
    var s := Run(guard, INITIAL, actions).value;
    ActionsGrow(guard, actions, a, a.p);
    CreationsGrow(actions, a, a.p);
    if a.p in s.paths {
      assert SecretOk(s, a.p);
    }
  }

  lemma OthersKeepPast(guard: Guard, actions: seq<Action>, a: Action, p: Path)
    requires Run(guard, INITIAL, actions).Some? && Enabled(Run(guard, INITIAL, actions).value, a)
    requires a.Start? || a.p != p
    requires PastOk(guard, actions, Run(guard, INITIAL, actions).value, p)
    ensures PastOk(guard, actions + [a], Step(Run(guard, INITIAL, actions).value, a), p)
  {
    StepMoves(Run(guard, INITIAL, actions).value, a);
    ActionsGrow(guard, actions, a, p);
    CreationsGrow(actions, a, p);
  }

  lemma {:induction false} RunKeepsPast(guard: Guard, actions: seq<Action>, p: Path)
    requires Run(guard, INITIAL, actions).Some?
    ensures PastOk(guard, actions, Run(guard, INITIAL, actions).value, p)
  {
    if actions != [] {
      var last := |actions| - 1;
      RunKeepsPast(guard, actions[..last], p);
      RunKept(guard, actions[..last]);
      assert actions[..last] + [actions[last]] == actions;
      if !actions[last].Start? && actions[last].p == p {
        ActorKeepsPast(guard, actions[..last], actions[last]);
      } else {
        OthersKeepPast(guard, actions[..last], actions[last], p);
      }
    }
  }

  /** Whatever states were presented: a finished run has left a bundle that no account refers to exactly
      when its exchange worked and its flow was settled before it looked, or its provider was missing, or
      neither the insertion of the account nor the deletion of the bundle worked. No account is ever
      without its bundle. */
  lemma BundleStrandedExactly(guard: Guard, actions: seq<Action>, p: Path)
    requires Run(guard, INITIAL, actions).Some?
    requires p in Run(guard, INITIAL, actions).value.paths && Run(guard, INITIAL, actions).value.paths[p].Done?
    ensures var s := Run(guard, INITIAL, actions).value;
            && (p in s.secrets && p !in s.accounts <==>
                  ExchangeWorked(actions, p) && (SettledLate(guard, actions, p) || Stranded(actions, p)))
            && s.accounts.Keys <= s.secrets
  {
    RunKept(guard, actions);
    RunKeepsPast(guard, actions, p);
    var s := Run(guard, INITIAL, actions).value;
    forall q | q in s.accounts ensures q in s.secrets { assert SecretOk(s, q); }
    assert SecretOk(s, p);
  }

  // ---- one account per flow, when completions are harmless ----

  /** A run that presented another flow's state meets a settled flow, and goes no further. */
  ghost predicate PathOk(s: State, p: Path)
    requires p in s.paths
  {
    var pc := s.paths[p];
    && pc.flow in s.flows
    && var f := s.flows[pc.flow];
    && (pc.Holds() ==> pc.state in s.consumer && s.consumer[pc.state] == p)
    && (pc.Holds() && pc.state != f.state ==> (pc.Exchanging? || pc.Authorized?) && f.status != Pending)
    && (pc.Creating? || pc.Recording? || pc.Abandoning? ==> f.status != Completed)
    && (pc == Done(pc.flow, Created) ==> f.status == Completed && f.account == Some(p))
  }

  ghost predicate FlowOk(s: State, f: FlowId)
    requires f in s.flows
  {
    var flow := s.flows[f];
    && flow.state in s.drawn
    && (flow.account.Some? <==> flow.status == Completed)
    && (flow.account.Some? ==>
          var p := flow.account.value;
          && p in s.paths && s.paths[p] == Done(f, Created)
          && flow.state in s.consumer && s.consumer[flow.state] == p)
  }

  /** A consumed state has been drawn and is gone. */
  ghost predicate StateOk(s: State, st: string) {
    && (st in s.consumer ==> st in s.drawn && st !in s.entries && s.consumer[st] in s.paths)
    && (st in s.entries ==> st in s.drawn)
  }

  ghost predicate FlowsApart(s: State, f: FlowId, g: FlowId)
    requires f in s.flows && g in s.flows
  {
    f != g ==> s.flows[f].state != s.flows[g].state
  }

  ghost predicate Inv(s: State) {
    && Kept(s)
    && (forall p :: p in s.paths ==> PathOk(s, p))
    && (forall f :: f in s.flows ==> FlowOk(s, f))
    && (forall f, g :: f in s.flows && g in s.flows ==> FlowsApart(s, f, g))
    && (forall st :: StateOk(s, st))
  }

  lemma ArrivalKeepsPath(s: State, a: Action)
    requires Inv(s) && Enabled(s, a) && Harmless(s, a) && a.Complete?
    ensures PathOk(Step(s, a), a.p)
  {
  }

  lemma WorkKeepsPath(s: State, a: Action)
    requires Inv(s) && Enabled(s, a) && (a.Exchange? || a.Create?)
    ensures PathOk(Step(s, a), a.p)
  {
    assert PathOk(s, a.p);
  }

  lemma SettleKeepsPath(s: State, a: Action)
    requires Inv(s) && Enabled(s, a) && (a.Settle? || a.Finish?)
    ensures PathOk(Step(s, a), a.p)
  {
    assert PathOk(s, a.p);
    assert FlowOk(s, s.paths[a.p].flow);
  }

  lemma ActorKeepsPath(s: State, a: Action)
    requires Inv(s) && Enabled(s, a) && !a.Start? && !a.Complete?
    ensures a.p in Step(s, a).paths && PathOk(Step(s, a), a.p)
  {
    StepMoves(s, a);
    if a.Exchange? || a.Create? { WorkKeepsPath(s, a); } else { SettleKeepsPath(s, a); }
  }

  lemma TargetExists(s: State, a: Action)
    requires Inv(s) && Enabled(s, a) && !a.Start?
    ensures Target(s, a) in s.flows
  {
    if a.p in s.paths {
      assert PathOk(s, a.p);
    }
  }

  /** The run that makes a flow completed is the consumer of its state, so no other run is past the
      pending check of that flow. */
  lemma OthersKeepPath(s: State, s': State, a: Action, p: Path)
    requires Inv(s) && Enabled(s, a) && Moves(s, s', a) && p in s.paths && (a.Start? || p != a.p)
    ensures PathOk(s', p)
  {
    assert PathOk(s, p);
    assert FlowOk(s, s.paths[p].flow);
    if !a.Start? {
      TargetExists(s, a);
      if a.p in s.paths {
        assert PathOk(s, a.p);
      }
      if a.Complete? {
        assert StateOk(s, a.state);
      }
    }
  }

  lemma StepKeepsFlow(s: State, s': State, a: Action, f: FlowId)
    requires Inv(s) && Enabled(s, a) && Moves(s, s', a) && f in s'.flows
    ensures FlowOk(s', f)
  {
    if f in s.flows {
      assert FlowOk(s, f);
      if s.flows[f].account.Some? {
        assert PathOk(s, s.flows[f].account.value);
      }
    }
    if !a.Start? {
      TargetExists(s, a);
      if a.p in s.paths {
        assert PathOk(s, a.p);
      }
      if a.Complete? {
        assert StateOk(s, a.state);
      }
    }
  }

  lemma StepKeepsState(s: State, s': State, a: Action, st: string)
    requires Inv(s) && Enabled(s, a) && Moves(s, s', a)
    ensures StateOk(s', st)
  {
    assert StateOk(s, st);
  }

  lemma StepKeepsApart(s: State, s': State, a: Action, f: FlowId, g: FlowId)
    requires Inv(s) && Enabled(s, a) && Moves(s, s', a) && f in s'.flows && g in s'.flows
    ensures FlowsApart(s', f, g)
  {
    if !a.Start? {
      TargetExists(s, a);
    }
    if f in s.flows {
      assert FlowOk(s, f);
    }
    if g in s.flows {
      assert FlowOk(s, g);
    }
    if f in s.flows && g in s.flows {
      assert FlowsApart(s, f, g);
    }
  }

  lemma StepKeepsInv(s: State, a: Action)
    requires Inv(s) && Enabled(s, a) && Harmless(s, a)
    ensures Inv(Step(s, a))
  {
    var s' := Step(s, a);
    if !a.Start? {
      TargetExists(s, a);
    }
    StepKeepsSecrets(s, a);
    StepMoves(s, a);
    forall p | p in s'.paths ensures PathOk(s', p) {
      if a.Complete? && p == a.p {
        ArrivalKeepsPath(s, a);
      } else if !a.Start? && p == a.p {
        ActorKeepsPath(s, a);
      } else {
        OthersKeepPath(s, s', a, p);
      }
    }
    forall f | f in s'.flows ensures FlowOk(s', f) { StepKeepsFlow(s, s', a, f); }
    forall f, g | f in s'.flows && g in s'.flows ensures FlowsApart(s', f, g) { StepKeepsApart(s, s', a, f, g); }
    forall st ensures StateOk(s', st) { StepKeepsState(s, s', a, st); }
  }

  lemma {:induction false} RunKeepsInv(actions: seq<Action>)
    requires Run(HarmlessOnly, INITIAL, actions).Some?
    ensures Inv(Run(HarmlessOnly, INITIAL, actions).value)
  {
    if actions != [] {
      var last := |actions| - 1;
      RunKeepsInv(actions[..last]);
      StepKeepsInv(Run(HarmlessOnly, INITIAL, actions[..last]).value, actions[last]);
    }
  }

  /** At most one account is created for a flow, by the run that consumed the flow's state. */
  lemma OneAccountPerFlow(actions: seq<Action>, p: Path, q: Path)
    requires Run(HarmlessOnly, INITIAL, actions).Some?
    requires var s := Run(HarmlessOnly, INITIAL, actions).value;
             p in s.accounts && q in s.accounts && s.accounts[p] == s.accounts[q]
    ensures var s := Run(HarmlessOnly, INITIAL, actions).value;
            && p == q && s.accounts[p] in s.flows
            && s.flows[s.accounts[p]].state in s.consumer && s.consumer[s.flows[s.accounts[p]].state] == p
  {
    RunKeepsInv(actions);
    var s := Run(HarmlessOnly, INITIAL, actions).value;
    assert SecretOk(s, p) && SecretOk(s, q);
    assert PathOk(s, p) && PathOk(s, q);
    assert FlowOk(s, s.accounts[p]);
  }

  /** The account id is set exactly when the flow is completed, and names that flow's account. */
  lemma AccountIffCompleted(actions: seq<Action>, f: FlowId)
    requires Run(HarmlessOnly, INITIAL, actions).Some? && f in Run(HarmlessOnly, INITIAL, actions).value.flows
    ensures var s := Run(HarmlessOnly, INITIAL, actions).value;
            && (s.flows[f].account.Some? <==> s.flows[f].status == Completed)
            && (s.flows[f].account.Some? ==>
                  s.flows[f].account.value in s.accounts && s.accounts[s.flows[f].account.value] == f)
  {
    RunKeepsInv(actions);
    var s := Run(HarmlessOnly, INITIAL, actions).value;
    assert FlowOk(s, f);
    if s.flows[f].account.Some? {
      assert SecretOk(s, s.flows[f].account.value);
    }
  }

  /** A completed flow never changes again; a failed one can only become completed; and only the run
      that consumed the flow's state makes it completed. */
  lemma StatusOnlyMovesForward(actions: seq<Action>, a: Action, f: FlowId)
    requires Run(HarmlessOnly, INITIAL, actions).Some? && f in Run(HarmlessOnly, INITIAL, actions).value.flows
    requires Run(HarmlessOnly, INITIAL, actions + [a]).Some?
    ensures var s := Run(HarmlessOnly, INITIAL, actions).value;
            var s' := Run(HarmlessOnly, INITIAL, actions + [a]).value;
            && f in s'.flows && s'.flows[f].state == s.flows[f].state
            && (s.flows[f].status == Completed ==> s'.flows[f] == s.flows[f])
            && (s.flows[f].status == Failed ==> s'.flows[f].status != Pending)
            && (s'.flows[f].status == Completed && s.flows[f].status != Completed ==>
                  a.Finish? && s.flows[f].state in s.consumer && s.consumer[s.flows[f].state] == a.p)
  {
    assert (actions + [a])[..|actions|] == actions;
    RunKeepsInv(actions);
    StepMovesForward(Run(HarmlessOnly, INITIAL, actions).value, a, f);
  }

  lemma StepMovesForward(s: State, a: Action, f: FlowId)
    requires Inv(s) && Enabled(s, a) && f in s.flows
    ensures var s' := Step(s, a);
            && f in s'.flows && s'.flows[f].state == s.flows[f].state
            && (s.flows[f].status == Completed ==> s'.flows[f] == s.flows[f])
            && (s.flows[f].status == Failed ==> s'.flows[f].status != Pending)
            && (s'.flows[f].status == Completed && s.flows[f].status != Completed ==>
                  a.Finish? && s.flows[f].state in s.consumer && s.consumer[s.flows[f].state] == a.p)
  {
    if !a.Start? {
      TargetExists(s, a);
      if a.p in s.paths {
        assert PathOk(s, a.p);
      }
    }
    StepMoves(s, a);
  }

  // ---- logins that are lost although every completion is harmless ----

  /** Run q has been refused, and finds flow f pending. */
  ghost predicate Refuses(r: Option<State>, q: Path, f: FlowId) {
    && r.Some? && q in r.value.paths && r.value.paths[q] == Pc.Refused(f)
    && f in r.value.flows && r.value.flows[f].status == Pending
  }

  /** Some refused run has settled the flow while it was pending. */
  ghost predicate RefusedBefore(actions: seq<Action>, f: FlowId) {
    exists j, q ::
      0 <= j < |actions| && actions[j] == Settle(q) && Refuses(Run(HarmlessOnly, INITIAL, actions[..j]), q, f)
  }

  lemma RefusalsGrow(actions: seq<Action>, a: Action, f: FlowId)
    ensures RefusedBefore(actions + [a], f) <==>
              RefusedBefore(actions, f) || (a.Settle? && Refuses(Run(HarmlessOnly, INITIAL, actions), a.p, f))
  {
    var all := actions + [a];
    assert forall i :: 0 <= i < |actions| ==> all[i] == actions[i] && all[..i] == actions[..i];
    assert all[|actions|] == a && all[..|actions|] == actions;
    if RefusedBefore(actions, f) {
      var j, q :|
        0 <= j < |actions| && actions[j] == Settle(q) && Refuses(Run(HarmlessOnly, INITIAL, actions[..j]), q, f);
      assert all[j] == Settle(q) && Refuses(Run(HarmlessOnly, INITIAL, all[..j]), q, f);
    }
    if RefusedBefore(all, f) {
      var j, q :| 0 <= j < |all| && all[j] == Settle(q) && Refuses(Run(HarmlessOnly, INITIAL, all[..j]), q, f);
      assert j < |actions| ==> actions[j] == Settle(q) && Refuses(Run(HarmlessOnly, INITIAL, actions[..j]), q, f);
    }
  }

  /** A flow stops being pending when a refused run settles it, or when the consumer of its state is done. */
  ghost predicate FlowPast(actions: seq<Action>, s: State, f: FlowId)
    requires f in s.flows
  {
    var st := s.flows[f].state;
    && (RefusedBefore(actions, f) ==> s.flows[f].status != Pending)
    && (s.flows[f].status != Pending ==>
          RefusedBefore(actions, f)
          || (st in s.consumer && s.consumer[st] in s.paths && s.paths[s.consumer[st]].Done?))
  }

  lemma StepKeepsFlowPast(actions: seq<Action>, a: Action, f: FlowId)
    requires Run(HarmlessOnly, INITIAL, actions).Some? && Enabled(Run(HarmlessOnly, INITIAL, actions).value, a)
    requires var s := Run(HarmlessOnly, INITIAL, actions).value;
             Inv(s) && f in Step(s, a).flows && (f in s.flows ==> FlowPast(actions, s, f))
             && (f !in s.flows ==> !RefusedBefore(actions, f))
    ensures FlowPast(actions + [a], Step(Run(HarmlessOnly, INITIAL, actions).value, a), f)
  {
    var s := Run(HarmlessOnly, INITIAL, actions).value;
    StepMoves(s, a);
    RefusalsGrow(actions, a, f);
    if !a.Start? {
      TargetExists(s, a);
      if a.p in s.paths {
        assert PathOk(s, a.p);
      }
      if a.Complete? {
        assert StateOk(s, a.state);
      }
    }
  }

  lemma {:induction false} RunKeepsFlowPast(actions: seq<Action>, f: FlowId)
    requires Run(HarmlessOnly, INITIAL, actions).Some?
    ensures var s := Run(HarmlessOnly, INITIAL, actions).value;
            if f in s.flows then FlowPast(actions, s, f) else !RefusedBefore(actions, f)
    decreases |actions|
  {
    if actions != [] {
      var last := |actions| - 1;
      RunKeepsFlowPast(actions[..last], f);
      RunKeepsInv(actions[..last]);
      assert actions[..last] + [actions[last]] == actions;
      var s := Run(HarmlessOnly, INITIAL, actions[..last]).value;
      if f in Step(s, actions[last]).flows {
        StepKeepsFlowPast(actions[..last], actions[last], f);
      } else {
        NoFlowNoRefusal(actions[..last], actions[last], f);
      }
    }
  }

  lemma NoFlowNoRefusal(actions: seq<Action>, a: Action, f: FlowId)
    requires Run(HarmlessOnly, INITIAL, actions).Some? && Enabled(Run(HarmlessOnly, INITIAL, actions).value, a)
    requires var s := Run(HarmlessOnly, INITIAL, actions).value;
             f !in Step(s, a).flows && (f !in s.flows ==> !RefusedBefore(actions, f))
    ensures !RefusedBefore(actions + [a], f)
  {
    StepMoves(Run(HarmlessOnly, INITIAL, actions).value, a);
    RefusalsGrow(actions, a, f);
  }

  /** Flows keep their state, runs their flow, and a consumed state its consumer. */
  ghost predicate Later(s: State, s': State) {
    && (forall f :: f in s.flows ==> f in s'.flows && s'.flows[f].state == s.flows[f].state)
    && (forall p :: p in s.paths ==> p in s'.paths && s'.paths[p].flow == s.paths[p].flow)
    && (forall st :: st in s.consumer ==> st in s'.consumer && s'.consumer[st] == s.consumer[st])
  }

  lemma StepIsLater(s: State, a: Action)
    requires Inv(s) && Enabled(s, a)
    ensures Later(s, Step(s, a))
  {
    StepMoves(s, a);
    if a.Complete? {
      assert StateOk(s, a.state);
    }
    if !a.Start? {
      TargetExists(s, a);
    }
  }

  lemma {:induction false} RunIsLater(actions: seq<Action>, i: nat)
    requires Run(HarmlessOnly, INITIAL, actions).Some? && i <= |actions|
    ensures Run(HarmlessOnly, INITIAL, actions[..i]).Some?
    ensures Later(Run(HarmlessOnly, INITIAL, actions[..i]).value, Run(HarmlessOnly, INITIAL, actions).value)
    decreases |actions|
  {
    if i == |actions| {
      assert actions[..i] == actions;
    } else {
      var last := |actions| - 1;
      assert actions[..last][..i] == actions[..i];
      RunIsLater(actions[..last], i);
      RunKeepsInv(actions[..last]);
      StepIsLater(Run(HarmlessOnly, INITIAL, actions[..last]).value, actions[last]);
    }
  }

  /** Run p looked at flow f after a refused run had settled it. */
  ghost predicate Preempted(actions: seq<Action>, p: Path, f: FlowId) {
    exists i :: 0 <= i < |actions| && actions[i] == Settle(p) && RefusedBefore(actions[..i], f)
  }

  /** The run that consumed its flow's state finds the flow settled exactly after such a refusal. */
  lemma FoundSettledExactly(actions: seq<Action>, p: Path, i: nat)
    requires Run(HarmlessOnly, INITIAL, actions).Some? && i < |actions| && actions[i] == Settle(p)
    requires var s := Run(HarmlessOnly, INITIAL, actions).value;
             && p in s.paths && s.paths[p].flow in s.flows
             && var st := s.flows[s.paths[p].flow].state; st in s.consumer && s.consumer[st] == p
    ensures FlowSettled(Run(HarmlessOnly, INITIAL, actions[..i]), p) <==>
            RefusedBefore(actions[..i], Run(HarmlessOnly, INITIAL, actions).value.paths[p].flow)
  {
    var f := Run(HarmlessOnly, INITIAL, actions).value.paths[p].flow;
    RunIsLater(actions, i);
    RunIsLater(actions, i + 1);
    assert actions[..i + 1][..i] == actions[..i];
    var s := Run(HarmlessOnly, INITIAL, actions[..i]).value;
    assert Enabled(s, Settle(p));
    assert s.paths[p].flow == f;
    RunKeepsFlowPast(actions[..i], f);
  }

  /** With harmless completions only: a finished run that consumed its flow's state and whose exchange
      worked has no account exactly when another run of the flow, refused, settled it first, or the
      provider was missing, or the insertion failed. */
  lemma LoginLostExactly(actions: seq<Action>, p: Path)
    requires Run(HarmlessOnly, INITIAL, actions).Some? && ExchangeWorked(actions, p)
    requires var s := Run(HarmlessOnly, INITIAL, actions).value;
             && p in s.paths && s.paths[p].Done? && s.paths[p].flow in s.flows
             && var st := s.flows[s.paths[p].flow].state; st in s.consumer && s.consumer[st] == p
    ensures var s := Run(HarmlessOnly, INITIAL, actions).value;
            p !in s.accounts <==> Preempted(actions, p, s.paths[p].flow) || CreationFailed(actions, p)
  {
    RunKeepsPast(HarmlessOnly, actions, p);
    RunKept(HarmlessOnly, actions);
    var s := Run(HarmlessOnly, INITIAL, actions).value;
    assert SecretOk(s, p);
    forall i: nat | i < |actions| && actions[i] == Settle(p)
      ensures FlowSettled(Run(HarmlessOnly, INITIAL, actions[..i]), p) <==> RefusedBefore(actions[..i], s.paths[p].flow)
    {
      FoundSettledExactly(actions, p, i);
    }
  }

  // ---- runs go forward ----

  /** How many steps a run has left at most. */
  function Left(pc: Pc): nat {
    match pc
    case Exchanging(_, _) => 4
    case Refused(_) => 1
    case Authorized(_, _) => 3
    case Creating(_, _) => 2
    case Recording(_, _) => 1
    case Abandoning(_, _) => 1
    case Done(_, _) => 0
  }

  /** Every step of a run brings it nearer to its end, and until then one is possible. */
  lemma RunsGoForward(s: State, a: Action)
    requires Enabled(s, a) && !a.Start? && !a.Complete?
    ensures a.p in Step(s, a).paths && Left(Step(s, a).paths[a.p]) < Left(s.paths[a.p])
  {
    if a.Exchange? || a.Create? { WorkGoesForward(s, a); } else { SettlingGoesForward(s, a); }
  }

  lemma WorkGoesForward(s: State, a: Action)
    requires Enabled(s, a) && (a.Exchange? || a.Create?)
    ensures a.p in Step(s, a).paths && Left(Step(s, a).paths[a.p]) < Left(s.paths[a.p])
  {
  }

  lemma SettlingGoesForward(s: State, a: Action)
    requires Enabled(s, a) && (a.Settle? || a.Finish?)
    ensures a.p in Step(s, a).paths && Left(Step(s, a).paths[a.p]) < Left(s.paths[a.p])
  {
  }

  lemma RunsNeverStick(s: State, p: Path)
    requires p in s.paths && s.paths[p].flow in s.flows && !s.paths[p].Done?
    ensures exists a: Action :: !a.Start? && !a.Complete? && a.p == p && Enabled(s, a)
  {
    match s.paths[p]
    case Exchanging(_, _) => assert Enabled(s, Exchange(p, true));
    case Refused(_) => assert Enabled(s, Settle(p));
    case Authorized(_, _) => assert Enabled(s, Settle(p));
    case Creating(_, _) => assert Enabled(s, Create(p, true, true, true));
    case Recording(_, _) => assert Enabled(s, Finish(p));
    case Abandoning(_, _) => assert Enabled(s, Finish(p));
  }

  // ---- every finished run has settled its flow ----

  /** A run is at its flow, which is not pending any more when the run is done. */
  ghost predicate SettledWhenDone(s: State, p: Path)
    requires p in s.paths
  {
    && s.paths[p].flow in s.flows
    && (s.paths[p].Done? ==> s.flows[s.paths[p].flow].status != Pending)
  }

  lemma SettlingSettles(s: State, a: Action)
    requires Enabled(s, a) && (a.Settle? || a.Finish?) && SettledWhenDone(s, a.p)
    ensures SettledWhenDone(Step(s, a), a.p)
  {
  }

  lemma WorkSettles(s: State, a: Action)
    requires Enabled(s, a) && (a.Exchange? || a.Create?) && SettledWhenDone(s, a.p)
    ensures SettledWhenDone(Step(s, a), a.p)
  {
  }

  lemma ActorSettles(s: State, a: Action)
    requires Enabled(s, a) && !a.Start? && (a.p in s.paths ==> SettledWhenDone(s, a.p))
    ensures a.p in Step(s, a).paths && SettledWhenDone(Step(s, a), a.p)
  {
    if a.Settle? || a.Finish? {
      SettlingSettles(s, a);
    } else if a.Exchange? || a.Create? {
      WorkSettles(s, a);
    }
  }

  lemma OthersStaySettled(s: State, a: Action, p: Path)
    requires Enabled(s, a) && p in s.paths && SettledWhenDone(s, p) && (a.Start? || a.p != p)
    requires !a.Start? && a.p in s.paths ==> SettledWhenDone(s, a.p)
    ensures p in Step(s, a).paths && SettledWhenDone(Step(s, a), p)
  {
    StepMoves(s, a);
  }

  /** Whatever states were presented: no run ends and leaves its flow pending. */
  lemma {:induction false} FinishedRunsSettle(guard: Guard, actions: seq<Action>)
    requires Run(guard, INITIAL, actions).Some?
    ensures var s := Run(guard, INITIAL, actions).value; forall p :: p in s.paths ==> SettledWhenDone(s, p)
  {
    if actions != [] {
      var last := |actions| - 1;
      FinishedRunsSettle(guard, actions[..last]);
      var s := Run(guard, INITIAL, actions[..last]).value;
      StepMoves(s, actions[last]);
      forall p | p in Step(s, actions[last]).paths ensures SettledWhenDone(Step(s, actions[last]), p) {
        if !actions[last].Start? && p == actions[last].p {
          ActorSettles(s, actions[last]);
        } else {
          OthersStaySettled(s, actions[last], p);
        }
      }
    }
  }

  /** What a run whose exchange failed knows of its flow: until it looks, the flow is settled or its own to
      settle; afterwards it was settled already, or has failed for good. */
  ghost predicate FailureShows(actions: seq<Action>, s: State, p: Path) {
    Exchange(p, false) in actions ==>
      && p in s.paths && s.paths[p].flow in s.flows && (s.paths[p].Refused? || s.paths[p].Done?)
      && var flow := s.flows[s.paths[p].flow];
         && (s.paths[p].Refused? ==> flow.status != Pending || Consumed(s, flow.state, p))
         && (s.paths[p].Done? ==>
               || SettledLate(HarmlessOnly, actions, p)
               || (flow.status == Failed && Consumed(s, flow.state, p)))
  }

  ghost predicate Consumed(s: State, st: string, p: Path) {
    st in s.consumer && s.consumer[st] == p
  }

  lemma ActorShowsFailure(actions: seq<Action>, a: Action)
    requires Run(HarmlessOnly, INITIAL, actions).Some? && Enabled(Run(HarmlessOnly, INITIAL, actions).value, a)
    requires !a.Start?
    requires var s := Run(HarmlessOnly, INITIAL, actions).value; Inv(s) && FailureShows(actions, s, a.p)
    ensures FailureShows(actions + [a], Step(Run(HarmlessOnly, INITIAL, actions).value, a), a.p)
  {
    var s := Run(HarmlessOnly, INITIAL, actions).value;
    ActionsGrow(HarmlessOnly, actions, a, a.p);
    TargetExists(s, a);
    if a.p in s.paths {
      assert PathOk(s, a.p);
    }
    assert Exchange(a.p, false) in actions + [a] <==> Exchange(a.p, false) in actions || a == Exchange(a.p, false);
  }

  lemma OthersShowFailure(actions: seq<Action>, a: Action, p: Path)
    requires Run(HarmlessOnly, INITIAL, actions).Some? && Enabled(Run(HarmlessOnly, INITIAL, actions).value, a)
    requires a.Start? || a.p != p
    requires var s := Run(HarmlessOnly, INITIAL, actions).value; Inv(s) && FailureShows(actions, s, p)
    ensures FailureShows(actions + [a], Step(Run(HarmlessOnly, INITIAL, actions).value, a), p)
  {
    var s := Run(HarmlessOnly, INITIAL, actions).value;
    StepMoves(s, a);
    ActionsGrow(HarmlessOnly, actions, a, p);
    StepIsLater(s, a);
    if Exchange(p, false) in actions {
      StepMovesForward(s, a, s.paths[p].flow);
    }
  }

  lemma {:induction false} RunShowsFailure(actions: seq<Action>, p: Path)
    requires Run(HarmlessOnly, INITIAL, actions).Some?
    ensures FailureShows(actions, Run(HarmlessOnly, INITIAL, actions).value, p)
  {
    if actions != [] {
      var last := |actions| - 1;
      RunShowsFailure(actions[..last], p);
      RunKeepsInv(actions[..last]);
      assert actions[..last] + [actions[last]] == actions;
      if !actions[last].Start? && actions[last].p == p {
        ActorShowsFailure(actions[..last], actions[last]);
      } else {
        OthersShowFailure(actions[..last], actions[last], p);
      }
    }
  }

  /** With harmless completions only: when the exchange of a finished run failed, its flow has failed and
      names no account, unless the flow was settled when the run looked. */
  lemma FailedExchangeFailsFlow(actions: seq<Action>, p: Path)
    requires Run(HarmlessOnly, INITIAL, actions).Some? && Exchange(p, false) in actions
    requires var s := Run(HarmlessOnly, INITIAL, actions).value; p in s.paths && s.paths[p].Done?
    ensures var s := Run(HarmlessOnly, INITIAL, actions).value;
            && s.paths[p].flow in s.flows
            && (!SettledLate(HarmlessOnly, actions, p) ==>
                  s.flows[s.paths[p].flow].status == Failed && s.flows[s.paths[p].flow].account.None?)
  {
    RunShowsFailure(actions, p);
    RunKeepsInv(actions);
    var s := Run(HarmlessOnly, INITIAL, actions).value;
    assert FlowOk(s, s.paths[p].flow);
  }

  // ---- arriving, and a login that works ----

  /** An unusable callback leaves all states alone; a usable one takes the state it presents away, and goes on
      exactly when that was live. */
  lemma ArrivalTold(s: State, a: Action)
    requires Enabled(s, a) && a.Complete?
    ensures var s' := Step(s, a);
            && a.p in s'.paths && (s'.paths[a.p].Exchanging? <==> a.usable && Live(s, a.now, a.state))
            && (!s'.paths[a.p].Exchanging? ==> s'.paths[a.p].Refused?)
            && s'.entries == (if a.usable then s.entries - {a.state} else s.entries) && s'.flows == s.flows
  {
  }

  /** The state of a new flow lives for ten minutes. */
  lemma StartedIsLive(s: State, f: FlowId, now: int, later: int, state: string, e: StateStore.Entry)
    requires Enabled(s, Start(f, now, state, e)) && now <= later <= now + 10 * 60
    ensures var s' := Step(s, Start(f, now, state, e));
            f in s'.flows && s'.flows[f] == Flow(state, Pending, None) && Live(s', later, state)
  {
  }

  lemma LoginArrives(s: State, f: FlowId, now: int, later: int, state: string, e: StateStore.Entry, p: Path)
    returns (actions: seq<Action>)
    requires Inv(s) && Enabled(s, Start(f, now, state, e)) && now <= later <= now + 10 * 60 && p !in s.paths
    ensures Run(HarmlessOnly, s, actions).Some?
    ensures var t := Run(HarmlessOnly, s, actions).value;
            && f in t.flows && t.flows[f] == Flow(state, Pending, None)
            && p in t.paths && t.paths[p].Exchanging? && t.paths[p].flow == f
  {
    var first, second := Start(f, now, state, e), Complete(p, f, later, state, true, Manual);
    StartedIsLive(s, f, now, later, state, e);
    ArrivalTold(Step(s, first), second);
    assert Run(HarmlessOnly, s, []) == Some(s);
    RunOne(s, [], first);
    assert [] + [first] == [first] && [first, second][..1] == [first];
    actions := [first, second];
    assert Run(HarmlessOnly, s, actions) == Some(Step(Step(s, first), second));
  }

  /** From every reachable state: a login that begins now, and is completed within ten minutes with its own state,
      can complete its flow with an account. */
  lemma LoginCompletes(s: State, f: FlowId, now: int, later: int, state: string, e: StateStore.Entry, p: Path)
    returns (actions: seq<Action>)
    requires Inv(s) && Enabled(s, Start(f, now, state, e)) && now <= later <= now + 10 * 60 && p !in s.paths
    ensures Run(HarmlessOnly, s, actions).Some?
    ensures var t := Run(HarmlessOnly, s, actions).value;
            && f in t.flows && t.flows[f] == Flow(state, Completed, Some(p))
            && p in t.accounts && t.accounts[p] == f && p in t.secrets
  {
    actions := LoginArrives(s, f, now, later, state, e, p);
    RunOne(s, actions, Exchange(p, true));
    actions := actions + [Exchange(p, true)];
    RunOne(s, actions, Settle(p));
    actions := actions + [Settle(p)];
    RunOne(s, actions, Create(p, true, true, true));
    actions := actions + [Create(p, true, true, true)];
    RunOne(s, actions, Finish(p));
    actions := actions + [Finish(p)];
  }

  lemma RunOne(s: State, actions: seq<Action>, a: Action)
    requires Run(HarmlessOnly, s, actions).Some? && Enabled(Run(HarmlessOnly, s, actions).value, a) && !a.Complete?
    ensures Run(HarmlessOnly, s, actions + [a]) == Some(Step(Run(HarmlessOnly, s, actions).value, a))
  {
    assert (actions + [a])[..|actions|] == actions;
  }

  /** It does happen: while a login exchanges its code, a second completion with the same state is
      refused and fails the flow; the login then works upstream, and ends without an error, without an
      account, and with a bundle in the vault. */
  lemma SecondCompletionLosesLogin(s: State, now: int, p: Path, q: Path) returns (actions: seq<Action>)
    requires Inv(s) && p in s.paths && s.paths[p].Exchanging? && q !in s.paths && s.clock <= now
    requires s.paths[p].flow in s.flows && s.flows[s.paths[p].flow].status == Pending
    ensures var f := s.paths[p].flow;
            && Run(HarmlessOnly, s, actions).Some? && actions != []
            && actions[0] == Complete(q, f, now, s.flows[f].state, true, Manual)
            && var end := Run(HarmlessOnly, s, actions).value;
               && p in end.paths && end.paths[p] == Done(f, Superseded) && p in end.secrets && p !in end.accounts
               && f in end.flows && end.flows[f].status == Failed
  {
    var f := s.paths[p].flow;
    assert PathOk(s, p) && StateOk(s, s.flows[f].state);
    assert SecretOk(s, p);
    var first := Complete(q, f, now, s.flows[f].state, true, Manual);
    assert [first][..0] == [];
    assert Run(HarmlessOnly, s, []) == Some(s);
    assert Run(HarmlessOnly, s, [first]) == Some(Step(s, first));
    RunOne(s, [first], Settle(q));
    actions := [first] + [Settle(q)];
    RunOne(s, actions, Exchange(p, true));
    actions := actions + [Exchange(p, true)];
    RunOne(s, actions, Settle(p));
    actions := actions + [Settle(p)];
  }
}
