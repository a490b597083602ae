/** What happens when the callback listener of one login is given the state of another. */
module ForeignStates {
  import opened Prelude
  import opened FlowCompletion

  // ---- every reachable state ----

  ghost predicate PathBase(s: State, p: Path)
    requires p in s.paths
  {
    && s.paths[p].flow in s.flows
    && (s.paths[p] == Done(s.paths[p].flow, Created) ==> s.flows[s.paths[p].flow].status != Pending)
  }

  ghost predicate FlowBase(s: State, f: FlowId)
    requires f in s.flows
  {
    && s.flows[f].state in s.drawn
    && (s.flows[f].account.Some? ==>
          var p := s.flows[f].account.value; p in s.paths && s.paths[p] == Done(f, Created))
  }

  ghost predicate Base(s: State) {
    && Kept(s)
    && (forall p :: p in s.paths ==> PathBase(s, p))
    && (forall f :: f in s.flows ==> FlowBase(s, f))
  }

  lemma OthersKeepBase(s: State, s': State, a: Action, p: Path)
    requires Base(s) && Enabled(s, a) && Moves(s, s', a) && p in s.paths && (a.Start? || p != a.p)
    ensures PathBase(s', p)
  {
    assert PathBase(s, p);
    if !a.Start? && a.p in s.paths {
      assert PathBase(s, a.p);
    }
  }

  lemma ActorKeepsBase(s: State, a: Action)
    requires Base(s) && Enabled(s, a) && !a.Start?
    ensures a.p in Step(s, a).paths && PathBase(Step(s, a), a.p)
  {
    if a.p in s.paths {
      assert PathBase(s, a.p);
    }
  }

  lemma FlowKeepsBase(s: State, s': State, a: Action, f: FlowId)
    requires Base(s) && Enabled(s, a) && Moves(s, s', a) && f in s'.flows
    ensures FlowBase(s', f)
  {
    if f in s.flows {
      assert FlowBase(s, f);
    }
    if !a.Start? && a.p in s.paths {
      assert PathBase(s, a.p);
    }
  }

  lemma StepKeepsBase(s: State, a: Action)
    requires Base(s) && Enabled(s, a)
    ensures Base(Step(s, a))
  {
    var s' := Step(s, a);
    StepKeepsSecrets(s, a);
    StepMoves(s, a);
    forall p | p in s'.paths ensures PathBase(s', p) {
      if !a.Start? && p == a.p { ActorKeepsBase(s, a); } else { OthersKeepBase(s, s', a, p); }
    }
    forall f | f in s'.flows ensures FlowBase(s', f) { FlowKeepsBase(s, s', a, f); }
  }

  lemma {:induction false} RunKeepsBase(guard: Guard, s: State, actions: seq<Action>)
    requires Base(s) && Run(guard, s, actions).Some?
    ensures Base(Run(guard, s, actions).value)
    decreases |actions|
  {
    if actions != [] {
      var last := |actions| - 1;
      RunKeepsBase(guard, s, actions[..last]);
      StepKeepsBase(Run(guard, s, actions[..last]).value, actions[last]);
    }
  }

  /** Every reachable state, whatever states were presented. */
  lemma ReachableBase(guard: Guard, actions: seq<Action>)
    requires Run(guard, INITIAL, actions).Some?
    ensures Base(Run(guard, INITIAL, actions).value)
  {
    RunKeepsBase(guard, INITIAL, actions);
  }

  /** A state that was drawn and is dead stays dead. */
  lemma DeadStays(s: State, a: Action, st: string)
    requires Enabled(s, a) && st in s.drawn && !Live(s, s.clock, st)
    ensures !Live(Step(s, a), Step(s, a).clock, st)
  {
  }

  // ---- without a risky completion ----

  /** A run that has, or may still get, an account of its flow. */
  ghost predicate Counted(s: State, p: Path)
    requires p in s.paths
  {
    var f := s.paths[p].flow;
    match s.paths[p]
    case Exchanging(_, _) => f in s.flows && s.flows[f].status == Pending
    case Authorized(_, _) => f in s.flows && s.flows[f].status == Pending
    case Creating(_, _) => true
    case Recording(_, _) => true
    case Done(_, v) => v == Created
    case _ => false
  }

  ghost predicate Sole(s: State, p: Path, q: Path)
    requires p in s.paths && q in s.paths
  {
    s.paths[p].flow == s.paths[q].flow && Counted(s, p) && Counted(s, q) ==> p == q
  }

  /** Once a run counts, its flow's own state lets nobody else in. */
  ghost predicate OwnDead(s: State, p: Path)
    requires p in s.paths
  {
    var f := s.paths[p].flow;
    Counted(s, p) && f in s.flows && s.flows[f].status == Pending ==> !Live(s, s.clock, s.flows[f].state)
  }

  ghost predicate Single(s: State) {
    && Base(s)
    && (forall p, q :: p in s.paths && q in s.paths ==> Sole(s, p, q))
    && (forall p :: p in s.paths ==> OwnDead(s, p))
  }

  lemma OthersCountedBefore(s: State, s': State, a: Action, p: Path)
    requires Base(s) && Enabled(s, a) && Moves(s, s', a) && p in s.paths && (a.Start? || p != a.p)
    ensures p in s'.paths && s.paths[p] == s'.paths[p] && (Counted(s', p) ==> Counted(s, p))
  {
    assert PathBase(s, p);
    if !a.Start? && a.p in s.paths {
      assert PathBase(s, a.p);
    }
  }

  lemma ActorCountedBefore(s: State, a: Action)
    requires Base(s) && Enabled(s, a) && !a.Start? && a.p in s.paths
    ensures a.p in Step(s, a).paths && s.paths[a.p].flow == Step(s, a).paths[a.p].flow
    ensures Counted(Step(s, a), a.p) ==> Counted(s, a.p)
  {
    assert PathBase(s, a.p);
  }

  /** Runs that count after a step, but for one that has just arrived, counted before it. */
  lemma CountedBefore(s: State, a: Action, p: Path)
    requires Base(s) && Enabled(s, a) && p in Step(s, a).paths && Counted(Step(s, a), p) && p in s.paths
    ensures Counted(s, p) && s.paths[p].flow == Step(s, a).paths[p].flow
  {
    StepMoves(s, a);
    if !a.Start? && p == a.p {
      ActorCountedBefore(s, a);
    } else {
      OthersCountedBefore(s, Step(s, a), a, p);
    }
  }

  /** A completion whose run counts finds nobody else counting. */
  lemma ArrivalAlone(s: State, a: Action, p: Path)
    requires Single(s) && Enabled(s, a) && !Risky(s, a) && a.Complete? && Counted(Step(s, a), a.p)
    requires p in s.paths && s.paths[p].flow == a.flow
    ensures !Counted(s, p)
  {
    assert PathBase(s, p) && OwnDead(s, p);
    assert s.paths[p].Advancing() ==> Underway(s, a.flow);
  }

  lemma StepKeepsSole(s: State, a: Action, p: Path, q: Path)
    requires Single(s) && Enabled(s, a) && !Risky(s, a) && p in Step(s, a).paths && q in Step(s, a).paths
    ensures Sole(Step(s, a), p, q)
  {
    var s' := Step(s, a);
    if p in s.paths && q in s.paths {
      assert Sole(s, p, q);
    }
    if p != q && s'.paths[p].flow == s'.paths[q].flow && Counted(s', p) && Counted(s', q) {
      StepMoves(s, a);
      if p in s.paths {
        CountedBefore(s, a, p);
        if q in s.paths {
          CountedBefore(s, a, q);
        } else {
          ArrivalAlone(s, a, p);
        }
      } else {
        CountedBefore(s, a, q);
        ArrivalAlone(s, a, q);
      }
    }
  }

  lemma StepKeepsOwnDead(s: State, a: Action, p: Path)
    requires Single(s) && Enabled(s, a) && !Risky(s, a) && p in Step(s, a).paths
    ensures OwnDead(Step(s, a), p)
  {
    var s' := Step(s, a);
    StepMoves(s, a);
    var f := s'.paths[p].flow;
    if Counted(s', p) && f in s'.flows && s'.flows[f].status == Pending {
      if p in s.paths {
        CountedBefore(s, a, p);
        assert PathBase(s, p) && OwnDead(s, p) && FlowBase(s, f);
        DeadStays(s, a, s.flows[f].state);
      } else {
        assert a.flow == f && FlowBase(s, f);
      }
    }
  }

  lemma StepKeepsSingle(s: State, a: Action)
    requires Single(s) && Enabled(s, a) && !Risky(s, a)
    ensures Single(Step(s, a))
  {
    var s' := Step(s, a);
    StepKeepsBase(s, a);
    forall p, q | p in s'.paths && q in s'.paths ensures Sole(s', p, q) { StepKeepsSole(s, a, p, q); }
    forall p | p in s'.paths ensures OwnDead(s', p) { StepKeepsOwnDead(s, a, p); }
  }

  lemma {:induction false} RunKeepsSingle(actions: seq<Action>)
    requires Run(RisklessOnly, INITIAL, actions).Some?
    ensures Single(Run(RisklessOnly, INITIAL, actions).value)
  {
    if actions != [] {
      var last := |actions| - 1;
      RunKeepsSingle(actions[..last]);
      StepKeepsSingle(Run(RisklessOnly, INITIAL, actions[..last]).value, actions[last]);
    }
  }

  /** Over every run without a risky completion, at most one account is created for a flow. */
  lemma OneAccountWithoutRisk(actions: seq<Action>, p: Path, q: Path)
    requires Run(RisklessOnly, INITIAL, actions).Some?
    requires var s := Run(RisklessOnly, INITIAL, actions).value;
             p in s.accounts && q in s.accounts && s.accounts[p] == s.accounts[q]
    ensures p == q
  {
    RunKeepsSingle(actions);
    var s := Run(RisklessOnly, INITIAL, actions).value;
    assert SecretOk(s, p) && SecretOk(s, q);
    assert Sole(s, p, q);
  }

  // ---- with a risky completion ----

  lemma RunSnoc(s: State, actions: seq<Action>, a: Action)
    requires Run(Anything, s, actions).Some? && Enabled(Run(Anything, s, actions).value, a)
    ensures Run(Anything, s, actions + [a]) == Some(Step(Run(Anything, s, actions).value, a))
  {
    assert (actions + [a])[..|actions|] == actions;
  }

  lemma {:induction false} AboveAll(paths: set<Path>) returns (n: Path)
    ensures forall p :: p in paths ==> p < n
    decreases |paths|
  {
    n := 0;
    if paths != {} {
      var p :| p in paths;
      n := AboveAll(paths - {p});
      if n <= p {
        n := p + 1;
      }
      assert forall q :: q in paths ==> q == p || q in paths - {p};
    }
  }

  /** Two runs on one flow. */
  ghost predicate Both(s: State, f: FlowId, flow: Flow, p: Path, q: Path) {
    && f in s.flows && s.flows[f] == flow && p != q
    && p in s.paths && s.paths[p].flow == f && q in s.paths && s.paths[q].flow == f
  }

  /** After a risky completion by run q, another run of the flow is, or comes, under way too. */
  lemma Joined(s: State, first: Action) returns (actions: seq<Action>, p: Path)
    requires Base(s) && Enabled(s, first) && Risky(s, first)
    ensures actions != [] && actions[0] == first && Run(Anything, s, actions).Some?
    ensures var t := Run(Anything, s, actions).value;
            && Both(t, first.flow, s.flows[first.flow], p, first.p)
            && t.paths[p].Advancing() && t.paths[first.p].Exchanging?
  {
    var f, q := first.flow, first.p;
    assert Run(Anything, s, []) == Some(s);
    RunSnoc(s, [], first);
    actions := [] + [first];
    if Underway(s, f) {
      p :| p in s.paths && s.paths[p].flow == f && s.paths[p].Advancing();
    } else {
      p := AboveAll(s.paths.Keys + {q});
      assert p !in s.paths && p != q;
      var second := Complete(p, f, first.now, s.flows[f].state, true, Manual);
      RunSnoc(s, actions, second);
      actions := actions + [second];
    }
  }

  /** What is left of a run's way to its account, while its flow is pending and the other run stands by. */
  lemma ToCreating(s: State, before: seq<Action>, f: FlowId, flow: Flow, p: Path, q: Path)
    returns (actions: seq<Action>)
    requires before != [] && Run(Anything, s, before).Some? && flow.status == Pending
    requires var t := Run(Anything, s, before).value; Both(t, f, flow, p, q) && t.paths[p].Advancing()
    ensures actions != [] && actions[0] == before[0] && Run(Anything, s, actions).Some?
    ensures var t, t' := Run(Anything, s, before).value, Run(Anything, s, actions).value;
            && Both(t', f, flow, p, q) && t'.paths[q] == t.paths[q]
            && (t'.paths[p].Creating? || t'.paths[p].Recording?)
            && (!t.paths[p].Recording? ==> t'.paths[p].Creating?)
  {
    actions := before;
    if Run(Anything, s, actions).value.paths[p].Exchanging? {
      RunSnoc(s, actions, Exchange(p, true));
      actions := actions + [Exchange(p, true)];
    }
    if Run(Anything, s, actions).value.paths[p].Authorized? {
      RunSnoc(s, actions, Settle(p));
      actions := actions + [Settle(p)];
    }
  }

  lemma ToRecording(s: State, before: seq<Action>, f: FlowId, flow: Flow, p: Path, q: Path)
    returns (actions: seq<Action>)
    requires before != [] && Run(Anything, s, before).Some?
    requires var t := Run(Anything, s, before).value;
             Both(t, f, flow, p, q) && (t.paths[p].Creating? || t.paths[p].Recording?)
    ensures actions != [] && actions[0] == before[0] && Run(Anything, s, actions).Some?
    ensures var t, t' := Run(Anything, s, before).value, Run(Anything, s, actions).value;
            Both(t', f, flow, p, q) && t'.paths[q] == t.paths[q] && t'.paths[p].Recording?
  {
    actions := before;
    if Run(Anything, s, actions).value.paths[p].Creating? {
      RunSnoc(s, actions, Create(p, true, true, true));
      actions := actions + [Create(p, true, true, true)];
    }
  }

  /** Run q about to create its account, the other about to record one. */
  lemma Ready(s: State, first: Action) returns (actions: seq<Action>, p: Path)
    requires Base(s) && Enabled(s, first) && Risky(s, first)
    ensures actions != [] && actions[0] == first && Run(Anything, s, actions).Some?
    ensures var t := Run(Anything, s, actions).value;
            && Both(t, first.flow, s.flows[first.flow], p, first.p)
            && t.paths[p].Recording? && t.paths[first.p].Creating?
  {
    var f := first.flow;
    actions, p := Joined(s, first);
    actions := ToCreating(s, actions, f, s.flows[f], first.p, p);
    actions := ToCreating(s, actions, f, s.flows[f], p, first.p);
    actions := ToRecording(s, actions, f, s.flows[f], p, first.p);
  }

  // ---- when nothing comes of it ----

  /** A run that never gets an account: refused, done without one, or bound to find its flow settled. */
  ghost predicate Doomed(s: State, f: FlowId, q: Path) {
    && f in s.flows && q in s.paths && s.paths[q].flow == f && q !in s.accounts
    && match s.paths[q]
       case Refused(_) => true
       case Exchanging(_, _) => s.flows[f].status != Pending
       case Authorized(_, _) => s.flows[f].status != Pending
       case Done(_, v) => v != Created
       case _ => false
  }

  lemma StepKeepsDoomed(s: State, a: Action, f: FlowId, q: Path)
    requires Enabled(s, a) && Doomed(s, f, q)
    ensures Doomed(Step(s, a), f, q)
  {
    StepMoves(s, a);
  }

  /** No other run of the flow gets an account: none is under way, and no further completion succeeds. */
  ghost predicate Lonely(s: State, f: FlowId, q: Path) {
    && f in s.flows && f in s.heard && s.flows[f].state in s.drawn && !Live(s, s.clock, s.flows[f].state)
    && forall p :: p in s.paths && s.paths[p].flow == f && p != q ==> Idle(s.paths[p])
  }

  predicate Idle(pc: Pc) {
    !pc.Advancing() && pc != Done(pc.flow, Created)
  }

  lemma StepKeepsLonely(s: State, a: Action, f: FlowId, q: Path)
    requires Base(s) && Enabled(s, a) && Lonely(s, f, q)
    ensures Lonely(Step(s, a), f, q)
  {
    StepMoves(s, a);
    DeadStays(s, a, s.flows[f].state);
    var s' := Step(s, a);
    if !a.Start? && a.p in s.paths {
      assert PathBase(s, a.p);
    }
    forall p | p in s'.paths && s'.paths[p].flow == f && p != q ensures Idle(s'.paths[p]) {
      if p in s.paths {
        assert Idle(s.paths[p]);
      }
    }
  }

  lemma FirstStep(s: State, first: Action)
    requires Base(s) && Enabled(s, first) && first.Complete? && first.source == Listener && !Risky(s, first)
    requires first.state != s.flows[first.flow].state
    ensures Doomed(Step(s, first), first.flow, first.p) || Lonely(Step(s, first), first.flow, first.p)
  {
    var f, q, s' := first.flow, first.p, Step(s, first);
    assert FlowBase(s, f);
    if first.usable && s.flows[f].status == Pending && Live(s, first.now, first.state) {
      assert !Live(s, first.now, s.flows[f].state) && !Underway(s, f);
      forall p | p in s'.paths && s'.paths[p].flow == f && p != q ensures Idle(s'.paths[p]) {
        assert PathBase(s, p);
      }
    } else {
      assert q !in s.accounts;
    }
  }

  lemma {:induction false} RunKeepsBarren(s: State, actions: seq<Action>)
    requires Base(s) && actions != [] && Run(Anything, s, actions).Some?
    requires var first := actions[0];
             && Enabled(s, first) && first.Complete? && first.source == Listener && !Risky(s, first)
             && first.state != s.flows[first.flow].state
    ensures var first := actions[0];
            var t := Run(Anything, s, actions).value;
            Base(t) && (Doomed(t, first.flow, first.p) || Lonely(t, first.flow, first.p))
  {
    var last := |actions| - 1;
    RunKeepsBase(Anything, s, actions);
    if last == 0 {
      assert actions[..last] == [];
      FirstStep(s, actions[0]);
    } else {
      var before := actions[..last];
      RunKeepsBarren(s, before);
      var t, f, q := Run(Anything, s, before).value, actions[0].flow, actions[0].p;
      if Doomed(t, f, q) {
        StepKeepsDoomed(t, actions[last], f, q);
      } else {
        StepKeepsLonely(t, actions[last], f, q);
      }
    }
  }

  // ---- exactly when the promises break ----

  /** A run from s that begins with this completion and ends with accounts for its flow by its own run and
      by p. */
  ghost predicate MakesTwo(s: State, actions: seq<Action>, first: Action, p: Path)
    requires first.Complete?
  {
    && actions != [] && actions[0] == first && Run(Anything, s, actions).Some? && p != first.p
    && var t := Run(Anything, s, actions).value;
       && p in t.accounts && t.accounts[p] == first.flow
       && first.p in t.accounts && t.accounts[first.p] == first.flow
  }

  lemma RiskyMakesTwo(s: State, first: Action) returns (actions: seq<Action>, p: Path)
    requires Base(s) && Enabled(s, first) && Risky(s, first)
    ensures MakesTwo(s, actions, first, p)
  {
    actions, p := Ready(s, first);
    actions := ToRecording(s, actions, first.flow, s.flows[first.flow], first.p, p);
    RunKeepsBase(Anything, s, actions);
    var t := Run(Anything, s, actions).value;
    assert SecretOk(t, p) && SecretOk(t, first.p);
  }

  lemma RisklessMakesOne(s: State, actions: seq<Action>, first: Action, p: Path)
    requires Base(s) && Enabled(s, first) && first.Complete? && first.source == Listener && !Risky(s, first)
    requires first.state != s.flows[first.flow].state
    ensures !MakesTwo(s, actions, first, p)
  {
    if actions != [] && actions[0] == first && Run(Anything, s, actions).Some? {
      RunKeepsBarren(s, actions);
      BarrenHasOne(Run(Anything, s, actions).value, first.flow, p, first.p);
    }
  }

  lemma BarrenHasOne(t: State, f: FlowId, p: Path, q: Path)
    requires Base(t) && (Doomed(t, f, q) || Lonely(t, f, q))
    ensures !(p != q && p in t.accounts && t.accounts[p] == f && q in t.accounts)
  {
    if p in t.paths {
      assert SecretOk(t, p);
    }
  }

  /** From every reachable state: when a flow's listener is given another flow's state, a run that begins so
      ends with an account for the flow by this completion and another one exactly when the flow is pending,
      the presented state is live, and the flow's own state is live too or a run of the flow is under way. */
  lemma ForeignStateMakesTwoAccounts(s: State, first: Action)
    requires Base(s) && Enabled(s, first) && first.Complete? && first.source == Listener
    requires first.state != s.flows[first.flow].state
    ensures (exists actions, p :: MakesTwo(s, actions, first, p)) <==> Risky(s, first)
  {
    if Risky(s, first) {
      var actions, p := RiskyMakesTwo(s, first);
      assert MakesTwo(s, actions, first, p);
    } else {
      forall actions, p ensures !MakesTwo(s, actions, first, p) {
        RisklessMakesOne(s, actions, first, p);
      }
    }
  }

  /** A run from s that begins with this completion, whose own run, at the last step, turns the flow that p
      has completed back to failed. */
  ghost predicate Undoes(s: State, actions: seq<Action>, first: Action, p: Path)
    requires first.Complete?
  {
    && |actions| > 1 && actions[0] == first && actions[|actions| - 1] == Finish(first.p)
    && Run(Anything, s, actions).Some? && Run(Anything, s, actions[..|actions| - 1]).Some?
    && var was, end := Run(Anything, s, actions[..|actions| - 1]).value, Run(Anything, s, actions).value;
       var f := first.flow;
       && f in was.flows && was.flows[f].status == Completed && was.flows[f].account == Some(p)
       && f in end.flows && end.flows[f].status == Failed && end.flows[f].account == Some(p)
  }

  lemma RiskyUndoes(s: State, first: Action) returns (actions: seq<Action>, p: Path)
    requires Base(s) && Enabled(s, first) && Risky(s, first)
    ensures Undoes(s, actions, first, p)
  {
    var q := first.p;
    actions, p := Ready(s, first);
    RunSnoc(s, actions, Finish(p));
    actions := actions + [Finish(p)];
    RunSnoc(s, actions, Create(q, true, false, true));
    actions := actions + [Create(q, true, false, true)];
    RunSnoc(s, actions, Finish(q));
    assert (actions + [Finish(q)])[..|actions|] == actions;
    actions := actions + [Finish(q)];
  }

  lemma BarrenUndoesNothing(t: State, f: FlowId, p: Path, q: Path)
    requires Base(t) && (Doomed(t, f, q) || Lonely(t, f, q))
    ensures !(Enabled(t, Finish(q)) && t.flows[f].account == Some(p))
  {
    assert FlowBase(t, f);
  }

  lemma RisklessUndoesNothing(s: State, actions: seq<Action>, first: Action, p: Path)
    requires Base(s) && Enabled(s, first) && first.Complete? && first.source == Listener && !Risky(s, first)
    requires first.state != s.flows[first.flow].state
    ensures !Undoes(s, actions, first, p)
  {
    if Undoes(s, actions, first, p) {
      var before := actions[..|actions| - 1];
      RunKeepsBarren(s, before);
      BarrenUndoesNothing(Run(Anything, s, before).value, first.flow, p, first.p);
    }
  }

  /** By the same completions, and no others, a completed flow can be turned back to failed, its account
      id kept. */
  lemma ForeignStateUndoesCompletion(s: State, first: Action)
    requires Base(s) && Enabled(s, first) && first.Complete? && first.source == Listener
    requires first.state != s.flows[first.flow].state
    ensures (exists actions, p :: Undoes(s, actions, first, p)) <==> Risky(s, first)
  {
    if Risky(s, first) {
      var actions, p := RiskyUndoes(s, first);
      assert Undoes(s, actions, first, p);
    } else {
      forall actions, p ensures !Undoes(s, actions, first, p) {
        RisklessUndoesNothing(s, actions, first, p);
      }
    }
  }
}
