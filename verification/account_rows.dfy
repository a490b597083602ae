/** The reference to its tokens that an account's row holds, while callers refresh them and write it back.
    A refresh, with all who join it, is one action, as SingleFlight shows it to be, and slots are numbered
    along the rotation chain, where Vaults shows them to be distinct. Storing and deleting secrets works, so that
    only slot number live holds a bundle. */
module AccountRows {
  import opened Prelude

  type Caller = nat

  /** mark is the fingerprint of a slot's bundle, by its number; a refresh that changes nothing returns a
      reference without one. */
  datatype Ref = Ref(slot: nat, mark: Option<nat>)

  /** A caller has read the row, or Refresh has returned to it with a reference or an error. */
  datatype Pc = Holding(row: Ref) | Returned(row: Ref, result: Option<Ref>) | Over

  datatype State = State(live: nat, row: Ref, pcs: map<Caller, Pc>)

  /** What a refresh comes to, if it can load the bundle. */
  datatype Fate = Rotates | StillFresh | Fails

  datatype Action =
    | Read(t: Caller)
    | Refresh(t: Caller, joiners: set<Caller>, fate: Fate)
    | Write(t: Caller, works: bool)

  predicate Enabled(s: State, a: Action) {
    match a
    case Read(t) => t !in s.pcs
    case Refresh(t, joiners, _) =>
      t in s.pcs && s.pcs[t].Holding? && forall u :: u in joiners ==> u in s.pcs && s.pcs[u].Holding?
    case Write(t, _) => t in s.pcs && s.pcs[t].Returned?
  }

  /** What the refresh of caller t returns, to it and to all who join. */
  function Outcome(s: State, t: Caller, fate: Fate): Option<Ref>
    requires t in s.pcs && s.pcs[t].Holding?
  {
    var slot := s.pcs[t].row.slot;
    if slot != s.live then None
    else
      match fate
      case Rotates => Some(Ref(s.live + 1, Some(s.live + 1)))
      case StillFresh => Some(Ref(slot, None))
      case Fails => None
  }

  /** The caller writes the row back when the fingerprint is not the one it has read. */
  predicate Due(pc: Pc) {
    pc.Returned? && pc.result.Some? && pc.result.value.mark != pc.row.mark
  }

  function Step(s: State, a: Action): State
    requires Enabled(s, a)
  {
    match a
    case Read(t) => s.(pcs := s.pcs[t := Holding(s.row)])
    case Refresh(t, joiners, fate) =>
      var r := Outcome(s, t, fate);
      State(if r.Some? then r.value.slot else s.live, s.row,
            map u | u in s.pcs :: if u == t || u in joiners then Returned(s.pcs[u].row, r) else s.pcs[u])
    case Write(t, works) =>
      s.(pcs := s.pcs[t := Over], row := if works && Due(s.pcs[t]) then s.pcs[t].result.value else s.row)
  }

  const INITIAL := State(0, Ref(0, Some(0)), map[])

  function Run(s: State, actions: seq<Action>): Option<State> {
    if actions == [] then Some(s)
    else
      var last := |actions| - 1;
      var p := Run(s, actions[..last]);
      if p.Some? && Enabled(p.value, actions[last]) then Some(Step(p.value, actions[last])) else None
  }

  /** The row's reference leads to the bundle. */
  predicate Leads(s: State) { s.row.slot == s.live }

  // ---- every reachable state ----

  /** No reference is ahead of the chain, and none has a fingerprint of another slot. */
  predicate RefOk(s: State, r: Ref) {
    r.slot <= s.live && (r.mark.Some? ==> r.mark.value == r.slot)
  }

  ghost predicate PcOk(s: State, pc: Pc) {
    match pc
    case Holding(row) => RefOk(s, row)
    case Returned(row, result) => RefOk(s, row) && (result.Some? ==> RefOk(s, result.value))
    case Over => true
  }

  ghost predicate Inv(s: State) {
    RefOk(s, s.row) && forall t :: t in s.pcs ==> PcOk(s, s.pcs[t])
  }

  lemma StepKeepsInv(s: State, a: Action)
    requires Inv(s) && Enabled(s, a)
    ensures Inv(Step(s, a)) && s.live <= Step(s, a).live
  {
    if a.Refresh? {
      assert PcOk(s, s.pcs[a.t]);
    }
    forall t | t in Step(s, a).pcs ensures PcOk(Step(s, a), Step(s, a).pcs[t]) {
      if t in s.pcs {
        assert PcOk(s, s.pcs[t]);
      }
    }
    if a.Write? {
      assert PcOk(s, s.pcs[a.t]);
    }
  }

  /** A refresh works exactly when the row that was read leads to the bundle and nothing fails; the reference it
      returns then leads to the bundle, and has a fingerprint exactly when the tokens were rotated. */
  lemma RefreshGives(s: State, t: Caller, joiners: set<Caller>, fate: Fate)
    requires Inv(s) && Enabled(s, Refresh(t, joiners, fate))
    ensures var r, s' := Outcome(s, t, fate), Step(s, Refresh(t, joiners, fate));
            && (r.Some? <==> s.pcs[t].row.slot == s.live && fate != Fails)
            && (r.Some? ==> r.value.slot == s'.live && (r.value.mark.Some? <==> fate == Rotates))
            && s'.live == (if r.Some? && fate == Rotates then s.live + 1 else s.live) && s'.row == s.row
            && forall u :: u in s'.pcs && (u == t || u in joiners) ==> s'.pcs[u] == Returned(s.pcs[u].row, r)
  {
    assert PcOk(s, s.pcs[t]);
  }

  lemma {:induction false} RunKeepsInv(s: State, actions: seq<Action>)
    requires Inv(s) && Run(s, actions).Some?
    ensures Inv(Run(s, actions).value)
    decreases |actions|
  {
    if actions != [] {
      var last := |actions| - 1;
      RunKeepsInv(s, actions[..last]);
      StepKeepsInv(Run(s, actions[..last]).value, actions[last]);
    }
  }

  // ---- when the tokens are lost ----

  /** A caller has read, or is about to write, a reference that leads to the bundle. */
  predicate Saves(s: State, pc: Pc) {
    (pc.Holding? && pc.row.slot == s.live) || (Due(pc) && pc.result.value.slot == s.live)
  }

  ghost predicate Lost(s: State) {
    !Leads(s) && forall t :: t in s.pcs ==> !Saves(s, s.pcs[t])
  }

  lemma StepKeepsLost(s: State, a: Action)
    requires Lost(s) && Enabled(s, a)
    ensures Lost(Step(s, a)) && Step(s, a).live == s.live
    ensures a.Refresh? ==> Outcome(s, a.t, a.fate) == None
  {
    if a.Read? {
      assert !Saves(s, Holding(s.row));
    } else {
      assert !Saves(s, s.pcs[a.t]);
    }
    var s' := Step(s, a);
    forall t | t in s'.pcs ensures !Saves(s', s'.pcs[t]) {
      if t in s.pcs {
        assert !Saves(s, s.pcs[t]);
      }
    }
  }

  lemma {:induction false} RunKeepsLost(s: State, actions: seq<Action>)
    requires Lost(s) && Run(s, actions).Some?
    ensures Lost(Run(s, actions).value)
    decreases |actions|
  {
    if actions != [] {
      var last := |actions| - 1;
      RunKeepsLost(s, actions[..last]);
      StepKeepsLost(Run(s, actions[..last]).value, actions[last]);
    }
  }

  ghost predicate MayLead(s: State) {
    exists actions :: Reaches(s, actions)
  }

  ghost predicate Reaches(s: State, actions: seq<Action>) {
    Run(s, actions).Some? && Leads(Run(s, actions).value)
  }

  lemma RunSnoc(s: State, actions: seq<Action>, a: Action)
    requires Run(s, actions).Some? && Enabled(Run(s, actions).value, a)
    ensures Run(s, actions + [a]) == Some(Step(Run(s, actions).value, a))
  {
    assert (actions + [a])[..|actions|] == actions;
  }

  lemma SaverRestores(s: State, t: Caller) returns (actions: seq<Action>)
    requires Inv(s) && t in s.pcs && Saves(s, s.pcs[t])
    ensures Reaches(s, actions)
  {
    assert PcOk(s, s.pcs[t]);
    actions := [];
    if s.pcs[t].Holding? {
      RunSnoc(s, actions, Refresh(t, {}, Rotates));
      actions := actions + [Refresh(t, {}, Rotates)];
    }
    RunSnoc(s, actions, Write(t, true));
    actions := actions + [Write(t, true)];
  }

  /** From every reachable state: the row can lead to the bundle again in some continuation exactly unless
      the tokens are lost. Then every refresh fails from there on, and nothing short of a new login helps. */
  lemma LostExactly(s: State)
    requires Inv(s)
    ensures MayLead(s) <==> !Lost(s)
  {
    if Lost(s) {
      forall actions | Run(s, actions).Some? ensures !Reaches(s, actions) {
        RunKeepsLost(s, actions);
      }
    } else if Leads(s) {
      assert Run(s, []) == Some(s);
      assert Reaches(s, []);
    } else {
      var t :| t in s.pcs && Saves(s, s.pcs[t]);
      var actions := SaverRestores(s, t);
      assert Reaches(s, actions);
    }
  }

  /** A write loses the tokens exactly when what it writes is out of date and no other caller can save
      them, or when it fails and was the last to save them. */
  lemma WriteLosesExactly(s: State, t: Caller, works: bool)
    requires Inv(s) && Enabled(s, Write(t, works))
    ensures Lost(Step(s, Write(t, works))) <==>
              && (forall u :: u in s.pcs && u != t ==> !Saves(s, s.pcs[u]))
              && (if works && Due(s.pcs[t]) then s.pcs[t].result.value.slot < s.live else !Leads(s))
  {
    assert PcOk(s, s.pcs[t]);
    var s' := Step(s, Write(t, works));
    assert forall u :: u in s.pcs && u != t ==> s'.pcs[u] == s.pcs[u] && (Saves(s', s'.pcs[u]) <==> Saves(s, s.pcs[u]));
    if Lost(s') {
      forall u | u in s.pcs && u != t ensures !Saves(s, s.pcs[u]) {
        assert !Saves(s', s'.pcs[u]);
      }
    }
  }

  // ---- it happens ----

  /** A waiter that is slow to write back: two callers share a rotation, a third rotates again. */
  function Overtaken(a: Caller, b: Caller, c: Caller): seq<Action> {
    [Read(a), Read(b), Refresh(a, {b}, Rotates), Write(a, true)]
    + [Read(c), Refresh(c, {}, Rotates), Write(c, true), Write(b, true)]
  }

  lemma RunFour(s: State, a: Action, b: Action, c: Action, d: Action)
    requires Enabled(s, a) && Enabled(Step(s, a), b) && Enabled(Step(Step(s, a), b), c)
    requires Enabled(Step(Step(Step(s, a), b), c), d)
    ensures Run(s, [a, b, c, d]) == Some(Step(Step(Step(Step(s, a), b), c), d))
  {
    assert [] + [a] == [a] && [a] + [b] == [a, b] && [a, b] + [c] == [a, b, c] && [a, b, c] + [d] == [a, b, c, d];
    RunSnoc(s, [], a);
    RunSnoc(s, [a], b);
    RunSnoc(s, [a, b], c);
    RunSnoc(s, [a, b, c], d);
  }

  lemma {:induction false} RunAppend(s: State, x: seq<Action>, y: seq<Action>)
    requires Run(s, x).Some? && Run(Run(s, x).value, y).Some?
    ensures Run(s, x + y) == Run(Run(s, x).value, y)
    decreases |y|
  {
    if y == [] {
      assert x + y == x;
    } else {
      var n := |y| - 1;
      RunAppend(s, x, y[..n]);
      assert (x + y)[..|x + y| - 1] == x + y[..n];
    }
  }

  /** Two callers share a rotation, and the first writes it back. */
  lemma SharedRotation(s: State, a: Caller, b: Caller)
    requires Inv(s) && Leads(s) && a !in s.pcs && b !in s.pcs && a != b
    ensures var first := [Read(a), Read(b), Refresh(a, {b}, Rotates), Write(a, true)];
            && Run(s, first).Some?
            && var t := Run(s, first).value;
               && t.live == s.live + 1 && t.row == Ref(s.live + 1, Some(s.live + 1))
               && t.pcs.Keys == s.pcs.Keys + {a, b}
               && t.pcs[b] == Returned(s.row, Some(Ref(s.live + 1, Some(s.live + 1))))
  {
    RunFour(s, Read(a), Read(b), Refresh(a, {b}, Rotates), Write(a, true));
  }

  /** A third caller rotates again before the second one writes. */
  lemma SlowWrite(s: State, b: Caller, c: Caller)
    requires Inv(s) && Leads(s) && s.row.mark == Some(s.live) && c !in s.pcs && b in s.pcs
    requires s.pcs[b].Returned? && s.pcs[b].result == Some(Ref(s.live, Some(s.live))) && Due(s.pcs[b])
    ensures var last := [Read(c), Refresh(c, {}, Rotates), Write(c, true), Write(b, true)];
            Run(s, last).Some? && Lost(Run(s, last).value)
  {
    RunFour(s, Read(c), Refresh(c, {}, Rotates), Write(c, true), Write(b, true));
    var t := Step(Step(Step(Step(s, Read(c)), Refresh(c, {}, Rotates)), Write(c, true)), Write(b, true));
    assert t.live == s.live + 1 && t.row.slot == s.live;
    forall u | u in t.pcs ensures !Saves(t, t.pcs[u]) {
      if u in s.pcs && u != b {
        assert PcOk(s, s.pcs[u]) && t.pcs[u] == s.pcs[u];
      }
    }
  }

  /** From every reachable state whose row leads to the bundle, three more callers can lose it. */
  lemma LossReachable(s: State, a: Caller, b: Caller, c: Caller)
    requires Inv(s) && Leads(s) && a !in s.pcs && b !in s.pcs && c !in s.pcs && a != b && b != c && a != c
    ensures Run(s, Overtaken(a, b, c)).Some? && Lost(Run(s, Overtaken(a, b, c)).value)
  {
    var x := [Read(a), Read(b), Refresh(a, {b}, Rotates), Write(a, true)];
    SharedRotation(s, a, b);
    RunKeepsInv(s, x);
    SlowWrite(Run(s, x).value, b, c);
    RunAppend(s, x, [Read(c), Refresh(c, {}, Rotates), Write(c, true), Write(b, true)]);
  }

  // ---- when it does not ----

  /** Writes succeed, and no rotation begins while a caller has still to write. */
  ghost predicate Prompt(s: State, a: Action) {
    && (a.Write? ==> a.works)
    && (a.Refresh? && a.fate == Rotates ==> forall t :: t in s.pcs ==> !Due(s.pcs[t]))
  }

  ghost predicate PromptRun(s: State, actions: seq<Action>) {
    forall i :: 0 <= i < |actions| ==>
      Run(s, actions[..i]).Some? && Prompt(Run(s, actions[..i]).value, actions[i])
  }

  /** Whatever is still to be written is up to date, and unless the row is, something is to be written. */
  ghost predicate Current(s: State) {
    && (forall t :: t in s.pcs && Due(s.pcs[t]) ==> s.pcs[t].result.value.slot == s.live)
    && (Leads(s) || exists t :: t in s.pcs && Due(s.pcs[t]))
  }

  lemma StepKeepsCurrent(s: State, a: Action)
    requires Inv(s) && Current(s) && Enabled(s, a) && Prompt(s, a)
    ensures Current(Step(s, a))
  {
    var s' := Step(s, a);
    if a.Refresh? {
      assert PcOk(s, s.pcs[a.t]);
      var r := Outcome(s, a.t, a.fate);
      if r.Some? && a.fate == Rotates {
        assert Due(s'.pcs[a.t]);
      } else if !Leads(s) {
        var t :| t in s.pcs && Due(s.pcs[t]);
        assert s'.pcs[t] == s.pcs[t];
      }
    } else if a.Read? && !Leads(s) {
      var t :| t in s.pcs && Due(s.pcs[t]);
      assert Due(s'.pcs[t]);
    } else if a.Write? && !Leads(s) {
      var t :| t in s.pcs && Due(s.pcs[t]);
      assert t != a.t ==> Due(s'.pcs[t]);
    }
  }

  lemma {:induction false} RunKeepsCurrent(s: State, actions: seq<Action>)
    requires Inv(s) && Current(s) && Run(s, actions).Some? && PromptRun(s, actions)
    ensures Current(Run(s, actions).value)
    decreases |actions|
  {
    if actions != [] {
      var last := |actions| - 1;
      var before := actions[..last];
      forall i | 0 <= i < |before| ensures Run(s, before[..i]).Some? && Prompt(Run(s, before[..i]).value, before[i]) {
        assert before[..i] == actions[..i] && before[i] == actions[i];
      }
      RunKeepsCurrent(s, before);
      RunKeepsInv(s, before);
      StepKeepsCurrent(Run(s, before).value, actions[last]);
    }
  }

  /** When callers write back before the next rotation begins, no tokens are ever lost, and once nothing is
      left to write the row leads to the bundle. */
  lemma PromptWritersLoseNothing(actions: seq<Action>)
    requires Run(INITIAL, actions).Some? && PromptRun(INITIAL, actions)
    ensures var s := Run(INITIAL, actions).value;
            !Lost(s) && ((forall t :: t in s.pcs ==> !Due(s.pcs[t])) ==> Leads(s))
  {
    RunKeepsCurrent(INITIAL, actions);
    var s := Run(INITIAL, actions).value;
    if !Leads(s) {
      var t :| t in s.pcs && Due(s.pcs[t]);
      assert Saves(s, s.pcs[t]);
    }
  }
}
