/** Refresh jobs: every interleaving of Enqueue calls, process restarts and job outcomes. One action is
    what a caller does while it holds the mutex, one database call, or the end of a job's body. */
module Scheduler {
  import opened Prelude

  datatype Key = Key(account: string, capability: string)

  datatype JobState = Pending | Running | Success | Failed | Interrupted

  /** A row of refresh_jobs; there is one for each account and capability. */
  datatype Row = Row(id: string, state: JobState, retry: nat)

  type Rows = map<Key, Row>

  /** Where a call of Enqueue is. */
  datatype Phase =
    | Claimed
    | Cleared
    | Ready(previous: nat)
    | InBody(id: string)
    | Succeeded(id: string)
    | Failing(id: string)
    | Counted(id: string, retry: nat)
    | Leaving
    | Answered
  {
    /** Between the insertion into the in-flight map and the removal from it. */
    predicate Holds() { !Answered? }

    /** From the row's insertion to the write of the outcome. */
    predicate Working() { InBody? || Succeeded? || Failing? || Counted? }
  }

  datatype Call = Call(key: Key, phase: Phase)

  type Caller = nat

  /** owner, log and marked are history: who inserted an in-flight key, the outcomes written so far, and
      whether leftover rows have been marked since the process started. */
  datatype State = State(rows: Rows, inflight: set<Key>, calls: map<Caller, Call>,
                         owner: map<Key, Caller>, log: seq<(Key, bool)>, marked: bool)

  datatype Action =
    | Enter(c: Caller, key: Key)
    | Look(c: Caller)
    | ReadRetry(c: Caller)
    | Insert(c: Caller, id: string)
    | InsertFails(c: Caller)
    | BodyEnds(c: Caller, ok: bool)
    | WriteSuccess(c: Caller)
    | CountFailure(c: Caller)
    | WriteFailure(c: Caller)
    | Leave(c: Caller)
    | Restart
    | MarkInterrupted

  predicate At(s: State, c: Caller) { c in s.calls }

  /** An insert succeeds only with an id that no other row has. */
  predicate Enabled(s: State, a: Action) {
    match a
    case Enter(c, _) => !At(s, c)
    case Look(c) => At(s, c) && s.calls[c].phase.Claimed?
    case ReadRetry(c) => At(s, c) && s.calls[c].phase.Cleared?
    case Insert(c, id) =>
      At(s, c) && s.calls[c].phase.Ready? && forall k :: k in s.rows && s.rows[k].id == id ==> k == s.calls[c].key
    case InsertFails(c) => At(s, c) && s.calls[c].phase.Ready?
    case BodyEnds(c, _) => At(s, c) && s.calls[c].phase.InBody?
    case WriteSuccess(c) => At(s, c) && s.calls[c].phase.Succeeded?
    case CountFailure(c) => At(s, c) && s.calls[c].phase.Failing?
    case WriteFailure(c) => At(s, c) && s.calls[c].phase.Counted?
    case Leave(c) => At(s, c) && s.calls[c].phase.Leaving?
    case Restart => true
    case MarkInterrupted => true
  }

  predicate Busy(rows: Rows, key: Key) {
    key in rows && (rows[key].state == Running || rows[key].state == Pending)
  }

  /** The update is by id. */
  function Updated(rows: Rows, id: string, state: JobState, retry: nat): Rows {
    map k | k in rows :: if rows[k].id == id then Row(id, state, retry) else rows[k]
  }

  function Marked(rows: Rows): Rows {
    map k | k in rows :: if Busy(rows, k) then rows[k].(state := Interrupted) else rows[k]
  }

  function Moved(s: State, c: Caller, p: Phase): map<Caller, Call>
    requires c in s.calls
  {
    s.calls[c := Call(s.calls[c].key, p)]
  }

  function Step(s: State, a: Action): State
    requires Enabled(s, a)
  {
    match a
    case Enter(c, key) =>
      if key in s.inflight then s.(calls := s.calls[c := Call(key, Answered)])
      else s.(inflight := s.inflight + {key}, owner := s.owner[key := c], calls := s.calls[c := Call(key, Claimed)])
    case Look(c) => s.(calls := Moved(s, c, if Busy(s.rows, s.calls[c].key) then Leaving else Cleared))
    case ReadRetry(c) =>
      var key := s.calls[c].key;
      s.(calls := Moved(s, c, Ready(if key in s.rows then s.rows[key].retry else 0)))
    case Insert(c, id) =>
      s.(rows := s.rows[s.calls[c].key := Row(id, Running, s.calls[c].phase.previous)],
         calls := Moved(s, c, InBody(id)))
    case InsertFails(c) => s.(calls := Moved(s, c, Leaving))
    case BodyEnds(c, ok) =>
      var id := s.calls[c].phase.id;
      s.(calls := Moved(s, c, if ok then Succeeded(id) else Failing(id)))
    case WriteSuccess(c) =>
      s.(rows := Updated(s.rows, s.calls[c].phase.id, Success, 0), log := s.log + [(s.calls[c].key, true)],
         calls := Moved(s, c, Leaving))
    case CountFailure(c) =>
      var key := s.calls[c].key;
      s.(calls := Moved(s, c, Counted(s.calls[c].phase.id, if key in s.rows then s.rows[key].retry + 1 else 0)))
    case WriteFailure(c) =>
      s.(rows := Updated(s.rows, s.calls[c].phase.id, Failed, s.calls[c].phase.retry),
         log := s.log + [(s.calls[c].key, false)], calls := Moved(s, c, Leaving))
    case Leave(c) =>
      s.(inflight := s.inflight - {s.calls[c].key}, owner := s.owner - {s.calls[c].key}, calls := Moved(s, c, Answered))
    case Restart => s.(inflight := {}, owner := map[], calls := map[], marked := false)
    case MarkInterrupted => s.(rows := Marked(s.rows), marked := true)
  }

  const START := State(map[], {}, map[], map[], [], false)

  ghost predicate Run(trace: seq<State>, actions: seq<Action>) {
    && |trace| == |actions| + 1 && trace[0] == START
    && forall i :: 0 <= i < |actions| ==> Enabled(trace[i], actions[i]) && trace[i + 1] == Step(trace[i], actions[i])
  }

  /** The failures of a key written since its last success. */
  function FailuresSince(log: seq<(Key, bool)>, key: Key): nat {
    if log == [] then 0
    else
      var (k, ok) := log[|log| - 1];
      var before := FailuresSince(log[..|log| - 1], key);
      if k != key then before else if ok then 0 else before + 1
  }

  // ---- invariant ----

  ghost predicate CallOk(s: State, c: Caller)
    requires c in s.calls
  {
    var Call(key, p) := s.calls[c];
    && (p.Holds() ==> key in s.owner && s.owner[key] == c)
    && (p.Ready? ==> p.previous == FailuresSince(s.log, key))
    && (p.Working() ==> key in s.rows && s.rows[key].id == p.id)
    && (p.Counted? ==> p.retry == FailuresSince(s.log, key) + 1)
  }

  ghost predicate KeyOk(s: State, key: Key) {
    && (key in s.inflight <==> key in s.owner)
    && (key in s.owner ==>
          s.owner[key] in s.calls && s.calls[s.owner[key]].key == key && s.calls[s.owner[key]].phase.Holds())
    && (if key in s.rows then s.rows[key].retry else 0) == FailuresSince(s.log, key)
    && (s.marked && Busy(s.rows, key) ==> key in s.owner && s.calls[s.owner[key]].phase.Working())
  }

  ghost predicate IdsUnique(rows: Rows) {
    forall k, k' :: k in rows && k' in rows && rows[k].id == rows[k'].id ==> k == k'
  }

  ghost predicate Inv(s: State) {
    && IdsUnique(s.rows)
    && (forall c :: c in s.calls ==> CallOk(s, c))
    && (forall key :: KeyOk(s, key))
  }

  /** An action of one caller leaves the other callers alone, and can change only its own key. */
  ghost predicate ActsOn(s: State, s': State, c: Caller, key: Key) {
    && c in s'.calls && s'.calls[c].key == key && s'.marked == s.marked
    && (forall d :: d != c ==> (d in s.calls <==> d in s'.calls) && (d in s.calls ==> s'.calls[d] == s.calls[d]))
    && (forall k :: k != key ==>
          && (k in s.rows <==> k in s'.rows) && (k in s.rows ==> s'.rows[k] == s.rows[k])
          && (k in s.inflight <==> k in s'.inflight)
          && (k in s.owner <==> k in s'.owner) && (k in s.owner ==> s'.owner[k] == s.owner[k])
          && FailuresSince(s'.log, k) == FailuresSince(s.log, k))
  }

  /** The caller's own key: nobody else holds it, before or after. */
  ghost predicate OwnOk(s: State, s': State, c: Caller, key: Key) {
    && c in s'.calls && CallOk(s', c) && KeyOk(s', key) && IdsUnique(s'.rows)
    && (key in s.owner && s.owner[key] != c ==>
          s'.owner == s.owner && s'.rows == s.rows && s'.log == s.log && s'.inflight == s.inflight)
  }

  lemma LocalStep(s: State, s': State, c: Caller, key: Key)
    requires Inv(s) && ActsOn(s, s', c, key) && OwnOk(s, s', c, key)
    requires c in s.calls ==> s.calls[c].key == key
    ensures Inv(s')
  {
    forall d | d in s'.calls ensures CallOk(s', d) {
      if d != c {
        assert CallOk(s, d);
      }
    }
    forall k ensures KeyOk(s', k) {
      if k != key {
        assert KeyOk(s, k);
      }
    }
  }

  lemma LogGrows(log: seq<(Key, bool)>, key: Key, ok: bool)
    ensures forall k :: FailuresSince(log + [(key, ok)], k)
                        == if k != key then FailuresSince(log, k) else if ok then 0 else FailuresSince(log, key) + 1
  {
    assert (log + [(key, ok)])[..|log|] == log;
  }

  lemma EnterKeepsInv(s: State, c: Caller, key: Key)
    requires Inv(s) && Enabled(s, Enter(c, key))
    ensures Inv(Step(s, Enter(c, key)))
  {
    assert KeyOk(s, key);
    LocalStep(s, Step(s, Enter(c, key)), c, key);
  }

  /** Steps that write no row and no outcome. */
  lemma ReadKeepsInv(s: State, a: Action)
    requires a.Look? || a.ReadRetry? || a.InsertFails? || a.BodyEnds? || a.CountFailure? || a.Leave?
    requires Inv(s) && Enabled(s, a)
    ensures Inv(Step(s, a))
  {
    var key := s.calls[a.c].key;
    assert CallOk(s, a.c) && KeyOk(s, key);
    LocalStep(s, Step(s, a), a.c, key);
  }

  lemma InsertKeepsInv(s: State, c: Caller, id: string)
    requires Inv(s) && Enabled(s, Insert(c, id))
    ensures Inv(Step(s, Insert(c, id)))
  {
    var key := s.calls[c].key;
    assert CallOk(s, c) && KeyOk(s, key);
    LocalStep(s, Step(s, Insert(c, id)), c, key);
  }

  /** An update by id touches the row of one key only. */
  lemma UpdateOwnRow(rows: Rows, key: Key, state: JobState, retry: nat)
    requires IdsUnique(rows) && key in rows
    ensures Updated(rows, rows[key].id, state, retry) == rows[key := Row(rows[key].id, state, retry)]
  {
  }

  lemma SuccessKeepsInv(s: State, c: Caller)
    requires Inv(s) && Enabled(s, WriteSuccess(c))
    ensures Inv(Step(s, WriteSuccess(c)))
  {
    var key := s.calls[c].key;
    assert CallOk(s, c) && KeyOk(s, key);
    UpdateOwnRow(s.rows, key, Success, 0);
    LogGrows(s.log, key, true);
    LocalStep(s, Step(s, WriteSuccess(c)), c, key);
  }

  lemma FailureKeepsInv(s: State, c: Caller)
    requires Inv(s) && Enabled(s, WriteFailure(c))
    ensures Inv(Step(s, WriteFailure(c)))
  {
    var Call(key, p) := s.calls[c];
    assert CallOk(s, c) && KeyOk(s, key);
    UpdateOwnRow(s.rows, key, Failed, p.retry);
    LogGrows(s.log, key, false);
    LocalStep(s, Step(s, WriteFailure(c)), c, key);
  }

  lemma ProcessKeepsInv(s: State, a: Action)
    requires a.Restart? || a.MarkInterrupted?
    requires Inv(s)
    ensures Inv(Step(s, a))
  {
    var s' := Step(s, a);
    forall c | c in s'.calls ensures CallOk(s', c) {
      assert CallOk(s, c);
    }
    forall key ensures KeyOk(s', key) {
      assert KeyOk(s, key);
    }
  }

  lemma StepKeepsInv(s: State, a: Action)
    requires Inv(s) && Enabled(s, a)
    ensures Inv(Step(s, a))
  {
    match a
    case Enter(c, key) => EnterKeepsInv(s, c, key);
    case Insert(c, id) => InsertKeepsInv(s, c, id);
    case WriteSuccess(c) => SuccessKeepsInv(s, c);
    case WriteFailure(c) => FailureKeepsInv(s, c);
    case Restart => ProcessKeepsInv(s, a);
    case MarkInterrupted => ProcessKeepsInv(s, a);
    case _ => ReadKeepsInv(s, a);
  }

  lemma {:induction false} RunKeepsInv(trace: seq<State>, actions: seq<Action>)
    requires Run(trace, actions)
    ensures Inv(trace[|actions|])
    decreases |actions|
  {
    if actions == [] {
      forall key ensures KeyOk(START, key) {
      }
    } else {
      var n := |actions| - 1;
      RunKeepsInv(trace[..n + 1], actions[..n]);
      StepKeepsInv(trace[n], actions[n]);
    }
  }

  // ---- what every run guarantees ----

  /** At most one call of Enqueue is between claiming a key and letting it go, so at most one body
      runs for each account and capability. */
  lemma OneBodyPerKey(trace: seq<State>, actions: seq<Action>, c: Caller, d: Caller)
    requires Run(trace, actions)
    ensures var s := trace[|actions|];
            (c in s.calls && d in s.calls && s.calls[c].key == s.calls[d].key
             && s.calls[c].phase.Holds() && s.calls[d].phase.Holds()) ==> c == d
  {
    RunKeepsInv(trace, actions);
    var s := trace[|actions|];
    if c in s.calls && d in s.calls {
      assert CallOk(s, c) && CallOk(s, d);
    }
  }

  /** A row's retry count is the number of failures written for it since its last success, however
      restarts and interruptions fall; a key without a row has none. */
  lemma RetryCountsFailures(trace: seq<State>, actions: seq<Action>, key: Key)
    requires Run(trace, actions)
    ensures var s := trace[|actions|];
            FailuresSince(s.log, key) == if key in s.rows then s.rows[key].retry else 0
  {
    RunKeepsInv(trace, actions);
    assert KeyOk(trace[|actions|], key);
  }

  /** Once leftover rows have been marked, a row is pending or running only while a live call is
      working on it; so no later call is turned away because of a row that a dead process left. */
  lemma MarkingFreesKeys(trace: seq<State>, actions: seq<Action>, key: Key, c: Caller)
    requires Run(trace, actions) && trace[|actions|].marked
    ensures var s := trace[|actions|];
            Busy(s.rows, key) ==> exists d :: d in s.calls && s.calls[d].key == key && s.calls[d].phase.Working()
    ensures var s := trace[|actions|];
            c in s.calls && s.calls[c].phase.Claimed? ==> !Busy(s.rows, s.calls[c].key)
  {
    RunKeepsInv(trace, actions);
    var s := trace[|actions|];
    assert KeyOk(s, key);
    if c in s.calls {
      assert CallOk(s, c) && KeyOk(s, s.calls[c].key);
    }
  }

  /** A key is refused as in flight only while a live call holds it: none is ever stuck. */
  lemma RefusedOnlyWhileHeld(trace: seq<State>, actions: seq<Action>, key: Key)
    requires Run(trace, actions)
    ensures var s := trace[|actions|];
            key in s.inflight <==> exists d :: d in s.calls && s.calls[d].key == key && s.calls[d].phase.Holds()
  {
    RunKeepsInv(trace, actions);
    var s := trace[|actions|];
    assert KeyOk(s, key);
    if d :| d in s.calls && s.calls[d].key == key && s.calls[d].phase.Holds() {
      assert CallOk(s, d);
    }
  }

  /** The outcome of a body is always written to its own row, and to no other. */
  lemma OutcomeReachesItsRow(trace: seq<State>, actions: seq<Action>, a: Action)
    requires Run(trace, actions) && (a.WriteSuccess? || a.WriteFailure?) && Enabled(trace[|actions|], a)
    ensures var s := trace[|actions|];
            var key := s.calls[a.c].key;
            && key in s.rows
            && Step(s, a).rows == s.rows[key := Row(s.rows[key].id, if a.WriteSuccess? then Success else Failed,
                                                   if a.WriteSuccess? then 0 else s.rows[key].retry + 1)]
  {
    RunKeepsInv(trace, actions);
    var s := trace[|actions|];
    var Call(key, p) := s.calls[a.c];
    assert CallOk(s, a.c) && KeyOk(s, key);
    UpdateOwnRow(s.rows, key, if a.WriteSuccess? then Success else Failed, if a.WriteSuccess? then 0 else p.retry);
  }

  /** A call goes on after looking exactly when no row says that its key is pending or running; otherwise it
      leaves, and nothing else changes. */
  lemma LooksExactly(s: State, c: Caller)
    requires Enabled(s, Look(c))
    ensures var s' := Step(s, Look(c));
            var key := s.calls[c].key;
            && (Enabled(s', ReadRetry(c)) <==>
                  !(key in s.rows && (s.rows[key].state == Pending || s.rows[key].state == Running)))
            && (Enabled(s', ReadRetry(c)) || Enabled(s', Leave(c)))
            && s' == s.(calls := s'.calls)
  {
  }

  function Exec(s: State, actions: seq<Action>): Option<State> {
    if actions == [] then Some(s)
    else
      var last := |actions| - 1;
      var p := Exec(s, actions[..last]);
      if p.Some? && Enabled(p.value, actions[last]) then Some(Step(p.value, actions[last])) else None
  }

  lemma ExecSnoc(s: State, actions: seq<Action>, a: Action)
    requires Exec(s, actions).Some? && Enabled(Exec(s, actions).value, a)
    ensures Exec(s, actions + [a]) == Some(Step(Exec(s, actions).value, a))
  {
    TakeAppend(actions, [a]);
  }

  /** A call holds the key, and has read how often it failed. */
  lemma CallReady(s: State, c: Caller, key: Key, id: string) returns (actions: seq<Action>)
    requires Free(s, c, key, id)
    ensures Exec(s, actions) == Some(s.(inflight := s.inflight + {key}, owner := s.owner[key := c],
                                        calls := s.calls[c := Call(key, Ready(FailuresSince(s.log, key)))]))
  {
    assert KeyOk(s, key);
    actions := [];
    ExecSnoc(s, actions, Enter(c, key));
    actions := actions + [Enter(c, key)];
    ExecSnoc(s, actions, Look(c));
    actions := actions + [Look(c)];
    ExecSnoc(s, actions, ReadRetry(c));
    actions := actions + [ReadRetry(c)];
    var claimed: map<Caller, Call> := s.calls[c := Call(key, Claimed)];
    assert claimed[c := Call(key, Cleared)][c := Call(key, Ready(FailuresSince(s.log, key)))]
           == s.calls[c := Call(key, Ready(FailuresSince(s.log, key)))];
  }

  /** And now its row says that it is running. */
  lemma BodyStarts(s: State, c: Caller, key: Key, id: string) returns (actions: seq<Action>)
    requires Free(s, c, key, id)
    ensures Exec(s, actions).Some?
    ensures var t := Exec(s, actions).value;
            && t.rows == s.rows[key := Row(id, Running, FailuresSince(s.log, key))] && t.log == s.log
            && t.inflight == s.inflight + {key} && t.owner == s.owner[key := c]
            && t.calls == s.calls[c := Call(key, InBody(id))] && t.marked == s.marked
  {
    actions := CallReady(s, c, key, id);
    ExecSnoc(s, actions, Insert(c, id));
    actions := actions + [Insert(c, id)];
    var ready: map<Caller, Call> := s.calls[c := Call(key, Ready(FailuresSince(s.log, key)))];
    assert ready[c := Call(key, InBody(id))] == s.calls[c := Call(key, InBody(id))];
  }

  ghost predicate AtBody(s: State, c: Caller, key: Key, id: string) {
    c in s.calls && s.calls[c] == Call(key, InBody(id)) && IdsUnique(s.rows) && key in s.rows && s.rows[key].id == id
  }

  /** A state in which the call has written the outcome and answered. */
  function Ended(s: State, c: Caller, key: Key, row: Row, ok: bool): State {
    State(s.rows[key := row], s.inflight - {key}, s.calls[c := Call(key, Answered)], s.owner - {key},
          s.log + [(key, ok)], s.marked)
  }

  lemma BodySucceeds(s: State, before: seq<Action>, c: Caller, key: Key, id: string) returns (actions: seq<Action>)
    requires Exec(s, before).Some? && AtBody(Exec(s, before).value, c, key, id)
    ensures Exec(s, actions) == Some(Ended(Exec(s, before).value, c, key, Row(id, Success, 0), true))
    ensures BodyEnds(c, true) in actions
  {
    var t := Exec(s, before).value;
    UpdateOwnRow(t.rows, key, Success, 0);
    ExecSnoc(s, before, BodyEnds(c, true));
    actions := before + [BodyEnds(c, true)];
    ExecSnoc(s, actions, WriteSuccess(c));
    actions := actions + [WriteSuccess(c)];
    ExecSnoc(s, actions, Leave(c));
    actions := actions + [Leave(c)];
    assert t.calls[c := Call(key, Answered)] == Exec(s, actions).value.calls;
  }

  lemma BodyFails(s: State, before: seq<Action>, c: Caller, key: Key, id: string) returns (actions: seq<Action>)
    requires Exec(s, before).Some? && AtBody(Exec(s, before).value, c, key, id)
    ensures var t := Exec(s, before).value;
            Exec(s, actions) == Some(Ended(t, c, key, Row(id, Failed, t.rows[key].retry + 1), false))
    ensures BodyEnds(c, false) in actions
  {
    var t := Exec(s, before).value;
    ExecSnoc(s, before, BodyEnds(c, false));
    actions := before + [BodyEnds(c, false)];
    ExecSnoc(s, actions, CountFailure(c));
    actions := actions + [CountFailure(c)];
    assert Exec(s, actions).value == t.(calls := t.calls[c := Call(key, Counted(id, t.rows[key].retry + 1))]);
    assert BodyEnds(c, false) in actions;
    FailureWritten(s, actions, t, c, key, id);
    actions := actions + [WriteFailure(c), Leave(c)];
  }

  lemma FailureWritten(s: State, before: seq<Action>, t: State, c: Caller, key: Key, id: string)
    requires AtBody(t, c, key, id)
    requires Exec(s, before) == Some(t.(calls := t.calls[c := Call(key, Counted(id, t.rows[key].retry + 1))]))
    ensures Exec(s, before + [WriteFailure(c), Leave(c)])
            == Some(Ended(t, c, key, Row(id, Failed, t.rows[key].retry + 1), false))
  {
    UpdateOwnRow(t.rows, key, Failed, t.rows[key].retry + 1);
    ExecSnoc(s, before, WriteFailure(c));
    ExecSnoc(s, before + [WriteFailure(c)], Leave(c));
    assert before + [WriteFailure(c)] + [Leave(c)] == before + [WriteFailure(c), Leave(c)];
    var counted: map<Caller, Call> := t.calls[c := Call(key, Counted(id, t.rows[key].retry + 1))];
    assert counted[c := Call(key, Leaving)][c := Call(key, Answered)] == t.calls[c := Call(key, Answered)];
  }

  /** A new call whose key is free, in a reachable state, with an id that no other row has. */
  ghost predicate Free(s: State, c: Caller, key: Key, id: string) {
    && Inv(s) && c !in s.calls && key !in s.inflight
    && (key in s.rows ==> s.rows[key].state != Running && s.rows[key].state != Pending)
    && forall k :: k in s.rows && s.rows[k].id == id ==> k == key
  }

  /** The call has written this row and outcome, and the key is free again. */
  ghost predicate Done(s: State, t: State, c: Caller, key: Key, row: Row, ok: bool) {
    && t.rows == s.rows[key := row] && t.log == s.log + [(key, ok)] && t.inflight == s.inflight
    && t.calls == s.calls[c := Call(key, Answered)] && t.marked == s.marked
  }

  /** From every reachable state, a call whose key is free can run its body to the end: one that works clears
      the count of failures, one that fails adds to it. */
  lemma OneCallSucceeds(s: State, c: Caller, key: Key, id: string) returns (actions: seq<Action>)
    requires Free(s, c, key, id)
    ensures Exec(s, actions).Some? && BodyEnds(c, true) in actions
    ensures Done(s, Exec(s, actions).value, c, key, Row(id, Success, 0), true)
  {
    actions := BodyStarts(s, c, key, id);
    var t := Exec(s, actions).value;
    IdStaysUnique(s.rows, key, id, FailuresSince(s.log, key));
    EndsAsBegun(s, t, c, key, id, Row(id, Success, 0), true);
    actions := BodySucceeds(s, actions, c, key, id);
  }

  lemma OneCallFails(s: State, c: Caller, key: Key, id: string) returns (actions: seq<Action>)
    requires Free(s, c, key, id)
    ensures Exec(s, actions).Some? && BodyEnds(c, false) in actions
    ensures Done(s, Exec(s, actions).value, c, key, Row(id, Failed, FailuresSince(s.log, key) + 1), false)
  {
    actions := BodyStarts(s, c, key, id);
    var t := Exec(s, actions).value;
    IdStaysUnique(s.rows, key, id, FailuresSince(s.log, key));
    EndsAsBegun(s, t, c, key, id, Row(id, Failed, FailuresSince(s.log, key) + 1), false);
    actions := BodyFails(s, actions, c, key, id);
  }

  lemma EndsAsBegun(s: State, t: State, c: Caller, key: Key, id: string, row: Row, ok: bool)
    requires t.rows == s.rows[key := Row(id, Running, FailuresSince(s.log, key))] && key !in s.inflight
    requires t.inflight == s.inflight + {key} && t.log == s.log && t.calls == s.calls[c := Call(key, InBody(id))]
    requires t.marked == s.marked
    ensures Done(s, Ended(t, c, key, row, ok), c, key, row, ok)
  {
  }

  lemma IdStaysUnique(rows: Rows, key: Key, id: string, retry: nat)
    requires IdsUnique(rows) && forall k :: k in rows && rows[k].id == id ==> k == key
    ensures IdsUnique(rows[key := Row(id, Running, retry)])
  {
  }

  /** Whether leftovers have been marked since the last restart. */
  function MarkedSince(actions: seq<Action>): bool {
    actions != [] &&
    var last := actions[|actions| - 1];
    last.MarkInterrupted? || (!last.Restart? && MarkedSince(actions[..|actions| - 1]))
  }

  lemma RunPrefix(trace: seq<State>, actions: seq<Action>)
    requires Run(trace, actions) && actions != []
    ensures Run(trace[..|actions|], actions[..|actions| - 1])
  {
  }

  lemma {:induction false} MarkedTold(trace: seq<State>, actions: seq<Action>)
    requires Run(trace, actions)
    ensures trace[|actions|].marked <==> MarkedSince(actions)
    decreases |actions|
  {
    if actions != [] {
      var n := |actions| - 1;
      RunPrefix(trace, actions);
      MarkedTold(trace[..n + 1], actions[..n]);
      assert trace[n + 1] == Step(trace[n], actions[n]);
    }
  }

  // ---- every call answers ----

  /** How many steps a call has left at most. */
  function Left(p: Phase): nat {
    match p
    case Claimed => 8
    case Cleared => 7
    case Ready(_) => 6
    case InBody(_) => 5
    case Failing(_) => 4
    case Succeeded(_) => 3
    case Counted(_, _) => 3
    case Leaving => 1
    case Answered => 0
  }

  /** Every step of a call that has entered brings it nearer to its answer, and until then one is possible. */
  lemma CallsGoForward(s: State, a: Action)
    requires Enabled(s, a) && !a.Enter? && !a.Restart? && !a.MarkInterrupted?
    ensures a.c in Step(s, a).calls && Left(Step(s, a).calls[a.c].phase) < Left(s.calls[a.c].phase)
  {
  }

  lemma CallsNeverStick(s: State, c: Caller)
    requires c in s.calls && !s.calls[c].phase.Answered?
    ensures exists a: Action :: !a.Enter? && !a.Restart? && !a.MarkInterrupted? && a.c == c && Enabled(s, a)
  {
    match s.calls[c].phase
    case Claimed => assert Enabled(s, Look(c));
    case Cleared => assert Enabled(s, ReadRetry(c));
    case Ready(_) => assert Enabled(s, InsertFails(c));
    case InBody(_) => assert Enabled(s, BodyEnds(c, true));
    case Failing(_) => assert Enabled(s, CountFailure(c));
    case Succeeded(_) => assert Enabled(s, WriteSuccess(c));
    case Counted(_, _) => assert Enabled(s, WriteFailure(c));
    case Leaving => assert Enabled(s, Leave(c));
  }

  // ---- backoff ----

  /** Five minutes, in nanoseconds. */
  const MAX_BACKOFF := 300_000_000_000

  function Pow2(n: nat): (r: nat)
    ensures r >= 1
  {
    if n == 0 then 1 else 2 * Pow2(n - 1)
  }

  function Min(a: int, b: int): int {
    if a < b then a else b
  }

  function Backoff(base: int, retry: int): int {
    if retry <= 0 then base
    else
      var d := base * Pow2(Min(retry, 5));
      if d > MAX_BACKOFF then MAX_BACKOFF else d
  }

  lemma {:induction false} Pow2Grows(m: nat, n: nat)
    requires m <= n
    ensures Pow2(m) <= Pow2(n)
    decreases n
  {
    if m < n {
      Pow2Grows(m, n - 1);
    }
  }

  lemma Multiply(base: int, m: int, n: int)
    requires base >= 0 && m <= n
    ensures base * m <= base * n
  {
  }

  /** For a base of at most five minutes the delay is the base doubled once per retry, five times at
      most, and never more than five minutes. */
  lemma BackoffMeaning(base: int, retry: int)
    requires 0 <= base <= MAX_BACKOFF
    ensures Backoff(base, retry) == Min(base * Pow2(if retry <= 0 then 0 else Min(retry, 5)), MAX_BACKOFF)
    ensures base <= Backoff(base, retry) <= MAX_BACKOFF
  {
    if retry > 0 {
      Multiply(base, 1, Pow2(Min(retry, 5)));
    }
  }

  ghost predicate Monotone(base: int) {
    forall r, r' :: r <= r' ==> Backoff(base, r) <= Backoff(base, r')
  }

  lemma BackoffGrows(base: int, r: int, r': int)
    requires 0 <= base <= MAX_BACKOFF && r <= r'
    ensures Backoff(base, r) <= Backoff(base, r')
  {
    BackoffMeaning(base, r);
    BackoffMeaning(base, r');
    if r > 0 {
      Pow2Grows(Min(r, 5), Min(r', 5));
      Multiply(base, Pow2(Min(r, 5)), Pow2(Min(r', 5)));
    }
  }

  /** Delays never shrink as failures add up exactly when the base is between nothing and five minutes:
      the first delay is not capped, and a negative base doubles away from zero. */
  lemma MonotoneExactly(base: int)
    ensures Monotone(base) <==> 0 <= base <= MAX_BACKOFF
  {
    if 0 <= base <= MAX_BACKOFF {
      forall r, r' | r <= r' ensures Backoff(base, r) <= Backoff(base, r') {
        BackoffGrows(base, r, r');
      }
    } else {
      assert Pow2(1) == 2;
      assert Backoff(base, 1) < Backoff(base, 0);
    }
  }
}
