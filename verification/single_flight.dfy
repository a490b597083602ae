/** Every interleaving of the callers of Refresh. One action is what a caller does while it holds the
    mutex, one vault call, one request to the token endpoint, one write of a call record, one channel
    close or one channel receive. */
module SingleFlight {
  import opened Prelude
  import opened Vaults

  type Key = string

  /** One invocation of Refresh. */
  type Caller = nat

  /** owner tells which refresh key the secrets of an account coordinate belong to. */
  datatype Env = Env(addressing: Addressing, owner: string -> Key)

  /** An in-flight call record: result is None until the creator writes it. */
  datatype Call = Call(key: Key, creator: Caller, result: Option<Outcome>, closed: bool)

  /** Where a caller is. The creator of a call goes from Loading to Finished; whoever finds a call
      in the map goes from Waiting to Woken. before is the key's own part of the vault on entry. */
  datatype Pc =
    | Loading(call: nat, q: Request, before: Db)
    | Exchanging(call: nat, q: Request, before: Db, was: Bundle, now: int)
    | Storing(call: nat, q: Request, before: Db, was: Bundle, now: int, minted: Bundle)
    | Deleting(call: nat, q: Request, before: Db, was: Bundle, now: int, minted: Bundle)
    | Returned(call: nat, q: Request, before: Db, i: Inputs, out: Outcome)
    | Unmapped(call: nat, out: Outcome)
    | Published(call: nat, out: Outcome)
    | Finished(call: nat, out: Outcome)
    | Waiting(call: nat)
    | Woken(call: nat, read: Option<Outcome>)
  {
    predicate Creator() { !Waiting? && !Woken? }

    /** From insertion into the in-flight map until removal from it. */
    predicate Active() { Loading? || Exchanging? || Storing? || Deleting? || Returned? }

    /** Inside refreshOnce. */
    predicate Inside() { Loading? || Exchanging? || Storing? || Deleting? }
  }

  /** issued, exchanged and spoiled are history: the bundles ever seen, how often each was traded in
      successfully, and those traded in whose replacement was not stored or that were not deleted. */
  datatype State = State(inflight: map<Key, nat>, calls: seq<Call>, pcs: map<Caller, Pc>, db: Db,
                         issued: set<Bundle>, exchanged: multiset<Bundle>, spoiled: set<Bundle>)

  datatype Action =
    | Enter(t: Caller, key: Key, q: Request)
    | Load(t: Caller, readable: bool, now: int)
    | Exchange(t: Caller, answer: Answer)
    | Store(t: Caller, ok: bool)
    | Delete(t: Caller, ok: bool)
    | Unmap(t: Caller)
    | Publish(t: Caller)
    | Close(t: Caller)
    | Wake(t: Caller)

  /** The part of the vault that belongs to a key. */
  function Own(e: Env, db: Db, key: Key): Db {
    map s | s in db && e.owner(s.account) == key :: db[s]
  }

  /** Callers pass the stored coordinates of the account the key names, however old they are; the
      token endpoint never issues a bundle twice; a receive blocks until the channel is closed. */
  predicate Enabled(e: Env, s: State, a: Action) {
    match a
    case Enter(t, key, q) =>
      t !in s.pcs && q.ref == Slot(q.service, q.account) && e.owner(q.account) == key
    case Load(t, _, _) => t in s.pcs && s.pcs[t].Loading?
    case Exchange(t, answer) =>
      t in s.pcs && s.pcs[t].Exchanging? && (answer.Granted? ==> answer.bundle !in s.issued)
    case Store(t, _) => t in s.pcs && s.pcs[t].Storing?
    case Delete(t, _) => t in s.pcs && s.pcs[t].Deleting?
    case Unmap(t) => t in s.pcs && s.pcs[t].Returned? && s.pcs[t].call < |s.calls|
    case Publish(t) => t in s.pcs && s.pcs[t].Unmapped? && s.pcs[t].call < |s.calls|
    case Close(t) => t in s.pcs && s.pcs[t].Published? && s.pcs[t].call < |s.calls|
    case Wake(t) =>
      t in s.pcs && s.pcs[t].Waiting? && s.pcs[t].call < |s.calls| && s.calls[s.pcs[t].call].closed
  }

  function Step(e: Env, s: State, a: Action): State
    requires Enabled(e, s, a)
  {
    match a
    case Enter(t, key, q) =>
      if key in s.inflight then
        s.(pcs := s.pcs[t := Waiting(s.inflight[key])])
      else
        s.(calls := s.calls + [Call(key, t, None, false)],
           inflight := s.inflight[key := |s.calls|],
           pcs := s.pcs[t := Loading(|s.calls|, q, Own(e, s.db, key))])
    case Load(t, readable, now) =>
      var Loading(c, q, before) := s.pcs[t];
      var i := Inputs(readable, now, Denied(RefreshFailed), false, false);
      if readable && q.ref in s.db && s.db[q.ref].Encoded? && NeedsRefresh(s.db[q.ref].bundle.expires, now) then
        s.(pcs := s.pcs[t := Exchanging(c, q, before, s.db[q.ref].bundle, now)])
      else
        s.(pcs := s.pcs[t := Returned(c, q, before, i, RefreshOnce(e.addressing, s.db, q, i).1)])
    case Exchange(t, answer) =>
      var Exchanging(c, q, before, was, now) := s.pcs[t];
      if Grants(was, answer) then
        s.(issued := s.issued + {answer.bundle}, exchanged := s.exchanged + multiset{was},
           pcs := s.pcs[t := Storing(c, q, before, was, now, answer.bundle)])
      else
        var out := Outcome(q.ref, Some(was), Some(Refusal(was, answer)));
        s.(pcs := s.pcs[t := Returned(c, q, before, Inputs(true, now, answer, false, false), out)])
    case Store(t, ok) =>
      var Storing(c, q, before, was, now, minted) := s.pcs[t];
      if ok then
        s.(db := s.db[StoredSlot(e.addressing, q.service, q.account) := Encoded(minted)],
           pcs := s.pcs[t := Deleting(c, q, before, was, now, minted)])
      else
        var out := Outcome(q.ref, Some(was), Some(StoreFailed));
        s.(spoiled := s.spoiled + {was},
           pcs := s.pcs[t := Returned(c, q, before, Inputs(true, now, Granted(minted), false, false), out)])
    case Delete(t, ok) =>
      var Deleting(c, q, before, was, now, minted) := s.pcs[t];
      var out := Outcome(StoredSlot(e.addressing, q.service, q.account), Some(minted), None);
      s.(db := if ok then s.db - {q.ref} else s.db,
         spoiled := if ok then s.spoiled else s.spoiled + {was},
         pcs := s.pcs[t := Returned(c, q, before, Inputs(true, now, Granted(minted), true, ok), out)])
    case Unmap(t) =>
      var key := s.calls[s.pcs[t].call].key;
      s.(inflight := if key in s.inflight && s.inflight[key] == s.pcs[t].call then s.inflight - {key} else s.inflight,
         pcs := s.pcs[t := Unmapped(s.pcs[t].call, s.pcs[t].out)])
    case Publish(t) =>
      var c := s.pcs[t].call;
      s.(calls := s.calls[c := s.calls[c].(result := Some(s.pcs[t].out))],
         pcs := s.pcs[t := Published(c, s.pcs[t].out)])
    case Close(t) =>
      var c := s.pcs[t].call;
      s.(calls := s.calls[c := s.calls[c].(closed := true)], pcs := s.pcs[t := Finished(c, s.pcs[t].out)])
    case Wake(t) =>
      var c := s.pcs[t].call;
      s.(pcs := s.pcs[t := Woken(c, s.calls[c].result)])
  }

  /** A vault whose decodable bundles are distinct, and no caller yet. */
  ghost predicate Initial(s: State) {
    && s.inflight == map[] && s.calls == [] && s.pcs == map[]
    && s.exchanged == multiset{} && s.spoiled == {}
    && StoredKnown(s) && StoredOnce(s)
  }

  /** The state after the actions in turn, or None when one of them is not enabled. */
  function Run(e: Env, s: State, actions: seq<Action>): Option<State> {
    if actions == [] then Some(s)
    else
      var last := |actions| - 1;
      var p := Run(e, s, actions[..last]);
      if p.Some? && Enabled(e, p.value, actions[last]) then Some(Step(e, p.value, actions[last])) else None
  }

  // ---- what every reachable state satisfies ----

  /** A call record has one creator, which is past its creation; the map leads to the record until that
      creator removes it; the record is written before it is closed, with what the creator returns. */
  ghost predicate CallOk(s: State, c: nat)
    requires c < |s.calls|
  {
    var call := s.calls[c];
    && call.creator in s.pcs
    && var pc := s.pcs[call.creator];
    && pc.Creator() && pc.call == c
    && (pc.Active() ==> call.key in s.inflight && s.inflight[call.key] == c)
    && (call.closed <==> pc.Finished?)
    && (call.result.Some? <==> pc.Published? || pc.Finished?)
    && (call.result.Some? ==> call.result.value == pc.out)
  }

  /** The map holds only calls whose creator has not removed them yet. */
  ghost predicate KeyOk(s: State, k: Key)
    requires k in s.inflight
  {
    && s.inflight[k] < |s.calls| && s.calls[s.inflight[k]].key == k
    && s.calls[s.inflight[k]].creator in s.pcs && s.pcs[s.calls[s.inflight[k]].creator].Active()
  }

  /** A creator owns its record; a woken caller has read a closed record. */
  ghost predicate CallerOk(s: State, t: Caller)
    requires t in s.pcs
  {
    && s.pcs[t].call < |s.calls|
    && (s.pcs[t].Creator() ==> s.calls[s.pcs[t].call].creator == t)
    && (s.pcs[t].Woken? ==> s.calls[s.pcs[t].call].closed && s.pcs[t].read == s.calls[s.pcs[t].call].result)
  }

  ghost predicate Protocol(s: State) {
    && (forall c: nat :: c < |s.calls| ==> CallOk(s, c))
    && (forall k :: k in s.inflight ==> KeyOk(s, k))
    && (forall t :: t in s.pcs ==> CallerOk(s, t))
  }

  /** A creator works for the key that owns its coordinates. */
  ghost predicate KeyMatches(e: Env, s: State, t: Caller)
    requires t in s.pcs
  {
    s.pcs[t].Active() ==>
      && s.pcs[t].call < |s.calls| && s.pcs[t].q.ref == Slot(s.pcs[t].q.service, s.pcs[t].q.account)
      && e.owner(s.pcs[t].q.account) == s.calls[s.pcs[t].call].key
  }

  ghost predicate KeysMatch(e: Env, s: State) {
    forall t :: t in s.pcs ==> KeyMatches(e, s, t)
  }

  /** While a creator is at work, its key's part of the vault is what it was on entry, changed only by
      this creator; when it returns, vault part and outcome are those of an undisturbed refresh. */
  ghost predicate Undisturbed(e: Env, s: State) {
    forall t :: t in s.pcs ==> ProgressOk(e, s, t)
  }

  ghost predicate ProgressOk(e: Env, s: State, t: Caller)
    requires t in s.pcs
  {
    s.pcs[t].Active() ==> Progress(e, s.db, s.pcs[t])
  }

  ghost predicate Progress(e: Env, db: Db, pc: Pc)
    requires pc.Active()
  {
    var own := Own(e, db, e.owner(pc.q.account));
    match pc
    case Loading(_, _, before) => own == before
    case Exchanging(_, q, before, was, now) => own == before && MustTrade(before, q, was, now)
    case Storing(_, q, before, was, now, minted) =>
      own == before && MustTrade(before, q, was, now) && was.refresh != ""
    case Deleting(_, q, before, was, now, minted) =>
      && own == before[StoredSlot(e.addressing, q.service, q.account) := Encoded(minted)]
      && MustTrade(before, q, was, now) && was.refresh != ""
    case Returned(_, q, before, i, out) => (own, out) == RefreshOnce(e.addressing, before, q, i)
  }

  ghost predicate MustTrade(before: Db, q: Request, was: Bundle, now: int) {
    q.ref in before && before[q.ref] == Encoded(was) && NeedsRefresh(was.expires, now)
  }

  ghost predicate StoredKnown(s: State) {
    forall x :: x in s.db && s.db[x].Encoded? ==> s.db[x].bundle in s.issued
  }

  ghost predicate StoredOnce(s: State) {
    forall x, y :: x in s.db && y in s.db && s.db[x].Encoded? && s.db[x] == s.db[y] ==> x == y
  }

  /** Whatever was traded in is known. */
  ghost predicate TradedKnown(s: State) {
    forall b :: b in s.exchanged ==> b in s.issued
  }

  /** A new bundle has never been traded in; until it is stored it is nowhere in the vault. */
  ghost predicate MintedOk(e: Env, s: State, t: Caller)
    requires t in s.pcs
  {
    && (s.pcs[t].Storing? || s.pcs[t].Deleting? ==> s.pcs[t].minted in s.issued && s.pcs[t].minted !in s.exchanged)
    && (s.pcs[t].Storing? ==> forall x :: x in s.db ==> s.db[x] != Encoded(s.pcs[t].minted))
  }

  ghost predicate MintedApart(s: State, t: Caller, u: Caller)
    requires t in s.pcs && u in s.pcs
  {
    s.pcs[t].Storing? && s.pcs[u].Storing? && t != u ==> s.pcs[t].minted != s.pcs[u].minted
  }

  /** The slot is being emptied: its creator has traded its bundle in and has not finished yet. */
  ghost predicate BeingReplaced(e: Env, s: State, x: Slot) {
    var k := e.owner(x.account);
    && k in s.inflight && s.inflight[k] < |s.calls| && s.calls[s.inflight[k]].creator in s.pcs
    && var pc := s.pcs[s.calls[s.inflight[k]].creator];
    && (pc.Storing? || pc.Deleting?) && pc.q.ref == x
  }

  /** A traded-in bundle that is still in the vault is spoiled or about to go. */
  ghost predicate TradedOk(e: Env, s: State, x: Slot)
    requires x in s.db
  {
    s.db[x].Encoded? && s.db[x].bundle in s.exchanged ==>
      s.db[x].bundle in s.spoiled || BeingReplaced(e, s, x)
  }

  ghost predicate TradedOnce(s: State) {
    forall b :: b in s.exchanged ==> s.exchanged[b] <= 1 || b in s.spoiled
  }

  ghost predicate Rotation(e: Env, s: State) {
    && StoredKnown(s) && StoredOnce(s) && TradedKnown(s) && TradedOnce(s)
    && (forall t :: t in s.pcs ==> MintedOk(e, s, t))
    && (forall t, u :: t in s.pcs && u in s.pcs ==> MintedApart(s, t, u))
    && (forall x :: x in s.db ==> TradedOk(e, s, x))
  }

  ghost predicate Inv(e: Env, s: State) {
    Protocol(s) && KeysMatch(e, s) && Undisturbed(e, s) && Rotation(e, s)
  }

  // ---- the map and the call records ----

  /** An action by which a creator only moves on inside refreshOnce. */
  ghost predicate Advances(s: State, s': State, t: Caller) {
    && t in s.pcs && s.pcs[t].Inside() && t in s'.pcs && s'.pcs[t].Active()
    && s'.pcs[t].call == s.pcs[t].call && s'.pcs[t].q == s.pcs[t].q
    && s'.pcs == s.pcs[t := s'.pcs[t]] && s'.calls == s.calls && s'.inflight == s.inflight
  }

  lemma InsideAdvances(e: Env, s: State, a: Action)
    requires Enabled(e, s, a) && (a.Load? || a.Exchange? || a.Store? || a.Delete?)
    ensures Advances(s, Step(e, s, a), a.t)
  {
  }

  lemma AdvanceKeepsCalls(s: State, s': State, t: Caller, c: nat)
    requires Protocol(s) && Advances(s, s', t) && c < |s.calls|
    ensures CallOk(s', c)
  {
    assert CallOk(s, c);
    assert CallerOk(s, t);
  }

  lemma StepKeepsCalls(e: Env, s: State, a: Action, c: nat)
    requires Protocol(s) && Enabled(e, s, a) && c < |Step(e, s, a).calls|
    ensures CallOk(Step(e, s, a), c)
  {
    if a.Load? || a.Exchange? || a.Store? || a.Delete? {
      InsideAdvances(e, s, a);
      AdvanceKeepsCalls(s, Step(e, s, a), a.t, c);
    } else {
      if c < |s.calls| {
        assert CallOk(s, c);
      }
      if !a.Enter? {
        assert CallerOk(s, a.t);
        assert CallOk(s, s.pcs[a.t].call);
      }
    }
  }

  lemma AdvanceKeepsMap(s: State, s': State, t: Caller, k: Key)
    requires Protocol(s) && Advances(s, s', t) && k in s'.inflight
    ensures KeyOk(s', k)
  {
    assert KeyOk(s, k);
  }

  lemma EnterKeepsMap(e: Env, s: State, a: Action, k: Key)
    requires Protocol(s) && Enabled(e, s, a) && a.Enter? && k in Step(e, s, a).inflight
    ensures KeyOk(Step(e, s, a), k)
  {
    if k in s.inflight {
      assert KeyOk(s, k);
    }
  }

  lemma LeaveKeepsMap(e: Env, s: State, a: Action, k: Key)
    requires Protocol(s) && Enabled(e, s, a) && k in Step(e, s, a).inflight
    requires a.Unmap? || a.Publish? || a.Close? || a.Wake?
    ensures KeyOk(Step(e, s, a), k)
  {
    assert KeyOk(s, k);
    assert CallOk(s, s.inflight[k]);
    assert CallerOk(s, a.t);
  }

  lemma StepKeepsMap(e: Env, s: State, a: Action, k: Key)
    requires Protocol(s) && Enabled(e, s, a) && k in Step(e, s, a).inflight
    ensures KeyOk(Step(e, s, a), k)
  {
    if a.Load? || a.Exchange? || a.Store? || a.Delete? {
      InsideAdvances(e, s, a);
      AdvanceKeepsMap(s, Step(e, s, a), a.t, k);
    } else if a.Enter? {
      EnterKeepsMap(e, s, a, k);
    } else {
      LeaveKeepsMap(e, s, a, k);
    }
  }

  lemma AdvanceKeepsCallers(s: State, s': State, t: Caller, u: Caller)
    requires Protocol(s) && Advances(s, s', t) && u in s'.pcs
    ensures CallerOk(s', u)
  {
    assert CallerOk(s, u);
  }

  lemma EnterKeepsCallers(e: Env, s: State, a: Action, t: Caller)
    requires Protocol(s) && Enabled(e, s, a) && a.Enter? && t in Step(e, s, a).pcs
    ensures CallerOk(Step(e, s, a), t)
  {
    if a.key in s.inflight {
      assert KeyOk(s, a.key);
    }
    if t in s.pcs {
      assert CallerOk(s, t);
    }
  }

  lemma LeaveKeepsCallers(e: Env, s: State, a: Action, t: Caller)
    requires Protocol(s) && Enabled(e, s, a) && t in Step(e, s, a).pcs
    requires a.Unmap? || a.Publish? || a.Close? || a.Wake?
    ensures CallerOk(Step(e, s, a), t)
  {
    assert CallerOk(s, t) && CallerOk(s, a.t);
    assert CallOk(s, s.pcs[t].call);
    assert CallOk(s, s.pcs[a.t].call);
  }

  lemma StepKeepsCallers(e: Env, s: State, a: Action, t: Caller)
    requires Protocol(s) && Enabled(e, s, a) && t in Step(e, s, a).pcs
    ensures CallerOk(Step(e, s, a), t)
  {
    if a.Load? || a.Exchange? || a.Store? || a.Delete? {
      InsideAdvances(e, s, a);
      AdvanceKeepsCallers(s, Step(e, s, a), a.t, t);
    } else if a.Enter? {
      EnterKeepsCallers(e, s, a, t);
    } else {
      LeaveKeepsCallers(e, s, a, t);
    }
  }

  lemma StepKeepsProtocol(e: Env, s: State, a: Action)
    requires Protocol(s) && Enabled(e, s, a)
    ensures Protocol(Step(e, s, a))
  {
    var s' := Step(e, s, a);
    forall c: nat | c < |s'.calls| ensures CallOk(s', c) { StepKeepsCalls(e, s, a, c); }
    forall k | k in s'.inflight ensures KeyOk(s', k) { StepKeepsMap(e, s, a, k); }
    forall t | t in s'.pcs ensures CallerOk(s', t) { StepKeepsCallers(e, s, a, t); }
  }

  lemma AdvanceKeepsKeys(e: Env, s: State, s': State, t: Caller, u: Caller)
    requires Protocol(s) && KeysMatch(e, s) && Advances(s, s', t) && u in s'.pcs
    ensures KeyMatches(e, s', u)
  {
    assert KeyMatches(e, s, u);
  }

  lemma EnterKeepsKeys(e: Env, s: State, a: Action, t: Caller)
    requires Protocol(s) && KeysMatch(e, s) && Enabled(e, s, a) && a.Enter? && t in Step(e, s, a).pcs
    ensures KeyMatches(e, Step(e, s, a), t)
  {
    if t in s.pcs {
      assert KeyMatches(e, s, t);
      assert CallerOk(s, t);
    }
  }

  lemma LeaveKeepsKeys(e: Env, s: State, a: Action, t: Caller)
    requires Protocol(s) && KeysMatch(e, s) && Enabled(e, s, a) && t in Step(e, s, a).pcs
    requires a.Unmap? || a.Publish? || a.Close? || a.Wake?
    ensures KeyMatches(e, Step(e, s, a), t)
  {
    assert KeyMatches(e, s, t) && CallerOk(s, t);
    assert t != a.t ==> Step(e, s, a).pcs[t] == s.pcs[t];
    assert Step(e, s, a).calls[s.pcs[t].call].key == s.calls[s.pcs[t].call].key;
  }

  lemma StepKeepsKeys(e: Env, s: State, a: Action)
    requires Protocol(s) && KeysMatch(e, s) && Enabled(e, s, a)
    ensures KeysMatch(e, Step(e, s, a))
  {
    var s' := Step(e, s, a);
    forall t | t in s'.pcs ensures KeyMatches(e, s', t) {
      if a.Load? || a.Exchange? || a.Store? || a.Delete? {
        InsideAdvances(e, s, a);
        AdvanceKeepsKeys(e, s, s', a.t, t);
      } else if a.Enter? {
        EnterKeepsKeys(e, s, a, t);
      } else {
        LeaveKeepsKeys(e, s, a, t);
      }
    }
  }

  // ---- one key's refreshes do not disturb another's ----

  lemma ActiveKeysDiffer(e: Env, s: State, t: Caller, u: Caller)
    requires Protocol(s) && KeysMatch(e, s) && t in s.pcs && u in s.pcs && t != u
    requires s.pcs[t].Active() && s.pcs[u].Active()
    ensures e.owner(s.pcs[t].q.account) != e.owner(s.pcs[u].q.account)
  {
    assert KeyMatches(e, s, t) && KeyMatches(e, s, u);
    assert CallerOk(s, t) && CallerOk(s, u);
    assert CallOk(s, s.pcs[t].call) && CallOk(s, s.pcs[u].call);
  }

  lemma OthersSlotsKept(e: Env, s: State, a: Action, key: Key)
    requires Enabled(e, s, a)
    requires (a.Store? || a.Delete?) ==>
               s.pcs[a.t].q.ref.account == s.pcs[a.t].q.account && e.owner(s.pcs[a.t].q.account) != key
    ensures Own(e, Step(e, s, a).db, key) == Own(e, s.db, key)
  {
  }

  lemma OwnLoad(e: Env, s: State, a: Action)
    requires Undisturbed(e, s) && Enabled(e, s, a) && (a.Load? || a.Exchange?)
    requires KeysMatch(e, s)
    ensures ProgressOk(e, Step(e, s, a), a.t)
  {
    var pc := s.pcs[a.t];
    assert ProgressOk(e, s, a.t) && KeyMatches(e, s, a.t);
    assert pc.q.ref in s.db <==> pc.q.ref in pc.before;
  }

  lemma OwnStore(e: Env, s: State, a: Action)
    requires Undisturbed(e, s) && Enabled(e, s, a) && a.Store?
    requires KeysMatch(e, s)
    ensures ProgressOk(e, Step(e, s, a), a.t)
  {
    var pc := s.pcs[a.t];
    assert ProgressOk(e, s, a.t) && KeyMatches(e, s, a.t);
    var slot := StoredSlot(e.addressing, pc.q.service, pc.q.account);
    assert a.ok ==> Own(e, Step(e, s, a).db, e.owner(pc.q.account)) == pc.before[slot := Encoded(pc.minted)];
  }

  lemma OwnDelete(e: Env, s: State, a: Action)
    requires Undisturbed(e, s) && Enabled(e, s, a) && a.Delete?
    requires KeysMatch(e, s)
    ensures ProgressOk(e, Step(e, s, a), a.t)
  {
    var pc := s.pcs[a.t];
    assert ProgressOk(e, s, a.t) && KeyMatches(e, s, a.t);
    var slot := StoredSlot(e.addressing, pc.q.service, pc.q.account);
    assert a.ok ==>
      Own(e, Step(e, s, a).db, e.owner(pc.q.account)) == pc.before[slot := Encoded(pc.minted)] - {pc.q.ref};
  }

  lemma OwnStep(e: Env, s: State, a: Action)
    requires Protocol(s) && KeysMatch(e, s) && Undisturbed(e, s) && Enabled(e, s, a)
    ensures ProgressOk(e, Step(e, s, a), a.t)
  {
    match a
    case Load(_, _, _) => OwnLoad(e, s, a);
    case Exchange(_, _) => OwnLoad(e, s, a);
    case Store(_, _) => OwnStore(e, s, a);
    case Delete(_, _) => OwnDelete(e, s, a);
    case _ =>
  }

  lemma StepKeepsProgress(e: Env, s: State, a: Action)
    requires Protocol(s) && KeysMatch(e, s) && Undisturbed(e, s) && Enabled(e, s, a)
    ensures Undisturbed(e, Step(e, s, a))
  {
    var s' := Step(e, s, a);
    forall t | t in s'.pcs ensures ProgressOk(e, s', t) {
      if t == a.t {
        OwnStep(e, s, a);
      } else {
        assert ProgressOk(e, s, t);
        if s.pcs[t].Active() {
          if a.Store? || a.Delete? {
            ActiveKeysDiffer(e, s, t, a.t);
            assert KeyMatches(e, s, a.t);
          }
          OthersSlotsKept(e, s, a, e.owner(s.pcs[t].q.account));
        }
      }
    }
  }

  // ---- every bundle is traded in once ----

  /** What a creator about to trade in, store or delete knows of the vault. */
  lemma HeldBundle(e: Env, s: State, t: Caller)
    requires Protocol(s) && KeysMatch(e, s) && Undisturbed(e, s) && t in s.pcs
    requires s.pcs[t].Exchanging? || s.pcs[t].Storing? || s.pcs[t].Deleting?
    ensures var pc := s.pcs[t];
            var k := e.owner(pc.q.ref.account);
            && k in s.inflight && s.inflight[k] < |s.calls| && s.calls[s.inflight[k]].creator == t
            && pc.q.ref == Slot(pc.q.service, pc.q.account)
            && (!pc.Deleting? ==> pc.q.ref in s.db && s.db[pc.q.ref] == Encoded(pc.was))
            && (pc.Deleting? ==>
                  var slot := StoredSlot(e.addressing, pc.q.service, pc.q.account);
                  && slot in s.db && s.db[slot] == Encoded(pc.minted)
                  && (slot != pc.q.ref ==> pc.q.ref in s.db && s.db[pc.q.ref] == Encoded(pc.was)))
  {
    var pc := s.pcs[t];
    assert ProgressOk(e, s, t) && KeyMatches(e, s, t) && CallerOk(s, t) && CallOk(s, pc.call);
    var own := Own(e, s.db, e.owner(pc.q.account));
    assert forall x :: x in own ==> x in s.db && s.db[x] == own[x];
    if pc.Deleting? {
      var slot := StoredSlot(e.addressing, pc.q.service, pc.q.account);
      assert slot in own;
      assert slot != pc.q.ref ==> pc.q.ref in own;
    } else {
      assert pc.q.ref in own;
    }
  }

  /** Only the acting caller moves; only an exchange starts a store, only a store starts a delete. */
  lemma OnlyActorMoves(e: Env, s: State, a: Action)
    requires Enabled(e, s, a)
    ensures var s' := Step(e, s, a);
            && a.t in s'.pcs && s'.pcs == s.pcs[a.t := s'.pcs[a.t]] && s.issued <= s'.issued
            && (s'.pcs[a.t].Storing? ==>
                  a.Exchange? && s'.pcs[a.t].minted !in s.issued && s'.pcs[a.t].minted in s'.issued)
            && (s'.pcs[a.t].Deleting? ==>
                  a.Store? && s.pcs[a.t].Storing? && s'.pcs[a.t].minted == s.pcs[a.t].minted)
            && (!a.Exchange? ==> s'.exchanged == s.exchanged && s'.issued == s.issued)
            && (!a.Store? && !a.Delete? ==> s'.db == s.db && s'.spoiled == s.spoiled)
  {
  }

  lemma ExchangeKeepsStored(e: Env, s: State, a: Action)
    requires Inv(e, s) && Enabled(e, s, a) && a.Exchange?
    ensures var s' := Step(e, s, a); StoredKnown(s') && StoredOnce(s') && TradedKnown(s')
  {
    HeldBundle(e, s, a.t);
    OnlyActorMoves(e, s, a);
  }

  lemma StoreKeepsStored(e: Env, s: State, a: Action)
    requires Inv(e, s) && Enabled(e, s, a) && a.Store?
    ensures var s' := Step(e, s, a); StoredKnown(s') && StoredOnce(s') && TradedKnown(s')
  {
    assert MintedOk(e, s, a.t);
    OnlyActorMoves(e, s, a);
  }

  lemma StepKeepsStored(e: Env, s: State, a: Action)
    requires Inv(e, s) && Enabled(e, s, a)
    ensures var s' := Step(e, s, a); StoredKnown(s') && StoredOnce(s') && TradedKnown(s')
  {
    if a.Exchange? {
      ExchangeKeepsStored(e, s, a);
    } else if a.Store? {
      StoreKeepsStored(e, s, a);
    } else {
      OnlyActorMoves(e, s, a);
      assert forall x :: x in Step(e, s, a).db ==> x in s.db && Step(e, s, a).db[x] == s.db[x];
    }
  }

  lemma ActorKeepsMinted(e: Env, s: State, a: Action)
    requires Inv(e, s) && Enabled(e, s, a)
    ensures MintedOk(e, Step(e, s, a), a.t)
  {
    OnlyActorMoves(e, s, a);
    if a.Exchange? {
      HeldBundle(e, s, a.t);
    }
    if a.Store? {
      assert MintedOk(e, s, a.t);
    }
  }

  lemma ExchangeKeepsOthersMinted(e: Env, s: State, a: Action, t: Caller)
    requires Inv(e, s) && Enabled(e, s, a) && a.Exchange? && t in s.pcs && t != a.t
    ensures MintedOk(e, Step(e, s, a), t)
  {
    OnlyActorMoves(e, s, a);
    assert MintedOk(e, s, t);
    if s.pcs[t].Storing? || s.pcs[t].Deleting? {
      HeldBundle(e, s, t);
      HeldBundle(e, s, a.t);
    }
  }

  lemma OthersKeepMinted(e: Env, s: State, a: Action, t: Caller)
    requires Inv(e, s) && Enabled(e, s, a) && t in s.pcs && t != a.t
    ensures MintedOk(e, Step(e, s, a), t)
  {
    if a.Exchange? {
      ExchangeKeepsOthersMinted(e, s, a, t);
    } else {
      OnlyActorMoves(e, s, a);
      assert MintedOk(e, s, t);
      if a.Store? {
        assert MintedApart(s, t, a.t);
      }
    }
  }

  lemma StepKeepsApart(e: Env, s: State, a: Action, t: Caller, u: Caller)
    requires Inv(e, s) && Enabled(e, s, a) && t in Step(e, s, a).pcs && u in Step(e, s, a).pcs
    ensures MintedApart(Step(e, s, a), t, u)
  {
    OnlyActorMoves(e, s, a);
    if t in s.pcs && u in s.pcs {
      assert MintedApart(s, t, u) && MintedOk(e, s, t) && MintedOk(e, s, u);
    }
  }

  /** Being replaced lasts until the replacing creator acts. */
  lemma StillBeingReplaced(e: Env, s: State, a: Action, x: Slot)
    requires Protocol(s) && Enabled(e, s, a) && BeingReplaced(e, s, x)
    requires s.calls[s.inflight[e.owner(x.account)]].creator != a.t
    ensures BeingReplaced(e, Step(e, s, a), x)
  {
    var k := e.owner(x.account);
    assert KeyOk(s, k);
    if a.t in s.pcs {
      assert CallerOk(s, a.t);
      assert CallOk(s, s.pcs[a.t].call);
    }
    assert CallOk(s, s.inflight[k]);
  }

  lemma ExchangeKeepsTraded(e: Env, s: State, a: Action, x: Slot)
    requires Inv(e, s) && Enabled(e, s, a) && a.Exchange? && x in s.db
    ensures TradedOk(e, Step(e, s, a), x)
  {
    HeldBundle(e, s, a.t);
    assert TradedOk(e, s, x);
    if s.db[x].Encoded? && s.db[x].bundle in s.exchanged && BeingReplaced(e, s, x) {
      StillBeingReplaced(e, s, a, x);
    }
  }

  /** A slot the action leaves alone. */
  lemma OldSlotKeepsTraded(e: Env, s: State, a: Action, x: Slot)
    requires Inv(e, s) && Enabled(e, s, a) && x in s.db && x in Step(e, s, a).db && Step(e, s, a).db[x] == s.db[x]
    requires Step(e, s, a).exchanged == s.exchanged && s.spoiled <= Step(e, s, a).spoiled
    requires BeingReplaced(e, s, x) && s.calls[s.inflight[e.owner(x.account)]].creator == a.t ==>
               !s.db[x].Encoded? || s.db[x].bundle in Step(e, s, a).spoiled || BeingReplaced(e, Step(e, s, a), x)
    ensures TradedOk(e, Step(e, s, a), x)
  {
    assert TradedOk(e, s, x);
    if BeingReplaced(e, s, x) && s.calls[s.inflight[e.owner(x.account)]].creator != a.t {
      StillBeingReplaced(e, s, a, x);
    }
  }

  /** The slot a store writes to holds a bundle that has not been traded in. */
  lemma NewSlotNotTraded(e: Env, s: State, a: Action, x: Slot)
    requires Inv(e, s) && Enabled(e, s, a) && a.Store? && a.ok
    requires x == StoredSlot(e.addressing, s.pcs[a.t].q.service, s.pcs[a.t].q.account)
    ensures x in Step(e, s, a).db && TradedOk(e, Step(e, s, a), x)
  {
    assert MintedOk(e, s, a.t);
  }

  /** The storing creator goes on to delete the old slot. */
  lemma StoredStillReplaced(e: Env, s: State, a: Action, x: Slot)
    requires Protocol(s) && Enabled(e, s, a) && a.Store? && a.ok && BeingReplaced(e, s, x)
    requires s.calls[s.inflight[e.owner(x.account)]].creator == a.t
    ensures BeingReplaced(e, Step(e, s, a), x)
  {
  }

  /** A failed store spoils the bundle that was traded in. */
  lemma FailedStoreSpoils(e: Env, s: State, a: Action, x: Slot)
    requires Inv(e, s) && Enabled(e, s, a) && a.Store? && !a.ok && x in s.db && BeingReplaced(e, s, x)
    requires s.calls[s.inflight[e.owner(x.account)]].creator == a.t
    ensures s.db[x].Encoded? ==> s.db[x].bundle in Step(e, s, a).spoiled
  {
    HeldBundle(e, s, a.t);
  }

  lemma StoreKeepsTraded(e: Env, s: State, a: Action, x: Slot)
    requires Inv(e, s) && Enabled(e, s, a) && a.Store? && x in Step(e, s, a).db
    ensures TradedOk(e, Step(e, s, a), x)
  {
    if a.ok && x == StoredSlot(e.addressing, s.pcs[a.t].q.service, s.pcs[a.t].q.account) {
      NewSlotNotTraded(e, s, a, x);
    } else {
      if BeingReplaced(e, s, x) && s.calls[s.inflight[e.owner(x.account)]].creator == a.t {
        if a.ok { StoredStillReplaced(e, s, a, x); } else { FailedStoreSpoils(e, s, a, x); }
      }
      OldSlotKeepsTraded(e, s, a, x);
    }
  }

  lemma DeleteKeepsTraded(e: Env, s: State, a: Action, x: Slot)
    requires Inv(e, s) && Enabled(e, s, a) && a.Delete? && x in Step(e, s, a).db
    ensures TradedOk(e, Step(e, s, a), x)
  {
    HeldBundle(e, s, a.t);
    assert MintedOk(e, s, a.t);
    assert TradedOk(e, s, x);
    if s.db[x].Encoded? && s.db[x].bundle in s.exchanged && BeingReplaced(e, s, x) {
      if s.calls[s.inflight[e.owner(x.account)]].creator != a.t {
        StillBeingReplaced(e, s, a, x);
      }
    }
  }

  /** Steps outside the exchange and the vault. */
  lemma RestKeepsTraded(e: Env, s: State, a: Action, x: Slot)
    requires Inv(e, s) && Enabled(e, s, a) && !a.Exchange? && !a.Store? && !a.Delete? && x in s.db
    ensures x in Step(e, s, a).db && TradedOk(e, Step(e, s, a), x)
  {
    OnlyActorMoves(e, s, a);
    if BeingReplaced(e, s, x) && s.calls[s.inflight[e.owner(x.account)]].creator != a.t {
      StillBeingReplaced(e, s, a, x);
    }
    assert TradedOk(e, s, x);
  }

  lemma StepKeepsTraded(e: Env, s: State, a: Action, x: Slot)
    requires Inv(e, s) && Enabled(e, s, a) && x in Step(e, s, a).db
    ensures TradedOk(e, Step(e, s, a), x)
  {
    match a
    case Exchange(_, _) => ExchangeKeepsTraded(e, s, a, x);
    case Store(_, _) => StoreKeepsTraded(e, s, a, x);
    case Delete(_, _) => DeleteKeepsTraded(e, s, a, x);
    case _ =>
      OnlyActorMoves(e, s, a);
      RestKeepsTraded(e, s, a, x);
  }

  lemma StepKeepsTradedOnce(e: Env, s: State, a: Action)
    requires Inv(e, s) && Enabled(e, s, a)
    ensures TradedOnce(Step(e, s, a))
  {
    if a.Exchange? {
      ExchangeKeepsTradedOnce(e, s, a);
    } else {
      OnlyActorMoves(e, s, a);
      StepSpoils(e, s, a);
    }
  }

  lemma StepSpoils(e: Env, s: State, a: Action)
    requires Enabled(e, s, a)
    ensures s.spoiled <= Step(e, s, a).spoiled
  {
  }

  lemma ExchangeKeepsTradedOnce(e: Env, s: State, a: Action)
    requires Inv(e, s) && Enabled(e, s, a) && a.Exchange?
    ensures TradedOnce(Step(e, s, a))
  {
    HeldBundle(e, s, a.t);
    assert TradedOk(e, s, s.pcs[a.t].q.ref);
  }

  lemma StepKeepsInv(e: Env, s: State, a: Action)
    requires Inv(e, s) && Enabled(e, s, a)
    ensures Inv(e, Step(e, s, a))
  {
    var s' := Step(e, s, a);
    StepKeepsProtocol(e, s, a);
    StepKeepsKeys(e, s, a);
    StepKeepsProgress(e, s, a);
    StepKeepsStored(e, s, a);
    StepKeepsTradedOnce(e, s, a);
    OnlyActorMoves(e, s, a);
    forall t | t in s'.pcs ensures MintedOk(e, s', t) {
      if t == a.t { ActorKeepsMinted(e, s, a); } else { OthersKeepMinted(e, s, a, t); }
    }
    forall t, u | t in s'.pcs && u in s'.pcs ensures MintedApart(s', t, u) { StepKeepsApart(e, s, a, t, u); }
    forall x | x in s'.db ensures TradedOk(e, s', x) { StepKeepsTraded(e, s, a, x); }
  }

  lemma {:induction false} RunKeepsInv(e: Env, s: State, actions: seq<Action>)
    requires Initial(s) && Run(e, s, actions).Some?
    ensures Inv(e, Run(e, s, actions).value)
  {
    if actions != [] {
      var last := |actions| - 1;
      RunKeepsInv(e, s, actions[..last]);
      StepKeepsInv(e, Run(e, s, actions[..last]).value, actions[last]);
    }
  }

  // ---- the promises, over every run ----

  /** At most one caller per key is inside refreshOnce. */
  lemma SingleFlightPerKey(e: Env, s0: State, actions: seq<Action>, t: Caller, u: Caller)
    requires Initial(s0) && Run(e, s0, actions).Some?
    requires var s := Run(e, s0, actions).value;
             && t in s.pcs && u in s.pcs && s.pcs[t].Inside() && s.pcs[u].Inside()
             && e.owner(s.pcs[t].q.account) == e.owner(s.pcs[u].q.account)
    ensures t == u
  {
    RunKeepsInv(e, s0, actions);
    if t != u {
      ActiveKeysDiffer(e, Run(e, s0, actions).value, t, u);
    }
  }

  /** A waiter that has been woken returns exactly what the creator it joined returns, and that creator
      had published it; removing the map entry first does not matter. */
  lemma WaiterSharesResult(e: Env, s0: State, actions: seq<Action>, t: Caller)
    requires Initial(s0) && Run(e, s0, actions).Some?
    requires t in Run(e, s0, actions).value.pcs && Run(e, s0, actions).value.pcs[t].Woken?
    ensures var s := Run(e, s0, actions).value;
            var c := s.pcs[t].call;
            && c < |s.calls| && s.calls[c].creator in s.pcs && s.calls[c].creator != t
            && s.pcs[s.calls[c].creator].Finished? && s.pcs[s.calls[c].creator].call == c
            && s.pcs[t].read == Some(s.pcs[s.calls[c].creator].out)
  {
    RunKeepsInv(e, s0, actions);
    var s := Run(e, s0, actions).value;
    assert CallerOk(s, t);
    assert CallOk(s, s.pcs[t].call);
  }

  /** The re-check before removing the map entry never fails: the entry is still this creator's. */
  lemma RemovalCheckHolds(e: Env, s0: State, actions: seq<Action>, t: Caller)
    requires Initial(s0) && Run(e, s0, actions).Some?
    requires t in Run(e, s0, actions).value.pcs && Run(e, s0, actions).value.pcs[t].Returned?
    ensures var s := Run(e, s0, actions).value;
            && s.pcs[t].call < |s.calls|
            && s.calls[s.pcs[t].call].key in s.inflight
            && s.inflight[s.calls[s.pcs[t].call].key] == s.pcs[t].call
  {
    RunKeepsInv(e, s0, actions);
    var s := Run(e, s0, actions).value;
    assert CallerOk(s, t);
    assert CallOk(s, s.pcs[t].call);
  }

  /** However the other callers' steps were interleaved with it, a refresh that has just returned
      changed its key's slots, and returned, as one undisturbed refresh would have. */
  lemma RefreshIsAtomic(e: Env, s0: State, actions: seq<Action>, t: Caller)
    requires Initial(s0) && Run(e, s0, actions).Some?
    requires t in Run(e, s0, actions).value.pcs && Run(e, s0, actions).value.pcs[t].Returned?
    ensures var s := Run(e, s0, actions).value;
            var pc := s.pcs[t];
            (Own(e, s.db, e.owner(pc.q.account)), pc.out) == RefreshOnce(e.addressing, pc.before, pc.q, pc.i)
  {
    RunKeepsInv(e, s0, actions);
    assert ProgressOk(e, Run(e, s0, actions).value, t);
  }

  /** A bundle is exchanged successfully at most once, unless storing its replacement or deleting it
      failed after the exchange. */
  lemma ExchangedAtMostOnce(e: Env, s0: State, actions: seq<Action>, b: Bundle)
    requires Initial(s0) && Run(e, s0, actions).Some?
    ensures var s := Run(e, s0, actions).value; s.exchanged[b] <= 1 || b in s.spoiled
  {
    RunKeepsInv(e, s0, actions);
  }

  /** No store and no delete failed. */
  predicate Clean(actions: seq<Action>) {
    forall i :: 0 <= i < |actions| ==>
      (actions[i].Store? ==> actions[i].ok) && (actions[i].Delete? ==> actions[i].ok)
  }

  lemma {:induction false} CleanRunSpoilsNothing(e: Env, s0: State, actions: seq<Action>)
    requires Initial(s0) && Run(e, s0, actions).Some? && Clean(actions)
    ensures Run(e, s0, actions).value.spoiled == {}
  {
    if actions != [] {
      CleanRunSpoilsNothing(e, s0, actions[..|actions| - 1]);
    }
  }

  lemma CleanRunsNeverReuse(e: Env, s0: State, actions: seq<Action>, b: Bundle)
    requires Initial(s0) && Run(e, s0, actions).Some? && Clean(actions)
    ensures Run(e, s0, actions).value.exchanged[b] <= 1
  {
    ExchangedAtMostOnce(e, s0, actions, b);
    CleanRunSpoilsNothing(e, s0, actions);
  }

  // ---- what callers are given ----

  /** The bundle was granted to this caller, or was found by it with at least five minutes left. */
  ghost predicate Obtained(actions: seq<Action>, t: Caller, b: Bundle) {
    Exchange(t, Granted(b)) in actions
    || exists now :: Load(t, true, now) in actions && b.expires.Some? && now + 300 <= b.expires.value
  }

  ghost predicate Sound(actions: seq<Action>, t: Caller, out: Outcome) {
    out.error.None? ==> out.bundle.Some? && Obtained(actions, t, out.bundle.value)
  }

  ghost predicate Earned(actions: seq<Action>, t: Caller, pc: Pc) {
    match pc
    case Storing(_, _, _, _, _, minted) => Exchange(t, Granted(minted)) in actions
    case Deleting(_, _, _, _, _, minted) => Exchange(t, Granted(minted)) in actions
    case Returned(_, _, _, _, out) => Sound(actions, t, out)
    case Unmapped(_, out) => Sound(actions, t, out)
    case Published(_, out) => Sound(actions, t, out)
    case Finished(_, out) => Sound(actions, t, out)
    case _ => true
  }

  lemma EarnedGrows(actions: seq<Action>, a: Action, t: Caller, pc: Pc)
    requires Earned(actions, t, pc)
    ensures Earned(actions + [a], t, pc)
  {
    assert forall x :: x in actions ==> x in actions + [a];
  }

  lemma LoadEarns(e: Env, s: State, actions: seq<Action>, a: Action)
    requires Enabled(e, s, a) && a.Load?
    ensures Earned(actions + [a], a.t, Step(e, s, a).pcs[a.t])
  {
    assert a in actions + [a];
    var q, i := s.pcs[a.t].q, Inputs(a.readable, a.now, Denied(RefreshFailed), false, false);
    ReturnedIsFresh(e.addressing, s.db, q, i);
  }

  lemma StepEarns(e: Env, s: State, actions: seq<Action>, a: Action)
    requires Enabled(e, s, a) && (a.t in s.pcs ==> Earned(actions, a.t, s.pcs[a.t]))
    ensures a.t in Step(e, s, a).pcs && Earned(actions + [a], a.t, Step(e, s, a).pcs[a.t])
  {
    if a.Load? {
      LoadEarns(e, s, actions, a);
    } else {
      assert a in actions + [a];
      if a.t in s.pcs {
        EarnedGrows(actions, a, a.t, s.pcs[a.t]);
      }
    }
  }

  lemma {:induction false} RunEarns(e: Env, s0: State, actions: seq<Action>, t: Caller)
    requires Initial(s0) && Run(e, s0, actions).Some?
    ensures var s := Run(e, s0, actions).value; t in s.pcs ==> Earned(actions, t, s.pcs[t])
  {
    if actions != [] {
      var last := |actions| - 1;
      var before, a := actions[..last], actions[last];
      RunEarns(e, s0, before, t);
      var s := Run(e, s0, before).value;
      assert before + [a] == actions;
      OnlyActorMoves(e, s, a);
      if t == a.t {
        StepEarns(e, s, before, a);
      } else if t in s.pcs {
        EarnedGrows(before, a, t, s.pcs[t]);
      }
    }
  }

  /** Over every run: whoever is given a bundle without an error, waiters included, is given one that the
      endpoint granted in this flight, or that had at least five minutes left when this flight loaded it. */
  lemma GivenIsFresh(e: Env, s0: State, actions: seq<Action>, t: Caller)
    requires Initial(s0) && Run(e, s0, actions).Some?
    requires var s := Run(e, s0, actions).value; t in s.pcs && (s.pcs[t].Finished? || s.pcs[t].Woken?)
    ensures var s := Run(e, s0, actions).value;
            && s.pcs[t].call < |s.calls|
            && var out := if s.pcs[t].Finished? then Some(s.pcs[t].out) else s.pcs[t].read;
               out.Some? && (out.value.error.None? ==>
                 out.value.bundle.Some? && Obtained(actions, s.calls[s.pcs[t].call].creator, out.value.bundle.value))
  {
    RunKeepsInv(e, s0, actions);
    var s := Run(e, s0, actions).value;
    assert CallerOk(s, t);
    if s.pcs[t].Woken? {
      WaiterSharesResult(e, s0, actions, t);
    }
    RunEarns(e, s0, actions, s.calls[s.pcs[t].call].creator);
  }

  /** Only bundles with less than five minutes left, or without an expiry, are sent to the endpoint. */
  lemma OnlyStaleIsTraded(e: Env, s0: State, actions: seq<Action>, t: Caller)
    requires Initial(s0) && Run(e, s0, actions).Some?
    requires var s := Run(e, s0, actions).value;
             t in s.pcs && (s.pcs[t].Exchanging? || s.pcs[t].Storing? || s.pcs[t].Deleting?)
    ensures var pc := Run(e, s0, actions).value.pcs[t];
            pc.was.expires.Some? ==> pc.was.expires.value < pc.now + 300
  {
    RunKeepsInv(e, s0, actions);
    assert ProgressOk(e, Run(e, s0, actions).value, t);
  }

  // ---- the inputs of a refresh are what the run gave it ----

  /** A caller has not gone this far. */
  ghost predicate NotYet(actions: seq<Action>, t: Caller, loaded: bool, exchanged: bool, stored: bool) {
    && (!loaded ==> forall readable, now :: Load(t, readable, now) !in actions)
    && (!exchanged ==> forall answer :: Exchange(t, answer) !in actions)
    && (!stored ==> forall ok :: Store(t, ok) !in actions)
    && forall ok :: Delete(t, ok) !in actions
  }

  /** What a caller's own actions have been, by where it is. */
  ghost predicate Took(actions: seq<Action>, s: State, t: Caller) {
    if t !in s.pcs then NotYet(actions, t, false, false, false)
    else
      match s.pcs[t]
      case Loading(_, _, _) => NotYet(actions, t, false, false, false)
      case Exchanging(_, _, _, _, now) => Load(t, true, now) in actions && NotYet(actions, t, true, false, false)
      case Storing(_, _, _, _, now, minted) =>
        && Load(t, true, now) in actions && Exchange(t, Granted(minted)) in actions
        && (forall answer :: Exchange(t, answer) in actions ==> answer == Granted(minted))
        && NotYet(actions, t, true, true, false)
      case Deleting(_, _, _, _, now, minted) =>
        && Load(t, true, now) in actions && Exchange(t, Granted(minted)) in actions && Store(t, true) in actions
        && (forall answer :: Exchange(t, answer) in actions ==> answer == Granted(minted))
        && (forall ok :: Store(t, ok) in actions ==> ok)
        && NotYet(actions, t, true, true, true)
      case Returned(_, _, _, i, _) => FromRun(actions, t, i)
      case _ => true
  }

  /** Whatever this caller was told when it loaded, exchanged, stored and deleted. */
  ghost predicate FromRun(actions: seq<Action>, t: Caller, i: Inputs) {
    && Load(t, i.readable, i.now) in actions
    && (forall answer :: Exchange(t, answer) in actions ==> answer == i.answer)
    && (forall ok :: Store(t, ok) in actions ==> ok == i.storeOk)
    && (forall ok :: Delete(t, ok) in actions ==> ok == i.deleteOk)
  }

  lemma InSnoc(actions: seq<Action>, a: Action)
    ensures forall x :: x in actions + [a] <==> x in actions || x == a
  {
  }

  lemma LoadTook(e: Env, s: State, actions: seq<Action>, a: Action)
    requires Enabled(e, s, a) && a.Load? && Took(actions, s, a.t)
    ensures Took(actions + [a], Step(e, s, a), a.t)
  {
    InSnoc(actions, a);
  }

  lemma StepTook(e: Env, s: State, actions: seq<Action>, a: Action)
    requires Enabled(e, s, a) && Took(actions, s, a.t)
    ensures Took(actions + [a], Step(e, s, a), a.t)
  {
    if a.Load? {
      LoadTook(e, s, actions, a);
    } else if a.Exchange? {
      ExchangeTook(e, s, actions, a);
    } else if a.Store? || a.Delete? {
      VaultTook(e, s, actions, a);
    } else {
      InSnoc(actions, a);
    }
  }

  lemma ExchangeTook(e: Env, s: State, actions: seq<Action>, a: Action)
    requires Enabled(e, s, a) && a.Exchange? && Took(actions, s, a.t)
    ensures Took(actions + [a], Step(e, s, a), a.t)
  {
    InSnoc(actions, a);
  }

  lemma VaultTook(e: Env, s: State, actions: seq<Action>, a: Action)
    requires Enabled(e, s, a) && (a.Store? || a.Delete?) && Took(actions, s, a.t)
    ensures Took(actions + [a], Step(e, s, a), a.t)
  {
    InSnoc(actions, a);
  }

  lemma OthersTook(e: Env, s: State, actions: seq<Action>, a: Action, t: Caller)
    requires Enabled(e, s, a) && Took(actions, s, t) && t != a.t
    ensures Took(actions + [a], Step(e, s, a), t)
  {
    OnlyActorMoves(e, s, a);
    InSnoc(actions, a);
  }

  lemma {:induction false} RunTook(e: Env, s0: State, actions: seq<Action>, t: Caller)
    requires Initial(s0) && Run(e, s0, actions).Some?
    ensures Took(actions, Run(e, s0, actions).value, t)
  {
    if actions != [] {
      var last := |actions| - 1;
      var before, a := actions[..last], actions[last];
      RunTook(e, s0, before, t);
      assert before + [a] == actions;
      if t == a.t {
        StepTook(e, Run(e, s0, before).value, before, a);
      } else {
        OthersTook(e, Run(e, s0, before).value, before, a, t);
      }
    }
  }

  /** The undisturbed refresh that a returned one equals had this very caller's inputs: what it was told when it
      loaded, exchanged, stored and deleted. */
  lemma InputsTold(e: Env, s0: State, actions: seq<Action>, t: Caller)
    requires Initial(s0) && Run(e, s0, actions).Some?
    requires t in Run(e, s0, actions).value.pcs && Run(e, s0, actions).value.pcs[t].Returned?
    ensures FromRun(actions, t, Run(e, s0, actions).value.pcs[t].i)
  {
    RunTook(e, s0, actions, t);
  }

  // ---- what the history variables tell ----

  /** This action trades the bundle in, in this state. */
  predicate Trades(s: State, a: Action, b: Bundle) {
    a.Exchange? && a.answer.Granted? && a.t in s.pcs && s.pcs[a.t].Exchanging? && s.pcs[a.t].was == b && b.refresh != ""
  }

  /** This action leaves the bundle traded in, without a stored replacement or not deleted. */
  predicate Spoils(s: State, a: Action, b: Bundle) {
    && ((a.Store? && !a.ok) || (a.Delete? && !a.ok))
    && a.t in s.pcs && (s.pcs[a.t].Storing? || s.pcs[a.t].Deleting?) && s.pcs[a.t].was == b
  }

  /** How often a bundle is traded in over a run, and whether it is ever spoiled. */
  function TradeCount(e: Env, s0: State, actions: seq<Action>, b: Bundle): nat {
    if actions == [] then 0
    else
      var last := |actions| - 1;
      var p := Run(e, s0, actions[..last]);
      TradeCount(e, s0, actions[..last], b) + if p.Some? && Trades(p.value, actions[last], b) then 1 else 0
  }

  predicate EverSpoiled(e: Env, s0: State, actions: seq<Action>, b: Bundle) {
    actions != [] &&
    var last := |actions| - 1;
    var p := Run(e, s0, actions[..last]);
    EverSpoiled(e, s0, actions[..last], b) || (p.Some? && Spoils(p.value, actions[last], b))
  }

  lemma StepTrades(e: Env, s: State, a: Action, b: Bundle)
    requires Enabled(e, s, a)
    ensures Step(e, s, a).exchanged[b] == s.exchanged[b] + if Trades(s, a, b) then 1 else 0
    ensures b in Step(e, s, a).spoiled <==> b in s.spoiled || Spoils(s, a, b)
  {
  }

  /** The history variables count the run's own exchanges, and its failed stores and deletes. */
  lemma {:induction false} HistoryTold(e: Env, s0: State, actions: seq<Action>, b: Bundle)
    requires Initial(s0) && Run(e, s0, actions).Some?
    ensures var s := Run(e, s0, actions).value;
            s.exchanged[b] == TradeCount(e, s0, actions, b) && (b in s.spoiled <==> EverSpoiled(e, s0, actions, b))
  {
    if actions != [] {
      var last := |actions| - 1;
      HistoryTold(e, s0, actions[..last], b);
      StepTrades(e, Run(e, s0, actions[..last]).value, actions[last], b);
    }
  }

  // ---- every caller returns ----

  /** How many steps a caller has left at most. */
  function Left(pc: Pc): nat {
    match pc
    case Loading(_, _, _) => 7
    case Exchanging(_, _, _, _, _) => 6
    case Storing(_, _, _, _, _, _) => 5
    case Deleting(_, _, _, _, _, _) => 4
    case Returned(_, _, _, _, _) => 3
    case Unmapped(_, _) => 2
    case Published(_, _) => 1
    case Finished(_, _) => 0
    case Waiting(_) => 1
    case Woken(_, _) => 0
  }

  /** Every step of a caller that has entered brings it nearer to its end. */
  lemma CallersGoForward(e: Env, s: State, a: Action)
    requires Enabled(e, s, a) && !a.Enter?
    ensures a.t in Step(e, s, a).pcs && Left(Step(e, s, a).pcs[a.t]) < Left(s.pcs[a.t])
  {
  }

  ghost predicate CanMove(e: Env, s: State, t: Caller) {
    exists a: Action :: !a.Enter? && a.t == t && Enabled(e, s, a)
  }

  lemma CreatorCanMove(e: Env, s: State, t: Caller)
    requires Protocol(s) && t in s.pcs && s.pcs[t].Creator() && !s.pcs[t].Finished?
    ensures CanMove(e, s, t)
  {
    assert CallerOk(s, t);
    match s.pcs[t]
    case Loading(_, _, _) => assert Enabled(e, s, Load(t, true, 0));
    case Exchanging(_, _, _, _, _) => assert Enabled(e, s, Exchange(t, Denied(RefreshFailed)));
    case Storing(_, _, _, _, _, _) => assert Enabled(e, s, Store(t, true));
    case Deleting(_, _, _, _, _, _) => assert Enabled(e, s, Delete(t, true));
    case Returned(_, _, _, _, _) => assert Enabled(e, s, Unmap(t));
    case Unmapped(_, _) => assert Enabled(e, s, Publish(t));
    case Published(_, _) => assert Enabled(e, s, Close(t));
  }

  /** No caller waits for nothing: over every run, whoever has not returned can go on, or waits for a creator
      that can. */
  lemma NobodyIsStuck(e: Env, s0: State, actions: seq<Action>, t: Caller)
    requires Initial(s0) && Run(e, s0, actions).Some?
    requires var s := Run(e, s0, actions).value; t in s.pcs && !s.pcs[t].Finished? && !s.pcs[t].Woken?
    ensures var s := Run(e, s0, actions).value;
            || CanMove(e, s, t)
            || (s.pcs[t].Waiting? && s.pcs[t].call < |s.calls| && CanMove(e, s, s.calls[s.pcs[t].call].creator))
  {
    RunKeepsInv(e, s0, actions);
    var s := Run(e, s0, actions).value;
    assert CallerOk(s, t);
    var c := s.pcs[t].call;
    assert CallOk(s, c);
    if s.pcs[t].Waiting? {
      if s.calls[c].closed {
        assert Enabled(e, s, Wake(t));
      } else {
        CreatorCanMove(e, s, s.calls[c].creator);
      }
    } else {
      CreatorCanMove(e, s, t);
    }
  }

  // ---- one caller, undisturbed ----

  lemma RunSnoc(e: Env, s0: State, actions: seq<Action>, a: Action)
    requires Run(e, s0, actions).Some? && Enabled(e, Run(e, s0, actions).value, a)
    ensures Run(e, s0, actions + [a]) == Some(Step(e, Run(e, s0, actions).value, a))
  {
    TakeAppend(actions, [a]);
  }

  /** The caller has stored the new bundle and deleted the old one. */
  lemma Exchanges(e: Env, s0: State, t: Caller, key: Key, q: Request, now: int, was: Bundle, b: Bundle)
    returns (actions: seq<Action>)
    requires Initial(s0) && q.ref == Slot(q.service, q.account) && e.owner(q.account) == key
    requires q.ref in s0.db && s0.db[q.ref] == Encoded(was) && was.refresh != "" && b !in s0.issued
    requires was.expires.Some? ==> was.expires.value < now + 300
    ensures Run(e, s0, actions).Some?
    ensures var s := Run(e, s0, actions).value;
            && s.pcs.Keys == {t} && s.pcs[t].Deleting? && s.pcs[t].call == 0 && s.pcs[t].q == q && s.pcs[t].minted == b
            && |s.calls| == 1 && s.calls[0].key == key && s.inflight == map[key := 0]
            && s.db == s0.db[StoredSlot(e.addressing, q.service, q.account) := Encoded(b)]
  {
    actions := [];
    RunSnoc(e, s0, actions, Enter(t, key, q));
    actions := actions + [Enter(t, key, q)];
    RunSnoc(e, s0, actions, Load(t, true, now));
    actions := actions + [Load(t, true, now)];
    RunSnoc(e, s0, actions, Exchange(t, Granted(b)));
    actions := actions + [Exchange(t, Granted(b))];
    RunSnoc(e, s0, actions, Store(t, true));
    actions := actions + [Store(t, true)];
  }

  /** From every initial vault: a single caller that presents a stale bundle with a refresh token can trade it
      in and return the new one, which is then in the vault in place of the old. */
  lemma SoleCallerRotates(e: Env, s0: State, t: Caller, key: Key, q: Request, now: int, was: Bundle, b: Bundle)
    returns (actions: seq<Action>)
    requires Initial(s0) && q.ref == Slot(q.service, q.account) && e.owner(q.account) == key
    requires q.ref in s0.db && s0.db[q.ref] == Encoded(was) && was.refresh != "" && b !in s0.issued
    requires was.expires.Some? ==> was.expires.value < now + 300
    ensures Run(e, s0, actions).Some?
    ensures var s, slot := Run(e, s0, actions).value, StoredSlot(e.addressing, q.service, q.account);
            && t in s.pcs && s.pcs[t] == Finished(0, Outcome(slot, Some(b), None)) && s.inflight == map[]
            && s.db == s0.db[slot := Encoded(b)] - {q.ref}
  {
    actions := Exchanges(e, s0, t, key, q, now, was, b);
    RunSnoc(e, s0, actions, Delete(t, true));
    actions := actions + [Delete(t, true)];
    RunSnoc(e, s0, actions, Unmap(t));
    actions := actions + [Unmap(t)];
    RunSnoc(e, s0, actions, Publish(t));
    actions := actions + [Publish(t)];
    RunSnoc(e, s0, actions, Close(t));
    actions := actions + [Close(t)];
  }
}
