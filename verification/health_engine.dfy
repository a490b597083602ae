/** The health engine: a model's status follows its windows with hysteresis. */
module HealthEngine {
  import opened HealthMetrics

  const MIN_STABLE_SAMPLES := 20

  datatype Confidence = Low | Medium | High

  datatype Report = Report(model: string, connection: string, status: Status, score: real, confidence: Confidence,
                           fault: Fault, metrics: Metrics, computedAt: int, stable: bool)

  datatype Observation = NoSamples | Observed(report: Report)

  /** What the engine remembers of one model on one connection. */
  datatype Window = Window(down: nat, up: nat, status: Status)

  const NEW_WINDOW := Window(0, 0, Healthy)

  function Severity(s: Status): nat {
    match s
    case Healthy => 0
    case Busy => 1
    case Degraded => 2
    case Limited => 3
    case Unknown => 0
  }

  predicate Worse(a: Status, b: Status) {
    Severity(a) > Severity(b)
  }

  function ConfidenceOf(n: nat): Confidence {
    if n >= 100 then High else if n >= 20 then Medium else Low
  }

  function Key(connection: string, model: string): string {
    if connection != "" then connection + "|" + model else model
  }

  /** The status one window asks for by itself. */
  function Desired(samples: seq<Sample>, accountLimited: bool): Status {
    ToStatus(Classify(MetricsOf(samples), accountLimited))
  }

  /** No test before the score's condemns these metrics. */
  predicate OnlyScoreCounts(m: Metrics) {
    && m.rateNetwork <= 0.3 && m.rateTimeout <= 0.5 && m.rate5xx <= 0.4 && m.rate429 <= 0.3
    && m.ttft95 <= 10000.0 && m.ttft50 <= 5000.0
  }

  lemma MoreErrorsImprove(m: Metrics, m': Metrics, c: Class, limited: bool)
    requires m.count > 0 && MoreErrors(m, m', c) && Score(m') <= Score(m)
    ensures Worse(ToStatus(Classify(m, limited)), ToStatus(Classify(m', limited))) <==>
            !limited && c == Is429 && OnlyScoreCounts(m) && Score(m) < 60.0 && m'.rate429 > 0.3
    ensures Worse(ToStatus(Classify(m, limited)), ToStatus(Classify(m', limited))) ==>
              ToStatus(Classify(m, limited)) == Degraded && ToStatus(Classify(m', limited)) == Busy
  {
  }

  /** Turning a success into an error, its times unchanged, makes the window ask for a better status
      exactly when the error is a rate limit, only the score had condemned the window, and one more
      rate limit brings their share above 0.3: the window then shows as busy instead of degraded. */
  lemma ErrorImprovesExactly(samples: seq<Sample>, i: nat, s: Sample, accountLimited: bool)
    requires i < |samples| && ClassOf(samples[i]) == Plain
    requires s.ttft == samples[i].ttft && s.latency == samples[i].latency
    ensures var m := MetricsOf(samples);
            Worse(Desired(samples, accountLimited), Desired(samples[i := s], accountLimited)) <==>
            !accountLimited && ClassOf(s) == Is429 && OnlyScoreCounts(m) && Score(m) < 60.0
            && Share(Count(samples, Is429) + 1, |samples|) > 0.3
    ensures Worse(Desired(samples, accountLimited), Desired(samples[i := s], accountLimited)) ==>
              Desired(samples, accountLimited) == Degraded && Desired(samples[i := s], accountLimited) == Busy
  {
    ErrorAdds(samples, i, s);
    ErrorNeverHelps(samples, i, s);
    MoreErrorsImprove(MetricsOf(samples), MetricsOf(samples[i := s]), ClassOf(s), accountLimited);
  }

  lemma LimitImproves(samples: seq<Sample>, i: nat, s: Sample)
    requires i < |samples| && ClassOf(samples[i]) == Plain && ClassOf(s) == Is429
    requires s.ttft == samples[i].ttft && s.latency == samples[i].latency
    requires OnlyScoreCounts(MetricsOf(samples)) && Score(MetricsOf(samples)) < 60.0
    requires Share(Count(samples, Is429) + 1, |samples|) > 0.3
    ensures Desired(samples, false) == Degraded && Desired(samples[i := s], false) == Busy
  {
    ErrorImprovesExactly(samples, i, s, false);
  }

  /** A slow sample of a model with an answer status. */
  function Slow(status: int): Sample {
    Sample("m", "c", 4000.0, 25000.0, status, NoError)
  }

  function Repeat(s: Sample, n: nat): (r: seq<Sample>)
    ensures |r| == n && forall i :: 0 <= i < n ==> r[i] == s
  {
    if n == 0 then [] else Repeat(s, n - 1) + [s]
  }

  lemma {:induction false} RepeatCounts(s: Sample, n: nat)
    ensures forall c :: Count(Repeat(s, n), c) == if ClassOf(s) == c then n else 0
  {
    if n > 0 {
      RepeatCounts(s, n - 1);
      TallySnoc(Repeat(s, n - 1), s);
    }
  }

  lemma {:induction false} SlowTimes(samples: seq<Sample>)
    requires forall i :: 0 <= i < |samples| ==> samples[i].ttft == 4000.0 && samples[i].latency == 25000.0
    ensures |Ttfts(samples)| == |Latencies(samples)| == |samples|
    ensures forall x :: x in Ttfts(samples) ==> x == 4000.0
    ensures forall x :: x in Latencies(samples) ==> x == 25000.0
  {
    if samples != [] {
      SlowTimes(samples[..|samples| - 1]);
    }
  }

  /** All percentiles of equal values are that value. */
  lemma FlatPercentile(s: seq<real>, v: real, p: real)
    requires s != [] && (forall x :: x in s ==> x == v) && 0.0 <= p <= 100.0
    ensures Percentile(SortReals(s), p) == v
  {
    SortMeaning(s);
    var t := SortReals(s);
    forall k | 0 <= k < |t| ensures t[k] == v {
      assert t[k] in multiset(t) && t[k] in multiset(s);
      assert t[k] in s;
    }
    PercentileBounds(t, p);
  }

  /** Six rate limits, eight server errors and six successes, all slow. */
  lemma SlowWindow() returns (w: seq<Sample>)
    ensures |w| == 20 && w[19] == Slow(200) && Count(w, Is429) == 6
    ensures OnlyScoreCounts(MetricsOf(w)) && Score(MetricsOf(w)) == 53.0
  {
    var a, b, c := Repeat(Slow(429), 6), Repeat(Slow(500), 8), Repeat(Slow(200), 6);
    w := a + b + c;
    RepeatCounts(Slow(429), 6);
    RepeatCounts(Slow(500), 8);
    RepeatCounts(Slow(200), 6);
    TallyAppend(a, b);
    TallyAppend(a + b, c);
    SlowTimes(w);
    SlowMetrics(w);
  }

  lemma SlowMetrics(w: seq<Sample>)
    requires |w| == 20 && Ttfts(w) != [] && Latencies(w) != []
    requires (forall x :: x in Ttfts(w) ==> x == 4000.0) && forall x :: x in Latencies(w) ==> x == 25000.0
    requires Count(w, Is429) == 6 && Count(w, Is5xx) == 8 && Count(w, IsTimeout) == 0 && Count(w, IsNetwork) == 0
    ensures OnlyScoreCounts(MetricsOf(w)) && Score(MetricsOf(w)) == 53.0
  {
    FlatPercentile(Ttfts(w), 4000.0, 50.0);
    FlatPercentile(Ttfts(w), 4000.0, 95.0);
    FlatPercentile(Latencies(w), 25000.0, 95.0);
    assert Share(6, 20) == 0.3 && Share(8, 20) == 0.4 && Share(0, 20) == 0.0;
  }

  /** Such windows exist, with as many samples as the default engine asks for: one rate limit more turns a
      degraded window into a busy one. */
  lemma RateLimitImproves() returns (w: seq<Sample>, i: nat, s: Sample)
    ensures i < |w| == MIN_STABLE_SAMPLES && ClassOf(w[i]) == Plain && ClassOf(s) == Is429
    ensures s.ttft == w[i].ttft && s.latency == w[i].latency
    ensures Desired(w, false) == Degraded && Desired(w[i := s], false) == Busy
  {
    w := SlowWindow();
    i, s := 19, Slow(429);
    assert Share(7, 20) == 0.35;
    LimitImproves(w, i, s);
  }

  method Evaluate(samples: seq<Sample>, accountLimited: bool, now: int) returns (r: Report)
    requires samples != []
    ensures r.model == samples[0].model && r.connection == samples[0].connection
    ensures r.metrics == MetricsOf(samples) && r.score == Score(r.metrics) && 25.0 <= r.score <= 100.0
    ensures r.fault == Classify(r.metrics, accountLimited) && r.status == Desired(samples, accountLimited)
    ensures r.confidence == ConfidenceOf(|samples|) && r.computedAt == now
    ensures (r.confidence == High <==> |samples| >= 100) && (r.confidence == Low <==> |samples| < 20)
    ensures r.stable == (|samples| >= MIN_STABLE_SAMPLES) && r.metrics.count == |samples|
  {
    var m := ComputeMetrics(samples);
    var score := ComputeScore(m);
    var fault := Classify(m, accountLimited);
    ScoreRange(samples);
    r := Report(samples[0].model, samples[0].connection, ToStatus(fault), score, ConfidenceOf(m.count), fault, m, now,
                m.count >= MIN_STABLE_SAMPLES);
  }

  /** How many windows in a row it takes: at least the current one. */
  function Needed(sustained: int): nat {
    if sustained < 1 then 1 else sustained
  }

  /** The counters after a window that asks for a status. */
  function Next(downgrade: int, recover: int, w: Window, desired: Status): Window {
    if desired == w.status then Window(0, 0, w.status)
    else if Worse(desired, w.status) then
      if w.down + 1 < downgrade then Window(w.down + 1, 0, w.status) else Window(0, 0, desired)
    else
      if w.up + 1 < recover then Window(0, w.up + 1, w.status) else Window(0, 0, desired)
  }

  function WindowAt(state: map<string, Window>, key: string): Window {
    if key in state then state[key] else NEW_WINDOW
  }

  class Engine {
    const downgradeSustained: int
    const recoverSustained: int
    const minSamples: int
    var state: map<string, Window>

    constructor (downgradeSustained: int, recoverSustained: int, minSamples: int)
      ensures this.downgradeSustained == downgradeSustained && this.recoverSustained == recoverSustained
      ensures this.minSamples == minSamples && state == map[]
    {
      this.downgradeSustained := downgradeSustained;
      this.recoverSustained := recoverSustained;
      this.minSamples := minSamples;
      state := map[];
    }

    /** An empty window is refused; a thin one is answered Unknown and moves nothing; any other moves
        only its own key, and the answer is the status that key is left with. */
    method Observe(samples: seq<Sample>, accountLimited: bool, now: int) returns (o: Observation)
      modifies this
      ensures samples == [] ==> o == NoSamples && state == old(state)
      ensures samples != [] ==>
                && o.Observed?
                && (var key := Key(samples[0].connection, samples[0].model);
                    var was := WindowAt(old(state), key);
                    if |samples| < minSamples then
                      state == old(state)[key := was] && o.report.status == Unknown && !o.report.stable
                    else
                      && state == old(state)[key := Next(downgradeSustained, recoverSustained, was,
                                                         Desired(samples, accountLimited))]
                      && o.report.status == state[key].status
                      && (o.report.stable <==> (o.report.status == Desired(samples, accountLimited)
                                                && (was.status != o.report.status || |samples| >= MIN_STABLE_SAMPLES))))
    {
      if |samples| == 0 {
        return NoSamples;
      }
      var r := Evaluate(samples, accountLimited, now);
      var key := r.model;
      if r.connection != "" {
        key := r.connection + "|" + r.model;
      }
      assert key == Key(samples[0].connection, samples[0].model);
      var st := WindowAt(state, key);
      ghost var was := st;
      if key !in state {
        state := state[key := st];
      }
      assert state == old(state)[key := was];
      if r.metrics.count < minSamples {
        return Observed(r.(stable := false, status := Unknown));
      }
      st, r := Settle(st, r);
      assert old(state)[key := was][key := st] == old(state)[key := st];
      state := state[key := st];
      return Observed(r);
    }

    /** The second half of Observe: the counters move, and the report tells the status they are left with. */
    method Settle(was: Window, report: Report) returns (st: Window, r: Report)
      ensures st == Next(downgradeSustained, recoverSustained, was, report.status) && r.status == st.status
      ensures r.stable <==> (r.status == report.status && (was.status != r.status || report.stable))
      ensures r == report.(status := r.status, stable := r.stable)
    {
      st, r := was, report;
      var desired := r.status;
      if desired == st.status {
        st := st.(down := 0, up := 0);
      } else if Worse(desired, st.status) {
        st := st.(down := st.down + 1, up := 0);
        if st.down < downgradeSustained {
          r := r.(status := st.status, stable := false);
        } else {
          st := st.(status := desired, down := 0);
          r := r.(stable := true);
        }
      } else {
        st := st.(up := st.up + 1, down := 0);
        if st.up < recoverSustained {
          r := r.(status := st.status, stable := false);
        } else {
          st := st.(status := desired, up := 0);
          r := r.(stable := true);
        }
      }
    }
  }

  // ---- one key: the counters against its history ----

  function Fold(downgrade: int, recover: int, h: seq<Status>): Window {
    if h == [] then NEW_WINDOW
    else Next(downgrade, recover, Fold(downgrade, recover, h[..|h| - 1]), h[|h| - 1])
  }

  /** The last k windows of a history, all later than a given point, ask for a worse (or better)
      status than s. */
  ghost predicate Streak(h: seq<Status>, since: nat, k: nat, s: Status, worse: bool) {
    && since + k <= |h|
    && forall i :: |h| - k <= i < |h| ==> Leans(h[i], s, worse)
  }

  predicate Leans(desired: Status, s: Status, worse: bool) {
    if worse then Worse(desired, s) else Severity(desired) < Severity(s)
  }

  /** The status a history of windows leads to, and the window it was reached in: it moves when
      enough windows in a row, all after the last move, were worse or were better. */
  ghost function Verdict(downgrade: int, recover: int, h: seq<Status>): (r: (Status, nat))
    ensures r.1 <= |h|
  {
    if h == [] then (Healthy, 0)
    else
      var (s, since) := Verdict(downgrade, recover, h[..|h| - 1]);
      if Streak(h, since, Needed(downgrade), s, true) || Streak(h, since, Needed(recover), s, false)
      then (h[|h| - 1], |h|)
      else (s, since)
  }

  /** No window by itself asks for Unknown. */
  ghost predicate Proper(h: seq<Status>) {
    forall i :: 0 <= i < |h| ==> h[i] != Unknown
  }

  /** A counter is the length of the run of leaning windows at the end of the history. */
  ghost predicate CountOk(h: seq<Status>, since: nat, count: nat, s: Status, worse: bool) {
    && Streak(h, since, count, s, worse)
    && (since + count < |h| ==> !Leans(h[|h| - count - 1], s, worse))
  }

  ghost predicate WindowOk(downgrade: int, recover: int, h: seq<Status>, w: Window) {
    var (s, since) := Verdict(downgrade, recover, h);
    && w.status == s && s != Unknown
    && w.down < Needed(downgrade) && w.up < Needed(recover)
    && CountOk(h, since, w.down, s, true) && CountOk(h, since, w.up, s, false)
  }

  /** One more window lengthens a run or ends it. */
  lemma CountMoves(h: seq<Status>, d: Status, since: nat, count: nat, s: Status, worse: bool, needed: nat)
    requires CountOk(h, since, count, s, worse) && count < needed
    ensures Leans(d, s, worse) ==> CountOk(h + [d], since, count + 1, s, worse)
    ensures !Leans(d, s, worse) ==> CountOk(h + [d], since, 0, s, worse)
    ensures Streak(h + [d], since, needed, s, worse) <==> Leans(d, s, worse) && count + 1 == needed
  {
    var all := h + [d];
    assert all[|h|] == d;
    assert forall i :: 0 <= i < |h| ==> all[i] == h[i];
    if Leans(d, s, worse) && count + 1 < needed && since + needed <= |all| {
      assert !Leans(all[|h| - count - 1], s, worse);
    }
  }

  lemma WindowMoves(downgrade: int, recover: int, h: seq<Status>, w: Window, d: Status)
    requires WindowOk(downgrade, recover, h, w) && d != Unknown
    ensures WindowOk(downgrade, recover, h + [d], Next(downgrade, recover, w, d))
  {
    var (s, since) := Verdict(downgrade, recover, h);
    var all := h + [d];
    assert all[..|h|] == h && all[|h|] == d;
    CountMoves(h, d, since, w.down, s, true, Needed(downgrade));
    CountMoves(h, d, since, w.up, s, false, Needed(recover));
    assert d == s <==> !Leans(d, s, true) && !Leans(d, s, false);
  }

  /** For every history of adequate windows, the two counters lead to exactly the status that the
      history gives by itself. */
  lemma {:induction false} CountersMeanHistory(downgrade: int, recover: int, h: seq<Status>)
    requires Proper(h)
    ensures WindowOk(downgrade, recover, h, Fold(downgrade, recover, h))
    ensures Fold(downgrade, recover, h).status == Verdict(downgrade, recover, h).0
  {
    if h != [] {
      var before := h[..|h| - 1];
      CountersMeanHistory(downgrade, recover, before);
      WindowMoves(downgrade, recover, before, Fold(downgrade, recover, before), h[|h| - 1]);
      assert before + [h[|h| - 1]] == h;
    }
  }

  /** How often the engine changed its mind. */
  function Changes(downgrade: int, recover: int, h: seq<Status>): nat {
    if h == [] then 0
    else
      Changes(downgrade, recover, h[..|h| - 1]) +
      if Fold(downgrade, recover, h).status != Fold(downgrade, recover, h[..|h| - 1]).status then 1 else 0
  }

  function Least(downgrade: int, recover: int): nat {
    if Needed(downgrade) < Needed(recover) then Needed(downgrade) else Needed(recover)
  }

  /** n adequate windows allow at most n divided by the smaller threshold changes. */
  lemma {:induction false} ChangesBounded(downgrade: int, recover: int, h: seq<Status>)
    requires Proper(h)
    ensures Changes(downgrade, recover, h) * Least(downgrade, recover) <= Verdict(downgrade, recover, h).1 <= |h|
  {
    if h != [] {
      var before := h[..|h| - 1];
      ChangesBounded(downgrade, recover, before);
      MoveTakesTime(downgrade, recover, h);
      OneMore(Changes(downgrade, recover, before), Least(downgrade, recover));
    }
  }

  lemma OneMore(c: nat, k: nat)
    ensures (c + 1) * k == c * k + k
  {
  }

  /** A change comes at least the smaller threshold after the last one. */
  lemma MoveTakesTime(downgrade: int, recover: int, h: seq<Status>)
    requires Proper(h) && h != []
    ensures var before := h[..|h| - 1];
            var since := Verdict(downgrade, recover, before).1;
            && since <= Verdict(downgrade, recover, h).1
            && (Fold(downgrade, recover, h).status != Fold(downgrade, recover, before).status ==>
                  since + Least(downgrade, recover) <= Verdict(downgrade, recover, h).1)
  {
    CountersMeanHistory(downgrade, recover, h[..|h| - 1]);
    CountersMeanHistory(downgrade, recover, h);
  }

  // ---- many models ----

  /** A window of one model on one connection: what it asks for, and whether it had enough samples. */
  datatype WindowEvent = Seen(connection: string, model: string, desired: Status, adequate: bool)

  function KeyOf(o: WindowEvent): string {
    Key(o.connection, o.model)
  }

  function Step(downgrade: int, recover: int, state: map<string, Window>, o: WindowEvent): map<string, Window> {
    state[KeyOf(o) := if o.adequate then Next(downgrade, recover, WindowAt(state, KeyOf(o)), o.desired)
                     else WindowAt(state, KeyOf(o))]
  }

  function Run(downgrade: int, recover: int, h: seq<WindowEvent>): map<string, Window> {
    if h == [] then map[] else Step(downgrade, recover, Run(downgrade, recover, h[..|h| - 1]), h[|h| - 1])
  }

  /** The adequate windows that go under one key. */
  function Of(h: seq<WindowEvent>, key: string): seq<Status> {
    if h == [] then []
    else
      var last := h[|h| - 1];
      Of(h[..|h| - 1], key) + if KeyOf(last) == key && last.adequate then [last.desired] else []
  }

  /** Whatever windows are interleaved, a key's counters and status are those that the adequate windows
      under that key lead to; so the others, and the thin windows, could be erased. */
  lemma {:induction false} KeyFollowsItsWindows(downgrade: int, recover: int, h: seq<WindowEvent>, key: string)
    ensures WindowAt(Run(downgrade, recover, h), key) == Fold(downgrade, recover, Of(h, key))
  {
    if h != [] {
      var before := h[..|h| - 1];
      var last := h[|h| - 1];
      KeyFollowsItsWindows(downgrade, recover, before, key);
      if KeyOf(last) == key && last.adequate {
        var own := Of(before, key);
        assert (own + [last.desired])[..|own|] == own;
      } else {
        assert Of(h, key) == Of(before, key);
      }
    }
  }

  /** The status of a key after any interleaving is the verdict of its own adequate windows. */
  lemma StatusIsVerdict(downgrade: int, recover: int, h: seq<WindowEvent>, key: string)
    requires forall i :: 0 <= i < |h| ==> h[i].desired != Unknown
    ensures WindowAt(Run(downgrade, recover, h), key).status == Verdict(downgrade, recover, Of(h, key)).0
  {
    KeyFollowsItsWindows(downgrade, recover, h, key);
    OfProper(h, key);
    CountersMeanHistory(downgrade, recover, Of(h, key));
  }

  lemma {:induction false} OfProper(h: seq<WindowEvent>, key: string)
    requires forall i :: 0 <= i < |h| ==> h[i].desired != Unknown
    ensures Proper(Of(h, key))
  {
    if h != [] {
      OfProper(h[..|h| - 1], key);
    }
  }

  /** A thin window inserted anywhere changes no key's later counters or status. */
  lemma ThinWindowsErasable(downgrade: int, recover: int, a: seq<WindowEvent>, thin: WindowEvent, b: seq<WindowEvent>,
                            key: string)
    requires !thin.adequate
    ensures WindowAt(Run(downgrade, recover, a + [thin] + b), key) == WindowAt(Run(downgrade, recover, a + b), key)
  {
    KeyFollowsItsWindows(downgrade, recover, a + [thin] + b, key);
    KeyFollowsItsWindows(downgrade, recover, a + b, key);
    ThinAsksNothing(a, thin, b, key);
  }

  lemma ThinAsksNothing(a: seq<WindowEvent>, thin: WindowEvent, b: seq<WindowEvent>, key: string)
    requires !thin.adequate
    ensures Of(a + [thin] + b, key) == Of(a + b, key)
  {
    OfSplits(a + [thin], b, key);
    OfSplits(a, b, key);
    assert (a + [thin])[..|a|] == a;
    assert Of(a + [thin], key) == Of(a, key);
  }

  lemma {:induction false} OfSplits(a: seq<WindowEvent>, b: seq<WindowEvent>, key: string)
    ensures Of(a + b, key) == Of(a, key) + Of(b, key)
    decreases |b|
  {
    if b == [] {
      assert a + b == a;
    } else {
      var n := |b| - 1;
      assert (a + b)[..|a + b| - 1] == a + b[..n];
      OfSplits(a, b[..n], key);
    }
  }

  // ---- models that share a key ----

  /** The adequate windows of one model on one connection. */
  function OwnWindows(h: seq<WindowEvent>, connection: string, model: string): seq<Status> {
    if h == [] then []
    else
      var last := h[|h| - 1];
      OwnWindows(h[..|h| - 1], connection, model) +
      if last.connection == connection && last.model == model && last.adequate then [last.desired] else []
  }

  ghost predicate SharesKey(connection: string, model: string) {
    exists c, m :: (c, m) != (connection, model) && Key(c, m) == Key(connection, model)
  }

  /** Some other model has the same key exactly when the connection has a name, or a bar stands after
      the first character of the model's. */
  lemma SharesKeyExactly(connection: string, model: string)
    ensures SharesKey(connection, model) <==> connection != "" || exists k :: 0 < k < |model| && model[k] == '|'
  {
    if connection != "" {
      assert Key("", connection + "|" + model) == Key(connection, model);
    } else {
      if k :| 0 < k < |model| && model[k] == '|' {
        assert model == model[..k] + "|" + model[k + 1..];
        assert Key(model[..k], model[k + 1..]) == Key(connection, model);
      }
      if SharesKey(connection, model) {
        var c, m :| (c, m) != (connection, model) && Key(c, m) == Key(connection, model);
        assert c != "";
        assert model[|c|] == '|';
      }
    }
  }

  /** No window in the history belongs to another model with the same key. */
  ghost predicate Alone(h: seq<WindowEvent>, connection: string, model: string) {
    forall i :: 0 <= i < |h| && KeyOf(h[i]) == Key(connection, model) ==>
      h[i].connection == connection && h[i].model == model
  }

  lemma {:induction false} AloneOwns(h: seq<WindowEvent>, connection: string, model: string)
    requires Alone(h, connection, model)
    ensures Of(h, Key(connection, model)) == OwnWindows(h, connection, model)
  {
    if h != [] {
      AloneOwns(h[..|h| - 1], connection, model);
    }
  }

  /** After any interleaving in which no other model shares its key, a model's counters and status are
      those that its own adequate windows lead to. */
  lemma ModelFollowsItsWindows(downgrade: int, recover: int, h: seq<WindowEvent>, connection: string, model: string)
    requires Alone(h, connection, model)
    ensures WindowAt(Run(downgrade, recover, h), Key(connection, model))
            == Fold(downgrade, recover, OwnWindows(h, connection, model))
  {
    KeyFollowsItsWindows(downgrade, recover, h, Key(connection, model));
    AloneOwns(h, connection, model);
  }

  ghost predicate Isolated(downgrade: int, recover: int, connection: string, model: string) {
    forall h :: WindowAt(Run(downgrade, recover, h), Key(connection, model))
                == Fold(downgrade, recover, OwnWindows(h, connection, model))
  }

  /** A model is isolated from all others, in every interleaving, exactly when no other can share its
      key: a single window of one that does already moves its counters. */
  lemma IsolatedExactly(downgrade: int, recover: int, connection: string, model: string)
    ensures Isolated(downgrade, recover, connection, model) <==> !SharesKey(connection, model)
  {
    if SharesKey(connection, model) {
      var c, m :| (c, m) != (connection, model) && Key(c, m) == Key(connection, model);
      var h := [Seen(c, m, Limited, true)];
      assert h[..0] == [];
      assert OwnWindows(h, connection, model) == [];
      assert WindowAt(Run(downgrade, recover, h), Key(connection, model)) != NEW_WINDOW;
    } else {
      forall h
        ensures WindowAt(Run(downgrade, recover, h), Key(connection, model))
                == Fold(downgrade, recover, OwnWindows(h, connection, model))
      {
        ModelFollowsItsWindows(downgrade, recover, h, connection, model);
      }
    }
  }

  lemma BarInKey(c: string, m: string)
    ensures c != "" ==> '|' in Key(c, m)
  {
    if c != "" {
      assert Key(c, m)[|c|] == '|';
    }
  }

  /** Ids without a bar have keys of their own. */
  lemma KeyInjective(c: string, m: string, c': string, m': string)
    requires '|' !in c && '|' !in c'
    requires c == "" ==> '|' !in m
    requires c' == "" ==> '|' !in m'
    ensures Key(c, m) == Key(c', m') <==> c == c' && m == m'
  {
    var k, k' := Key(c, m), Key(c', m');
    if k == k' {
      if c != "" {
        assert k[|c|] == '|';
        BarInKey(c, m);
        assert forall i :: 0 <= i < |c| ==> k[i] == c[i];
        assert forall i :: 0 <= i < |c'| ==> k'[i] == c'[i];
        assert k'[|c'|] == '|';
        assert |c| == |c'|;
        assert c == k[..|c|] && c' == k'[..|c|];
        assert m == k[|c| + 1..] && m' == k'[|c| + 1..];
      } else {
        BarInKey(c', m');
      }
    }
  }

  /** Connection ids without a bar, and model ids without one where there is no connection. */
  predicate Unbarred(connection: string, model: string) {
    '|' !in connection && (connection == "" ==> '|' !in model)
  }

  /** Where no connection id has a bar, every model follows its own windows; ids of models that have a
      connection may have bars. */
  lemma WithoutBarsIsolated(downgrade: int, recover: int, h: seq<WindowEvent>, connection: string, model: string)
    requires Unbarred(connection, model) && forall i :: 0 <= i < |h| ==> Unbarred(h[i].connection, h[i].model)
    ensures WindowAt(Run(downgrade, recover, h), Key(connection, model))
            == Fold(downgrade, recover, OwnWindows(h, connection, model))
  {
    forall i | 0 <= i < |h| && KeyOf(h[i]) == Key(connection, model)
      ensures h[i].connection == connection && h[i].model == model
    {
      KeyInjective(h[i].connection, h[i].model, connection, model);
    }
    ModelFollowsItsWindows(downgrade, recover, h, connection, model);
  }
}
