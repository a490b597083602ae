/** Scoring one window of samples, over exact reals. */
module HealthMetrics {
  import opened Prelude

  datatype ErrorClass = NoError | TimeoutError | NetworkError | OtherError
  datatype Sample = Sample(model: string, connection: string, ttft: real, latency: real, status: int, error: ErrorClass)

  datatype Status = Healthy | Degraded | Busy | Limited | Unknown
  datatype Fault = NoFault | AccountLimited | ProviderDegraded | ModelBusy | NetworkIssue

  datatype Metrics = Metrics(count: nat, ttft50: real, ttft95: real, latency50: real, latency95: real,
                             rate429: real, rate5xx: real, rateTimeout: real, rateNetwork: real)

  // ---- percentiles ----

  ghost predicate Ascending(s: seq<real>) {
    forall i, j :: 0 <= i < j < |s| ==> s[i] <= s[j]
  }

  function Place(x: real, s: seq<real>): seq<real> {
    if s == [] || x <= s[0] then [x] + s else [s[0]] + Place(x, s[1..])
  }

  function SortReals(s: seq<real>): seq<real> {
    if s == [] then [] else Place(s[0], SortReals(s[1..]))
  }

  lemma {:induction false} PlaceKeeps(x: real, s: seq<real>)
    ensures multiset(Place(x, s)) == multiset(s) + multiset{x}
  {
    if s != [] && x > s[0] {
      PlaceKeeps(x, s[1..]);
      assert s == [s[0]] + s[1..];
    }
  }

  lemma {:induction false} PlaceAscends(x: real, s: seq<real>)
    requires Ascending(s)
    ensures Ascending(Place(x, s))
  {
    if s != [] && x > s[0] {
      var tail := Place(x, s[1..]);
      PlaceAscends(x, s[1..]);
      PlaceKeeps(x, s[1..]);
      forall k | 0 <= k < |tail| ensures s[0] <= tail[k] {
        assert tail[k] in multiset(tail);
        assert tail[k] == x || tail[k] in s[1..];
      }
    }
  }

  lemma {:induction false} SortMeaning(s: seq<real>)
    ensures Ascending(SortReals(s)) && multiset(SortReals(s)) == multiset(s) && |SortReals(s)| == |s|
  {
    if s != [] {
      SortMeaning(s[1..]);
      PlaceKeeps(s[0], SortReals(s[1..]));
      PlaceAscends(s[0], SortReals(s[1..]));
      TailOf(s);
    }
    assert |multiset(SortReals(s))| == |SortReals(s)| && |multiset(s)| == |s|;
  }

  /** There is only one ascending arrangement. */
  lemma {:induction false} AscendingUnique(a: seq<real>, b: seq<real>)
    requires Ascending(a) && Ascending(b) && multiset(a) == multiset(b)
    ensures a == b
  {
    assert |multiset(a)| == |a| && |multiset(b)| == |b|;
    if a != [] {
      HeadAmong(a, b);
      HeadAmong(b, a);
      assert a[0] == b[0];
      TailOf(a);
      TailOf(b);
      AscendingUnique(a[1..], b[1..]);
    }
  }

  lemma HeadAmong(a: seq<real>, b: seq<real>)
    requires a != [] && b != [] && multiset(a) == multiset(b) && Ascending(b)
    ensures b[0] <= a[0]
  {
    assert a[0] in multiset(b);
  }

  lemma TailOf(a: seq<real>)
    requires a != []
    ensures multiset(a[1..]) == multiset(a) - multiset{a[0]} && a == [a[0]] + a[1..]
    ensures multiset(a) == multiset(a[1..]) + multiset{a[0]}
  {
    assert a == [a[0]] + a[1..];
  }

  /** The position a percentile falls on, between two neighbours. */
  function Rank(n: nat, p: real): real {
    p / 100.0 * (n - 1) as real
  }

  /** The value a fraction of the gap above a. */
  function Lerp(a: real, gap: real, fraction: real): real {
    a + gap * fraction
  }

  function Percentile(s: seq<real>, p: real): real
    requires 0.0 <= p <= 100.0
  {
    if |s| == 0 then 0.0
    else if |s| == 1 then s[0]
    else
      RankInRange(|s|, p);
      var lo := Rank(|s|, p).Floor;
      var hi := if lo + 1 >= |s| then |s| - 1 else lo + 1;
      Lerp(s[lo], s[hi] - s[lo], Rank(|s|, p) - lo as real)
  }

  lemma RankInRange(n: nat, p: real)
    requires n >= 1 && 0.0 <= p <= 100.0
    ensures 0.0 <= Rank(n, p) <= (n - 1) as real && 0 <= Rank(n, p).Floor <= n - 1
  {
    var d, f := (n - 1) as real, p / 100.0;
    assert 0.0 <= f <= 1.0;
    Scale(d, f);
    assert Rank(n, p) == f * d;
  }

  lemma Scale(d: real, f: real)
    requires d >= 0.0 && 0.0 <= f <= 1.0
    ensures 0.0 <= d * f <= d && d * f == f * d
  {
  }

  lemma RankMonotone(n: nat, p: real, q: real)
    requires n >= 1 && p <= q
    ensures Rank(n, p) <= Rank(n, q)
  {
    Grows(p / 100.0, q / 100.0, (n - 1) as real);
  }

  /** A percentile lies between its two neighbours. */
  lemma PercentileBetween(s: seq<real>, p: real)
    requires |s| >= 1 && Ascending(s) && 0.0 <= p <= 100.0
    ensures var lo := Rank(|s|, p).Floor;
            var hi := if lo + 1 >= |s| then |s| - 1 else lo + 1;
            0 <= lo < |s| && s[lo] <= Percentile(s, p) <= s[hi]
  {
    RankInRange(|s|, p);
    var lo := Rank(|s|, p).Floor;
    var hi := if lo + 1 >= |s| then |s| - 1 else lo + 1;
    assert s[lo] <= s[hi];
    Interpolate(s[lo], s[hi] - s[lo], Rank(|s|, p) - lo as real);
  }

  lemma Interpolate(a: real, gap: real, f: real)
    requires gap >= 0.0 && 0.0 <= f <= 1.0
    ensures a <= Lerp(a, gap, f) <= a + gap
  {
    Scale(gap, f);
  }

  lemma LerpGrows(a: real, gap: real, f: real, f': real)
    requires gap >= 0.0 && f <= f'
    ensures Lerp(a, gap, f) <= Lerp(a, gap, f')
  {
    assert gap * f' == gap * f + gap * (f' - f);
    assert gap * (f' - f) >= 0.0;
  }

  /** Percentiles lie between the least and the greatest sample, and grow with p. */
  lemma PercentileBounds(s: seq<real>, p: real)
    requires |s| >= 1 && Ascending(s) && 0.0 <= p <= 100.0
    ensures s[0] <= Percentile(s, p) <= s[|s| - 1]
  {
    PercentileBetween(s, p);
  }

  lemma PercentileMonotone(s: seq<real>, p: real, q: real)
    requires |s| >= 1 && Ascending(s) && 0.0 <= p <= q <= 100.0
    ensures Percentile(s, p) <= Percentile(s, q)
  {
    PercentileBetween(s, p);
    PercentileBetween(s, q);
    RankMonotone(|s|, p, q);
    var lo, lo' := Rank(|s|, p).Floor, Rank(|s|, q).Floor;
    if lo == lo' {
      var hi := if lo + 1 >= |s| then |s| - 1 else lo + 1;
      assert s[lo] <= s[hi];
      LerpGrows(s[lo], s[hi] - s[lo], Rank(|s|, p) - lo as real, Rank(|s|, q) - lo as real);
    } else {
      assert lo + 1 <= lo';
    }
  }

  /** At a rank between two samples, or on one, the value is interpolated between them. */
  lemma PercentileAt(s: seq<real>, p: real, k: nat, f: real)
    requires 0.0 <= p <= 100.0 && k + 1 < |s| && 0.0 <= f < 1.0
    requires p * (|s| - 1) as real == 100.0 * (k as real + f)
    ensures Percentile(s, p) == (1.0 - f) * s[k] + f * s[k + 1]
  {
    RankInRange(|s|, p);
    RankIs(|s|, p, k as real + f);
    Between(s[k], s[k + 1], f);
  }

  lemma RankIs(n: nat, p: real, r: real)
    requires n >= 1 && p * (n - 1) as real == 100.0 * r
    ensures Rank(n, p) == r
  {
    var d := (n - 1) as real;
    assert p / 100.0 * d == p * d / 100.0;
  }

  lemma Between(a: real, b: real, f: real)
    ensures Lerp(a, b - a, f) == (1.0 - f) * a + f * b
  {
  }

  /** The last rank is the greatest sample; of one sample, or none, there is nothing to interpolate. */
  lemma PercentileEnds(s: seq<real>, p: real)
    requires 0.0 <= p <= 100.0
    ensures |s| == 0 ==> Percentile(s, p) == 0.0
    ensures |s| == 1 ==> Percentile(s, p) == s[0]
    ensures |s| > 1 ==> Percentile(s, 100.0) == s[|s| - 1]
  {
    if |s| > 1 {
      RankIs(|s|, 100.0, (|s| - 1) as real);
    }
  }

  // ---- counting ----

  datatype Class = Plain | Is429 | Is5xx | IsTimeout | IsNetwork

  function ClassOf(s: Sample): Class {
    if s.status == 429 then Is429
    else if 500 <= s.status < 600 then Is5xx
    else if s.error == TimeoutError then IsTimeout
    else if s.error == NetworkError then IsNetwork
    else Plain
  }

  function Count(samples: seq<Sample>, c: Class): nat {
    if samples == [] then 0
    else Count(samples[..|samples| - 1], c) + if ClassOf(samples[|samples| - 1]) == c then 1 else 0
  }

  function Ttfts(samples: seq<Sample>): seq<real> {
    if samples == [] then [] else Ttfts(samples[..|samples| - 1]) + [samples[|samples| - 1].ttft]
  }

  function Latencies(samples: seq<Sample>): seq<real> {
    if samples == [] then [] else Latencies(samples[..|samples| - 1]) + [samples[|samples| - 1].latency]
  }

  function Share(k: nat, n: nat): real
    requires n > 0
  {
    k as real * (1.0 / n as real)
  }

  /** The metrics of n samples with these sorted times and error counts. */
  function Summary(n: nat, ttft: seq<real>, lat: seq<real>, n429: nat, n5xx: nat, nTimeout: nat, nNetwork: nat): Metrics
    requires n > 0
  {
    Metrics(n, Percentile(ttft, 50.0), Percentile(ttft, 95.0), Percentile(lat, 50.0), Percentile(lat, 95.0),
            Share(n429, n), Share(n5xx, n), Share(nTimeout, n), Share(nNetwork, n))
  }

  function MetricsOf(samples: seq<Sample>): Metrics {
    if samples == [] then Metrics(0, 0.0, 0.0, 0.0, 0.0, 0.0, 0.0, 0.0, 0.0)
    else
      Summary(|samples|, SortReals(Ttfts(samples)), SortReals(Latencies(samples)), Count(samples, Is429),
              Count(samples, Is5xx), Count(samples, IsTimeout), Count(samples, IsNetwork))
  }

  /** The accumulators after some samples. */
  ghost predicate Tallied(samples: seq<Sample>, ttft: seq<real>, lat: seq<real>, n429: nat, n5xx: nat, nTimeout: nat,
                          nNetwork: nat)
  {
    && ttft == Ttfts(samples) && lat == Latencies(samples)
    && n429 == Count(samples, Is429) && n5xx == Count(samples, Is5xx)
    && nTimeout == Count(samples, IsTimeout) && nNetwork == Count(samples, IsNetwork)
  }

  lemma TallyOne(samples: seq<Sample>, ttft: seq<real>, lat: seq<real>, n429: nat, n5xx: nat, nTimeout: nat,
                 nNetwork: nat, s: Sample)
    requires Tallied(samples, ttft, lat, n429, n5xx, nTimeout, nNetwork)
    ensures Tallied(samples + [s], ttft + [s.ttft], lat + [s.latency],
                    n429 + (if ClassOf(s) == Is429 then 1 else 0), n5xx + (if ClassOf(s) == Is5xx then 1 else 0),
                    nTimeout + (if ClassOf(s) == IsTimeout then 1 else 0),
                    nNetwork + (if ClassOf(s) == IsNetwork then 1 else 0))
  {
    assert (samples + [s])[..|samples|] == samples;
  }

  method ComputeMetrics(samples: seq<Sample>) returns (m: Metrics)
    ensures m == MetricsOf(samples)
  {
    if |samples| == 0 {
      return Metrics(0, 0.0, 0.0, 0.0, 0.0, 0.0, 0.0, 0.0, 0.0);
    }
    var ttft: seq<real>, lat: seq<real> := [], [];
    var n429, n5xx, nTimeout, nNetwork := 0, 0, 0, 0;
    for i := 0 to |samples|
      invariant Tallied(samples[..i], ttft, lat, n429, n5xx, nTimeout, nNetwork)
    {
      var s := samples[i];
      assert samples[..i + 1] == samples[..i] + [s];
      TallyOne(samples[..i], ttft, lat, n429, n5xx, nTimeout, nNetwork, s);
      ttft := ttft + [s.ttft];
      lat := lat + [s.latency];
      if s.status == 429 {
        n429 := n429 + 1;
      } else if s.status >= 500 && s.status < 600 {
        n5xx := n5xx + 1;
      } else if s.error == TimeoutError {
        nTimeout := nTimeout + 1;
      } else if s.error == NetworkError {
        nNetwork := nNetwork + 1;
      }
    }
    assert samples[..|samples|] == samples;
    ttft, lat := SortReals(ttft), SortReals(lat);
    m := Summary(|samples|, ttft, lat, n429, n5xx, nTimeout, nNetwork);
  }

  /** Every sample is in exactly one class. */
  lemma {:induction false} ClassesPartition(samples: seq<Sample>)
    ensures Count(samples, Plain) + Count(samples, Is429) + Count(samples, Is5xx) + Count(samples, IsTimeout)
            + Count(samples, IsNetwork) == |samples|
  {
    if samples != [] {
      ClassesPartition(samples[..|samples| - 1]);
    }
  }

  /** What each of the four rates counts. */
  const SAYS_429 := (s: Sample) => s.status == 429
  const SAYS_5XX := (s: Sample) => 500 <= s.status && s.status < 600
  const SAYS_TIMEOUT := (s: Sample) => !SAYS_429(s) && !SAYS_5XX(s) && s.error == TimeoutError
  const SAYS_NETWORK := (s: Sample) => !SAYS_429(s) && !SAYS_5XX(s) && s.error == NetworkError

  lemma {:induction false} CountFilters(samples: seq<Sample>)
    ensures Count(samples, Is429) == |Filter(SAYS_429, samples)|
    ensures Count(samples, Is5xx) == |Filter(SAYS_5XX, samples)|
    ensures Count(samples, IsTimeout) == |Filter(SAYS_TIMEOUT, samples)|
    ensures Count(samples, IsNetwork) == |Filter(SAYS_NETWORK, samples)|
  {
    if samples != [] {
      var n := |samples| - 1;
      CountFilters(samples[..n]);
      assert samples == samples[..n] + [samples[n]];
      FilterSnoc(SAYS_429, samples[..n], samples[n]);
      FilterSnoc(SAYS_5XX, samples[..n], samples[n]);
      FilterSnoc(SAYS_TIMEOUT, samples[..n], samples[n]);
      FilterSnoc(SAYS_NETWORK, samples[..n], samples[n]);
    }
  }

  lemma FilterSnoc(p: Sample -> bool, xs: seq<Sample>, x: Sample)
    ensures |Filter(p, xs + [x])| == |Filter(p, xs)| + if p(x) then 1 else 0
  {
    FilterAppend(p, xs, [x]);
    assert [x][1..] == [];
  }

  lemma {:induction false} TimesAre(samples: seq<Sample>)
    ensures |Ttfts(samples)| == |samples| == |Latencies(samples)|
    ensures forall i :: 0 <= i < |samples| ==>
              Ttfts(samples)[i] == samples[i].ttft && Latencies(samples)[i] == samples[i].latency
  {
    if samples != [] {
      TimesAre(samples[..|samples| - 1]);
    }
  }

  /** These are the times of the samples, in ascending order. */
  ghost predicate Arranges(sorted: seq<real>, times: seq<real>) {
    Ascending(sorted) && multiset(sorted) == multiset(times)
  }

  /** The rates are the shares of the four kinds of error, and the times the medians and the 95th percentiles
      of all first-token times and of all latencies. */
  lemma MetricsTold(samples: seq<Sample>, ttfts: seq<real>, latencies: seq<real>, ttft: seq<real>, lat: seq<real>)
    requires samples != [] && |ttfts| == |latencies| == |samples|
    requires forall i :: 0 <= i < |samples| ==> ttfts[i] == samples[i].ttft && latencies[i] == samples[i].latency
    requires Arranges(ttft, ttfts) && Arranges(lat, latencies)
    ensures var m, n := MetricsOf(samples), |samples| as real;
            && m.count == |samples|
            && m.rate429 == |Filter(SAYS_429, samples)| as real / n
            && m.rate5xx == |Filter(SAYS_5XX, samples)| as real / n
            && m.rateTimeout == |Filter(SAYS_TIMEOUT, samples)| as real / n
            && m.rateNetwork == |Filter(SAYS_NETWORK, samples)| as real / n
            && m.ttft50 == Percentile(ttft, 50.0) && m.ttft95 == Percentile(ttft, 95.0)
            && m.latency50 == Percentile(lat, 50.0) && m.latency95 == Percentile(lat, 95.0)
  {
    CountFilters(samples);
    TimesAre(samples);
    assert Ttfts(samples) == ttfts && Latencies(samples) == latencies;
    SortMeaning(ttfts);
    SortMeaning(latencies);
    AscendingUnique(SortReals(ttfts), ttft);
    AscendingUnique(SortReals(latencies), lat);
    ShareIs(|Filter(SAYS_429, samples)|, |samples|);
    ShareIs(|Filter(SAYS_5XX, samples)|, |samples|);
    ShareIs(|Filter(SAYS_TIMEOUT, samples)|, |samples|);
    ShareIs(|Filter(SAYS_NETWORK, samples)|, |samples|);
  }

  lemma ShareIs(k: nat, n: nat)
    requires n > 0
    ensures Share(k, n) == k as real / n as real
  {
  }

  lemma ShareSum(a: nat, b: nat, c: nat, d: nat, n: nat)
    requires n > 0 && a + b + c + d <= n
    ensures Share(a, n) >= 0.0 && Share(b, n) >= 0.0 && Share(c, n) >= 0.0 && Share(d, n) >= 0.0
    ensures Share(a, n) + Share(b, n) + Share(c, n) + Share(d, n) <= 1.0
  {
    var u := 1.0 / n as real;
    assert u > 0.0 && n as real * u == 1.0;
    assert a as real * u + b as real * u + c as real * u + d as real * u == (a + b + c + d) as real * u;
    Grows((a + b + c + d) as real, n as real, u);
    Grows(0.0, a as real, u);
    Grows(0.0, b as real, u);
    Grows(0.0, c as real, u);
    Grows(0.0, d as real, u);
  }

  lemma Grows(x: real, y: real, u: real)
    requires x <= y && u >= 0.0
    ensures x * u <= y * u
  {
  }

  lemma ShareGrows(a: nat, b: nat, n: nat)
    requires a <= b && n > 0
    ensures Share(a, n) <= Share(b, n)
  {
    Grows(a as real, b as real, 1.0 / n as real);
  }

  /** A window without samples has no figures, no score and no fault. */
  lemma EmptyWindow(accountLimited: bool)
    ensures var m := MetricsOf([]);
            && m.count == 0 && Score(m) == 0.0 && Classify(m, accountLimited) == NoFault
            && m.ttft50 == m.ttft95 == m.latency50 == m.latency95 == 0.0
            && m.rate429 == m.rate5xx == m.rateTimeout == m.rateNetwork == 0.0
  {
  }

  // ---- the score ----

  function Penalties(m: Metrics): real {
    m.rate429 * 30.0 + m.rate5xx * 45.0 + m.rateTimeout * 40.0 + m.rateNetwork * 35.0
    + (if m.ttft95 > 3000.0 then 10.0 else 0.0) + (if m.ttft95 > 10000.0 then 10.0 else 0.0)
    + (if m.latency95 > 20000.0 then 10.0 else 0.0)
  }

  method ComputeScore(m: Metrics) returns (score: real)
    ensures score == Score(m)
  {
    if m.count == 0 {
      return 0.0;
    }
    score := 100.0;
    score := score - m.rate429 * 30.0;
    score := score - m.rate5xx * 45.0;
    score := score - m.rateTimeout * 40.0;
    score := score - m.rateNetwork * 35.0;
    if m.ttft95 > 3000.0 {
      score := score - 10.0;
    }
    if m.ttft95 > 10000.0 {
      score := score - 10.0;
    }
    if m.latency95 > 20000.0 {
      score := score - 10.0;
    }
    if score < 0.0 {
      score := 0.0;
    }
  }

  function Score(m: Metrics): real {
    if m.count == 0 then 0.0 else if 100.0 - Penalties(m) < 0.0 then 0.0 else 100.0 - Penalties(m)
  }

  /** For every window with samples: the error rates are non-negative and add up to at most one, so the
      score lies between 25 and 100 and the clamp at zero never acts. */
  lemma ScoreRange(samples: seq<Sample>)
    requires samples != []
    ensures var m := MetricsOf(samples);
            && m.rate429 >= 0.0 && m.rate5xx >= 0.0 && m.rateTimeout >= 0.0 && m.rateNetwork >= 0.0
            && m.rate429 + m.rate5xx + m.rateTimeout + m.rateNetwork <= 1.0
            && 25.0 <= Score(m) <= 100.0 && Score(m) == 100.0 - Penalties(m)
  {
    ClassesPartition(samples);
    ShareSum(Count(samples, Is429), Count(samples, Is5xx), Count(samples, IsTimeout), Count(samples, IsNetwork),
             |samples|);
  }

  ghost predicate AllOf(samples: seq<Sample>, c: Class) {
    forall i :: 0 <= i < |samples| ==> ClassOf(samples[i]) == c
  }

  lemma {:induction false} CountAll(samples: seq<Sample>, c: Class)
    requires AllOf(samples, c)
    ensures forall d :: Count(samples, d) == if d == c then |samples| else 0
  {
    if samples != [] {
      CountAll(samples[..|samples| - 1], c);
    }
  }

  lemma WholeShare(n: nat)
    requires n > 0
    ensures Share(n, n) == 1.0 && Share(0, n) == 0.0
  {
  }

  /** What a window is worth in which every sample failed the same way: 5xx answers weigh most, then timeouts,
      network errors and rate limits; successes score 100. Slow first tokens cost up to twice ten, slow answers
      another ten. */
  lemma PureWindowScore(samples: seq<Sample>, c: Class)
    requires samples != [] && AllOf(samples, c)
    ensures var m := MetricsOf(samples);
            Score(m) == (match c
                         case Plain => 100.0
                         case Is429 => 70.0
                         case IsNetwork => 65.0
                         case IsTimeout => 60.0
                         case Is5xx => 55.0)
                        - (if m.ttft95 <= 3000.0 then 0.0 else if m.ttft95 <= 10000.0 then 10.0 else 20.0)
                        - (if m.latency95 <= 20000.0 then 0.0 else 10.0)
  {
    CountAll(samples, c);
    WholeShare(|samples|);
  }

  lemma {:induction false} CountUpdate(samples: seq<Sample>, i: nat, s: Sample, c: Class)
    requires i < |samples|
    ensures Count(samples[i := s], c) == Count(samples, c) - (if ClassOf(samples[i]) == c then 1 else 0)
                                         + (if ClassOf(s) == c then 1 else 0)
    decreases |samples|
  {
    var n := |samples| - 1;
    var u := samples[i := s];
    if i == n {
      assert u[..n] == samples[..n];
    } else {
      assert u[..n] == samples[..n][i := s];
      CountUpdate(samples[..n], i, s, c);
    }
  }

  lemma {:induction false} TimesUpdate(samples: seq<Sample>, i: nat, s: Sample)
    requires i < |samples| && s.ttft == samples[i].ttft && s.latency == samples[i].latency
    ensures Ttfts(samples[i := s]) == Ttfts(samples) && Latencies(samples[i := s]) == Latencies(samples)
    decreases |samples|
  {
    var n := |samples| - 1;
    var u := samples[i := s];
    if i == n {
      assert u[..n] == samples[..n];
    } else {
      assert u[..n] == samples[..n][i := s];
      TimesUpdate(samples[..n], i, s);
    }
  }

  /** Turning a success into an error of any class, its times unchanged, never raises the score. */
  lemma ErrorNeverHelps(samples: seq<Sample>, i: nat, s: Sample)
    requires i < |samples| && ClassOf(samples[i]) == Plain
    requires s.ttft == samples[i].ttft && s.latency == samples[i].latency
    ensures Score(MetricsOf(samples[i := s])) <= Score(MetricsOf(samples))
  {
    ErrorAdds(samples, i, s);
    MorePenalty(MetricsOf(samples), MetricsOf(samples[i := s]));
  }

  /** Exactly how much it lowers the score: the weight of its class, shared among the samples. */
  lemma ErrorCosts(samples: seq<Sample>, i: nat, s: Sample)
    requires i < |samples| && ClassOf(samples[i]) == Plain
    requires s.ttft == samples[i].ttft && s.latency == samples[i].latency
    ensures Score(MetricsOf(samples[i := s])) == Score(MetricsOf(samples))
              - (if s.status == 429 then 30.0
                 else if 500 <= s.status < 600 then 45.0
                 else if s.error == TimeoutError then 40.0
                 else if s.error == NetworkError then 35.0
                 else 0.0) / |samples| as real
  {
    var u := samples[i := s];
    TimesUpdate(samples, i, s);
    CountUpdate(samples, i, s, Is429);
    CountUpdate(samples, i, s, Is5xx);
    CountUpdate(samples, i, s, IsTimeout);
    CountUpdate(samples, i, s, IsNetwork);
    ScoreRange(samples);
    ScoreRange(u);
    OneMore(Count(samples, Is429), |samples|);
    OneMore(Count(samples, Is5xx), |samples|);
    OneMore(Count(samples, IsTimeout), |samples|);
    OneMore(Count(samples, IsNetwork), |samples|);
    Weighted(|samples|);
  }

  lemma OneMore(k: nat, n: nat)
    requires n > 0
    ensures Share(k + 1, n) == Share(k, n) + 1.0 / n as real
  {
  }

  lemma Weighted(n: nat)
    requires n > 0
    ensures 30.0 / n as real == 30.0 * (1.0 / n as real) && 45.0 / n as real == 45.0 * (1.0 / n as real)
    ensures 40.0 / n as real == 40.0 * (1.0 / n as real) && 35.0 / n as real == 35.0 * (1.0 / n as real)
  {
  }

  /** The same samples with more errors: no rate is lower, and only a given class's is higher. */
  ghost predicate MoreErrors(m: Metrics, m': Metrics, c: Class) {
    && m.count == m'.count && m.ttft50 == m'.ttft50 && m.ttft95 == m'.ttft95 && m.latency95 == m'.latency95
    && m.rate429 <= m'.rate429 && m.rate5xx <= m'.rate5xx
    && m.rateTimeout <= m'.rateTimeout && m.rateNetwork <= m'.rateNetwork
    && (c != Is429 ==> m.rate429 == m'.rate429) && (c != Is5xx ==> m.rate5xx == m'.rate5xx)
    && (c != IsTimeout ==> m.rateTimeout == m'.rateTimeout) && (c != IsNetwork ==> m.rateNetwork == m'.rateNetwork)
  }

  lemma ErrorAdds(samples: seq<Sample>, i: nat, s: Sample)
    requires i < |samples| && ClassOf(samples[i]) == Plain
    requires s.ttft == samples[i].ttft && s.latency == samples[i].latency
    ensures MoreErrors(MetricsOf(samples), MetricsOf(samples[i := s]), ClassOf(s))
    ensures ClassOf(s) == Is429 ==> MetricsOf(samples[i := s]).rate429 == Share(Count(samples, Is429) + 1, |samples|)
  {
    var u := samples[i := s];
    TimesUpdate(samples, i, s);
    CountUpdate(samples, i, s, Is429);
    CountUpdate(samples, i, s, Is5xx);
    CountUpdate(samples, i, s, IsTimeout);
    CountUpdate(samples, i, s, IsNetwork);
    ShareGrows(Count(samples, Is429), Count(u, Is429), |samples|);
    ShareGrows(Count(samples, Is5xx), Count(u, Is5xx), |samples|);
    ShareGrows(Count(samples, IsTimeout), Count(u, IsTimeout), |samples|);
    ShareGrows(Count(samples, IsNetwork), Count(u, IsNetwork), |samples|);
  }

  lemma MorePenalty(m: Metrics, m': Metrics)
    requires exists c :: MoreErrors(m, m', c)
    ensures Score(m') <= Score(m)
  {
  }

  // ---- the order of samples does not matter ----

  lemma {:induction false} TallyAppend(a: seq<Sample>, b: seq<Sample>)
    ensures Ttfts(a + b) == Ttfts(a) + Ttfts(b) && Latencies(a + b) == Latencies(a) + Latencies(b)
    ensures forall c :: Count(a + b, c) == Count(a, c) + Count(b, c)
    decreases |b|
  {
    if b == [] {
      assert a + b == a;
    } else {
      var m := |b| - 1;
      assert (a + b)[..|a + b| - 1] == a + b[..m];
      TallyAppend(a, b[..m]);
    }
  }

  lemma TallyOut(x: Sample, before: seq<Sample>, after: seq<Sample>)
    ensures multiset(Ttfts(before + [x] + after)) == multiset(Ttfts(before + after)) + multiset{x.ttft}
    ensures multiset(Latencies(before + [x] + after)) == multiset(Latencies(before + after)) + multiset{x.latency}
    ensures forall c :: Count(before + [x] + after, c) == Count(before + after, c) + if ClassOf(x) == c then 1 else 0
  {
    TallyAppend(before + [x], after);
    TallyAppend(before, [x]);
    TallyAppend(before, after);
    assert [x][..0] == [];
    assert Ttfts([x]) == [x.ttft] && Latencies([x]) == [x.latency];
  }

  ghost predicate SameTally(a: seq<Sample>, b: seq<Sample>) {
    && multiset(Ttfts(a)) == multiset(Ttfts(b)) && multiset(Latencies(a)) == multiset(Latencies(b))
    && forall c :: Count(a, c) == Count(b, c)
  }

  lemma TallySnoc(a: seq<Sample>, x: Sample)
    ensures Ttfts(a + [x]) == Ttfts(a) + [x.ttft] && Latencies(a + [x]) == Latencies(a) + [x.latency]
    ensures forall c :: Count(a + [x], c) == Count(a, c) + if ClassOf(x) == c then 1 else 0
  {
    assert (a + [x])[..|a|] == a;
  }

  lemma SameTallyBack(x: Sample, a: seq<Sample>, b: seq<Sample>, b': seq<Sample>)
    requires SameTally(a, b + b')
    ensures SameTally(a + [x], b + [x] + b')
  {
    TallyOut(x, b, b');
    TallySnoc(a, x);
  }

  lemma Removed(a: seq<Sample>, a': seq<Sample>, x: Sample, b: seq<Sample>, b': seq<Sample>)
    requires multiset(a + [x] + a') == multiset(b + [x] + b')
    ensures multiset(a + a') == multiset(b + b')
  {
    assert multiset(a + a') == multiset(a + [x] + a') - multiset{x};
    assert multiset(b + b') == multiset(b + [x] + b') - multiset{x};
  }

  lemma Locate(x: Sample, b: seq<Sample>) returns (j: nat)
    requires x in b
    ensures j < |b| && b == b[..j] + [x] + b[j + 1..]
  {
    j :| 0 <= j < |b| && b[j] == x;
  }

  lemma {:induction false} CountsPermute(a: seq<Sample>, b: seq<Sample>)
    requires multiset(a) == multiset(b)
    ensures SameTally(a, b)
    decreases |a|
  {
    assert |multiset(a)| == |a| && |multiset(b)| == |b|;
    if a != [] {
      var n := |a| - 1;
      var x := a[n];
      assert x in multiset(b);
      var j := Locate(x, b);
      assert a == a[..n] + [x] + [] && a[..n] + [] == a[..n];
      Removed(a[..n], [], x, b[..j], b[j + 1..]);
      CountsPermute(a[..n], b[..j] + b[j + 1..]);
      SameTallyBack(x, a[..n], b[..j], b[j + 1..]);
      assert a == a[..n] + [x];
    }
  }

  /** Metrics, and hence score and classification, do not depend on the order of the samples. */
  lemma MetricsPermute(a: seq<Sample>, b: seq<Sample>)
    requires multiset(a) == multiset(b)
    ensures MetricsOf(a) == MetricsOf(b)
  {
    assert |multiset(a)| == |a| && |multiset(b)| == |b|;
    CountsPermute(a, b);
    SortMeaning(Ttfts(a));
    SortMeaning(Ttfts(b));
    SortMeaning(Latencies(a));
    SortMeaning(Latencies(b));
    AscendingUnique(SortReals(Ttfts(a)), SortReals(Ttfts(b)));
    AscendingUnique(SortReals(Latencies(a)), SortReals(Latencies(b)));
  }

  // ---- classification ----

  function Classify(m: Metrics, accountLimited: bool): Fault {
    if m.count == 0 then NoFault
    else if accountLimited then AccountLimited
    else if m.rateNetwork > 0.3 || m.rateTimeout > 0.5 then NetworkIssue
    else if m.rate5xx > 0.4 then ProviderDegraded
    else if m.rate429 > 0.3 then ModelBusy
    else if m.ttft95 > 10000.0 || m.ttft50 > 5000.0 then ModelBusy
    else if Score(m) < 60.0 then ProviderDegraded
    else NoFault
  }

  /** A window with samples counts as healthy exactly when its account is not limited, no error rate and
      no first-token time is above its threshold, and it scores at least 60; a limited account always
      shows as limited. */
  lemma HealthyExactly(samples: seq<Sample>, accountLimited: bool)
    requires samples != []
    ensures var m := MetricsOf(samples);
            var status := ToStatus(Classify(m, accountLimited));
            && (status == Healthy <==>
                  && !accountLimited && m.rateNetwork <= 0.3 && m.rateTimeout <= 0.5 && m.rate5xx <= 0.4
                  && m.rate429 <= 0.3 && m.ttft95 <= 10000.0 && m.ttft50 <= 5000.0 && Score(m) >= 60.0)
            && (status == Limited <==> accountLimited) && status != Unknown
            && (status == Busy <==>
                  && !accountLimited && m.rateNetwork <= 0.3 && m.rateTimeout <= 0.5 && m.rate5xx <= 0.4
                  && (m.rate429 > 0.3 || m.ttft95 > 10000.0 || m.ttft50 > 5000.0))
            && (Classify(m, accountLimited) == NetworkIssue <==>
                  !accountLimited && (m.rateNetwork > 0.3 || m.rateTimeout > 0.5))
  {
    ScoreRange(samples);
  }

  function ToStatus(f: Fault): Status {
    match f
    case AccountLimited => Limited
    case ProviderDegraded => Degraded
    case NetworkIssue => Degraded
    case ModelBusy => Busy
    case NoFault => Healthy
  }
}
